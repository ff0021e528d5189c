/** `espos_sched` itself: a slot table on a wrapping 32-bit clock, updated in place, and its
    refinement of the ideal scheduler. */
module Scheduler {
  import opened Esp
  import opened ModClock
  import opened IdealSched
  import opened SchedSweep
  import opened SchedRuns
  import opened SchedClock

  datatype Slot = Slot(cb: nat, due: u32, period: u32, gen: nat,
                       used: bool, cancelled: bool, swept: bool, newcomer: bool)

  /** The slot that stands for an ideal timer. */
  function Encode(t: Timer): Slot {
    Slot(t.cb, Wrap(t.due), t.period, Gen(t.serial), t.used, t.cancelled, t.swept, t.newcomer)
  }

  /** The generation the next add hands out, given the 32-bit source; 0 is skipped. */
  function NextGen(source: u32): nat {
    if source % 65536 == 0 then 1 else source % 65536
  }

  /** The generation source after that add. */
  function Stepped(source: u32): u32 {
    (if source % 65536 == 0 then source + 2 else source + 1) % TWO32
  }

  /** The clock test is exact on every timer the sweep may still look at. */
  predicate Comparable(s: State, t0: int) {
    forall i :: 0 <= i < |s.timers| && Live(s.timers[i]) && !s.timers[i].swept && !s.timers[i].newcomer ==>
      t0 - TWO31 < s.timers[i].due <= t0 + TWO31
  }

  lemma {:induction false} RoundKeepsComparable(s: State, p: nat, t0: int, ops: seq<Op>)
    requires s.firing && Comparable(s, t0) && p < |s.timers| && s.timers[p].used
    ensures Comparable(RunOps(Retire(s, p, t0), ops).end, t0)
  {
    var r := Retire(s, p, t0);
    var e := RunOps(r, ops).end;
    OpsEffect(r, ops);
    forall i | 0 <= i < |e.timers| && Live(e.timers[i]) && !e.timers[i].swept && !e.timers[i].newcomer
      ensures t0 - TWO31 < e.timers[i].due <= t0 + TWO31
    {
      assert r.timers[i].used;
    }
  }

  /** The code's re-arming on 32-bit words: no drift, whole missed periods skipped. */
  function Rearm(due: u32, period: u32, now: u32): u32
    requires period > 0
  {
    var next := (due + period) % TWO32;
    if Reached(now, next) then (due + SkipOver((now - due) % TWO32, period)) % TWO32 else next
  }

  /** On a timer less than 2^31 ms late the 32-bit words follow the true deadline, and the skip
      the code adds is below 2^32. */
  lemma {:induction false} RearmIsNextDue(due: int, period: u32, now: int)
    requires 0 < period <= MAX_DELAY && 0 <= now - due < TWO31
    ensures Rearm(Wrap(due), period, Wrap(now)) == Wrap(NextDue(due, period, now))
    ensures SkipOver(now - due, period) < TWO32
  {
    hide SkipOver;
    SkipBounds(now - due, period);
    WrapOfSum(due, period);
    DiffIsTrue(now, due + period);
    if now - due >= period {
      LateRearm(due, now, SkipOver(now - due, period));
    }
  }

  lemma {:induction false} SkipBounds(behind: int, period: u32)
    requires 0 < period && 0 <= behind
    ensures period <= SkipOver(behind, period) <= behind + period
    ensures behind < period ==> SkipOver(behind, period) == period
  {
    assert behind == period * (behind / period) + behind % period;
  }

  lemma {:induction false} LateRearm(due: int, now: int, skip: int)
    requires 0 <= now - due < TWO31
    ensures (Wrap(now) - Wrap(due)) % TWO32 == now - due
    ensures (Wrap(due) + skip) % TWO32 == Wrap(due + skip)
  {
    WrapOfDiff(now, due);
    WrapOfSum(due, skip);
  }

  lemma {:induction false} LowBits(x: nat)
    ensures x % TWO32 % 65536 == x % 65536
  {
    var q := x / TWO32;
    assert x % TWO32 == x - 65536 * (65536 * q);
  }

  lemma {:induction false} GenSteps(adds: nat)
    ensures Gen(adds + 1) == if Gen(adds) == GENERATIONS then 1 else Gen(adds) + 1
  {
  }

  /** The generation source steps past 0, in step with the number of adds. */
  lemma {:induction false} SourceFollowsAdds(source: u32, adds: nat)
    requires NextGen(source) == Gen(adds)
    ensures NextGen(Stepped(source)) == Gen(adds + 1)
  {
    var low := source % 65536;
    GenSteps(adds);
    if low == 0 {
      LowBits(source + 2);
      assert (source + 2) % 65536 == 2;
    } else {
      LowBits(source + 1);
      assert (source + 1) % 65536 == if low == 65535 then 0 else low + 1;
    }
  }

  lemma {:induction false} SlotsFit(s: State)
    requires Sound(s, TWO31)
    ensures |s.timers| <= 0xFFFF
  {
  }

  lemma {:induction false} FirstFreeIs(ts: seq<Timer>, i: nat)
    requires i <= |ts| && (forall j :: 0 <= j < i ==> ts[j].used) && (i < |ts| ==> !ts[i].used)
    ensures FirstFree(ts) == i
  {
  }

  /** Milliseconds until a timer's deadline, 0 once it is due. */
  function Wait(t: Timer, clock: int): nat {
    if t.due <= clock then 0 else t.due - clock
  }

  /** `best` is the least wait among the live timers of the first n slots, `UINT32_MAX` if there are none. */
  ghost predicate Earliest(s: State, n: nat, best: nat) {
    && n <= |s.timers|
    && (best == TWO32 - 1 <==> forall i :: 0 <= i < n ==> !Live(s.timers[i]))
    && (forall i :: 0 <= i < n && Live(s.timers[i]) ==> best <= Wait(s.timers[i], s.clock))
    && (best != TWO32 - 1 ==> exists i :: 0 <= i < n && Live(s.timers[i]) && best == Wait(s.timers[i], s.clock))
  }

  lemma {:induction false} NoneYet(s: State)
    ensures Earliest(Rebase(s), 0, TWO32 - 1) && |Rebase(s).timers| == |s.timers| && Rebase(s).clock == s.clock
  {
  }

  lemma {:induction false} EarliestStep(s: State, n: nat, best: nat)
    requires Earliest(s, n, best) && n < |s.timers|
    requires Live(s.timers[n]) ==> Wait(s.timers[n], s.clock) < TWO32 - 1
    ensures Earliest(s, n + 1, if Live(s.timers[n]) && Wait(s.timers[n], s.clock) < best then Wait(s.timers[n], s.clock) else best)
  {
  }

  lemma {:induction false} EarliestEnds(s: State, n: nat, best: nat)
    requires Earliest(s, n, best) && (n == |s.timers| || best == 0)
    requires forall i :: 0 <= i < |s.timers| && Live(s.timers[i]) ==> Wait(s.timers[i], s.clock) < TWO32 - 1
    ensures Earliest(s, |s.timers|, best)
    ensures best == 0 <==> exists i :: 0 <= i < |s.timers| && DueNow(s, i)
  {
    if i :| 0 <= i < |s.timers| && DueNow(s, i) { assert Wait(s.timers[i], s.clock) == 0; }
    if best == 0 {
      var i :| 0 <= i < n && Live(s.timers[i]) && best == Wait(s.timers[i], s.clock);
      assert DueNow(s, i);
    }
  }

  /** The code's wait for one slot is the wait for its timer as the clock sees it. */
  lemma {:induction false} RebasedSlot(s: State, i: nat)
    requires i < |s.timers|
    ensures |Rebase(s).timers| == |s.timers| && Rebase(s).clock == s.clock
    ensures Live(Rebase(s).timers[i]) <==> Live(s.timers[i])
    ensures var t := Rebase(s).timers[i];
      Live(t) ==>
        && Wait(t, s.clock) < TWO32 - 1
        && (Wait(t, s.clock) == if Reached(Wrap(s.clock), Wrap(s.timers[i].due)) then 0
            else (Wrap(s.timers[i].due) - Wrap(s.clock)) % TWO32)
  {
    hide Seen, Reached, Wrap;
    SeenWraps(s.timers[i].due, s.clock);
    if Live(s.timers[i]) { WaitIsExact(s.clock, Rebase(s).timers[i]); }
  }

  lemma {:induction false} WaitIsExact(clock: int, t: Timer)
    requires clock - TWO31 < t.due <= clock + TWO31
    ensures Wait(t, clock) == if Reached(Wrap(clock), Wrap(t.due)) then 0 else (Wrap(t.due) - Wrap(clock)) % TWO32
  {
    DiffIsTrue(clock, t.due);
    WrapOfDiff(t.due, clock);
  }

  class Scheduler {
    const slots: array<Slot>
    var source: u32      // generation source, `seq` in the code
    var firing: bool
    var now: u32         // the platform's millisecond counter
    ghost var ideal: State

    ghost predicate Coupled()
      reads this, slots
    {
      && slots.Length == |ideal.timers| && Sound(ideal, TWO31)
      && firing == ideal.firing && now == Wrap(ideal.clock)
      && NextGen(source) == Gen(ideal.adds)
      && forall i :: 0 <= i < slots.Length ==> slots[i] == Encode(ideal.timers[i])
    }

    constructor (cap: nat, clock: nat)
      requires 0 < cap <= 0xFFFF
      ensures Coupled() && Idle(ideal) && fresh(slots)
      ensures ideal.clock == clock && ideal.adds == 0
      ensures |ideal.timers| == cap && forall i :: 0 <= i < cap ==> !ideal.timers[i].used
    {
      var blank := Timer(0, 0, 0, -1, false, false, false, false);
      slots := new Slot[cap](_ => Slot(0, 0, 0, 0, false, false, false, false));
      source, firing, now := 1, false, Wrap(clock);
      ideal := State(seq(cap, _ => blank), 0, false, clock);
    }

    /** Time passes. */
    method Elapse(ms: nat)
      requires Coupled()
      modifies this`now, this`ideal
      ensures Coupled() && ideal == RunOp(old(ideal), IdealSched.Elapse(ms))
    {
      WrapOfSum(ideal.clock, ms);
      now := (now + ms) % TWO32;
      ideal := ideal.(clock := ideal.clock + ms);
    }

    method FindFree() returns (i: nat)
      requires Coupled()
      ensures i == FirstFree(ideal.timers)
    {
      i := 0;
      while i < slots.Length && slots[i].used
        invariant i <= slots.Length && forall j :: 0 <= j < i ==> slots[j].used
      {
        i := i + 1;
      }
      FirstFreeIs(ideal.timers, i);
    }

    /** The next of the 65535 generations; a handle of 0 must stand for no timer. */
    method TakeGeneration() returns (gen: nat)
      modifies this`source
      ensures gen == NextGen(old(source)) && source == Stepped(old(source))
    {
      gen := source % 65536;
      source := (source + 1) % TWO32;
      if gen == 0 {
        gen := source % 65536;
        source := (source + 1) % TWO32;
      }
    }

    method Add(delay: u32, period: u32, cb: nat) returns (err: Err, handle: u32)
      requires Coupled()
      modifies this, slots
      ensures Coupled() && ideal == AddTimer(old(ideal), delay, period, cb)
      ensures err == if delay > MAX_DELAY || period > MAX_DELAY then InvalidArg
                     else if AddFits(old(ideal), delay, period) then Ok else NoMem
      ensures handle == if err == Ok then HandleOf(old(ideal).adds, FirstFree(old(ideal).timers)) else 0
    {
      hide Sound, FirstFree;
      if delay > MAX_DELAY || period > MAX_DELAY { return InvalidArg, 0; }
      OpKeepsSound(ideal, IdealSched.Add(delay, period, cb), TWO31);
      SlotsFit(ideal);
      var i := FindFree();
      if i == slots.Length { return NoMem, 0; }
      var gen := TakeGeneration();
      SourceFollowsAdds(old(source), ideal.adds);
      WrapOfSum(ideal.clock, delay);
      slots[i] := Slot(cb, (now + delay) % TWO32, period, gen, true, false, false, firing);
      ideal := AddTimer(ideal, delay, period, cb);
      return Ok, gen * 65536 + i;
    }

    method Cancel(handle: u32) returns (err: Err)
      requires Coupled()
      modifies this`ideal, slots
      ensures Coupled() && ideal == CancelTimer(old(ideal), handle)
      ensures err == if Resolves(old(ideal), handle) then Ok else NotFound
    {
      if handle == 0 { return NotFound; }
      var i := handle % 65536;
      if i >= slots.Length { return NotFound; }
      var t := slots[i];
      if !t.used || t.cancelled || t.gen != handle / 65536 { return NotFound; }
      slots[i] := t.(cancelled := true, used := firing);
      ideal := CancelTimer(ideal, handle);
      return Ok;
    }

    /** The exact distance to the earliest deadline as the clock sees it; `UINT32_MAX` iff nothing
        is pending. Without a timer half a turn late, that is the distance on true time. */
    method NextDueIn() returns (best: u32)
      requires Coupled()
      ensures Earliest(Rebase(ideal), |ideal.timers|, best)
      ensures best == 0 <==> exists i :: 0 <= i < |ideal.timers| && DueNow(Rebase(ideal), i)
      ensures Idle(ideal) && Punctual(ideal) ==> Rebase(ideal) == ideal
    {
      hide Sound, Punctual, Earliest, Rebase, Reached, Wrap;
      ghost var s := Rebase(ideal);
      if Punctual(ideal) { PunctualIsSeen(ideal); }
      best := TWO32 - 1;
      NoneYet(ideal);
      var i := 0;
      while i < slots.Length && best != 0
        invariant 0 <= i <= slots.Length && Earliest(s, i, best)
      {
        var t := slots[i];
        RebasedSlot(ideal, i);
        ghost var before := best;
        if t.used && !t.cancelled {
          var wait := if Reached(now, t.due) then 0 else (t.due - now) % TWO32;
          if wait < best { best := wait; }
        }
        EarliestStep(s, i, before);
        i := i + 1;
      }
      forall j | 0 <= j < |ideal.timers| ensures Live(s.timers[j]) ==> Wait(s.timers[j], s.clock) < TWO32 - 1 {
        RebasedSlot(ideal, j);
      }
      EarliestEnds(s, i, best);
    }

    /** The inner loop of the sweep: the slot to run next, or -1. */
    method PickSlot(nowMs: u32, ghost t0: int) returns (pick: int)
      requires Coupled() && nowMs == Wrap(t0) && Comparable(ideal, t0)
      ensures pick == Pick(ideal, t0)
    {
      pick := -1;
      for i := 0 to slots.Length
        invariant pick == PickAmong(ideal.timers, t0, i)
      {
        var t := slots[i];
        if t.used && !t.cancelled && !t.swept && !t.newcomer {
          DiffIsTrue(t0, ideal.timers[i].due);
          if Reached(nowMs, t.due) {
            if pick >= 0 { DiffIsTrue(ideal.timers[i].due, ideal.timers[pick].due); }
            if pick < 0 || SignedDiff(t.due, slots[pick].due) < 0 { pick := i; }
          }
        }
      }
    }

    /** Retire a one-shot before its callback runs; move a periodic timer to its next deadline. */
    method RetireSlot(pick: nat, nowMs: u32, ghost t0: int)
      requires Coupled() && nowMs == Wrap(t0) && Comparable(ideal, t0) && t0 <= ideal.clock
      requires pick < slots.Length && Eligible(ideal.timers[pick], t0)
      modifies slots, this`ideal
      ensures Coupled() && ideal == Retire(old(ideal), pick, t0)
    {
      RetireKeepsSound(ideal, pick, t0, TWO31);
      var t := slots[pick].(swept := true);
      if t.period == 0 {
        t := t.(cancelled := true);
      } else {
        RearmIsNextDue(ideal.timers[pick].due, t.period, t0);
        t := t.(due := Rearm(t.due, t.period, nowMs));
      }
      slots[pick] := t;
      ideal := Retire(ideal, pick, t0);
    }

    /** One callback: an arbitrary sequence of scheduler calls. Re-entering the sweep is refused. */
    method RunCallback(ops: seq<Op>)
      requires Coupled()
      modifies this, slots
      ensures Coupled() && ideal == RunOps(old(ideal), ops).end
    {
      ghost var start := ideal;
      var i := 0;
      while i < |ops|
        invariant i <= |ops| && Coupled()
        invariant RunOps(start, ops).end == RunOps(ideal, ops[i..]).end
      {
        match ops[i] {
          case Elapse(ms) => Elapse(ms);
          case Add(delay, period, cb) => var _, _ := Add(delay, period, cb);
          case Cancel(h) => var _ := Cancel(h);
          case Reenter =>
        }
        assert ops[i..][1..] == ops[i + 1..];
        i := i + 1;
      }
    }

    /** Clear the sweep marks and free what was cancelled or spent meanwhile. */
    method UnwindSlots()
      requires Coupled()
      modifies this, slots
      ensures Coupled() && ideal == Unwind(old(ideal))
    {
      firing := false;
      var i := 0;
      while i < slots.Length
        invariant i <= slots.Length == |ideal.timers| && firing == false
        invariant forall j :: 0 <= j < slots.Length ==>
          slots[j] == Encode(if j < i then Unwound(ideal.timers[j]) else ideal.timers[j])
        invariant ideal == old(ideal) && now == old(now) && source == old(source)
      {
        var t := slots[i];
        slots[i] := t.(swept := false, newcomer := false, used := t.used && !t.cancelled);
        i := i + 1;
      }
      ideal := Unwind(ideal);
    }

    /** One round of the sweep: pick, retire, call back. */
    method RunNext(ops: seq<Op>, nowMs: u32, ghost t0: int) returns (pick: int)
      requires Coupled() && firing && nowMs == Wrap(t0) && t0 <= ideal.clock && Comparable(ideal, t0)
      modifies this, slots
      ensures Coupled() && firing && t0 <= ideal.clock && Comparable(ideal, t0)
      ensures pick == Pick(old(ideal), t0)
      ensures ideal == if pick < 0 then old(ideal) else RunOps(Retire(old(ideal), pick, t0), ops).end
    {
      pick := PickSlot(nowMs, t0);
      if pick >= 0 {
        ghost var before := ideal;
        RetireSlot(pick, nowMs, t0);
        OpsKeepSound(ideal, ops, TWO31);
        RoundKeepsComparable(before, pick, t0, ops);
        SweepShrinks(before, pick, t0, ops);
        RunCallback(ops);
      }
    }

    /** The outer loop: rounds until nothing eligible is left. */
    method SweepSlots(script: Script) returns (fired: nat, ran: seq<nat>)
      requires Coupled() && firing && Comparable(ideal, ideal.clock)
      modifies this, slots
      ensures Coupled() && ideal == IdealSched.Sweep(old(ideal), old(ideal).clock, script, 0).end
      ensures ran == Fired(IdealSched.Sweep(old(ideal), old(ideal).clock, script, 0).log) && fired == |ran|
    {
      fired, ran := 0, [];
      var nowMs := now;
      ghost var entry, t0 := ideal, ideal.clock;
      while true
        invariant Coupled() && firing && t0 <= ideal.clock && Comparable(ideal, t0)
        invariant Carried(entry, t0, script, ran, ideal) && fired == |ran|
        decreases Pending(ideal)
      {
        ghost var before := ideal;
        var pick := RunNext(script(fired), nowMs, t0);
        if pick < 0 {
          CarriedToEnd(entry, t0, script, ran, ideal);
          break;
        }
        CarriedOn(entry, t0, script, ran, before);
        ran, fired := ran + [pick], fired + 1;
      }
    }

    /** Deadlines read as the clock sees them stand for the same slots. */
    ghost method Reread()
      requires Coupled()
      modifies this`ideal
      ensures Coupled() && ideal == Rebase(old(ideal))
    {
      hide Sound, Seen;
      RebaseKeeps(ideal);
      forall i | 0 <= i < slots.Length ensures Encode(Rebase(ideal).timers[i]) == Encode(ideal.timers[i]) {
        SeenWraps(ideal.timers[i].due, ideal.clock);
      }
      ideal := Rebase(ideal);
    }

    /** A sweep on the wrapping clock is the ideal sweep of the deadlines as the clock sees them:
        the same timers, in the same order, whatever the callbacks do and however late it is. */
    method FireDue(script: Script) returns (fired: nat, ran: seq<nat>)
      requires Coupled() && (!firing ==> Idle(ideal))
      modifies this, slots
      ensures Coupled()
      ensures old(firing) ==> ideal == old(ideal) && ran == [] && fired == 0
      ensures !old(firing) ==> ideal == Fire(Rebase(old(ideal)), script).end
      ensures !old(firing) ==> ran == Fired(Fire(Rebase(old(ideal)), script).log) && fired == |ran|
    {
      hide Sound, IdealSched.Sweep;
      if firing { return 0, []; }
      RebaseKeeps(ideal);
      Reread();
      ghost var seen := ideal;
      firing := true;
      ideal := ideal.(firing := true);
      assert Coupled() by { PunctualIsComparable(seen); }
      assert Comparable(ideal, ideal.clock) by { PunctualIsComparable(seen); }
      fired, ran := SweepSlots(script);
      UnwindSlots();
    }

    method Perform(e: Event) returns (ran: seq<nat>)
      requires Coupled() && Idle(ideal)
      modifies this, slots
      ensures Coupled() && Idle(ideal) && ideal == StepSeen(old(ideal), e) && ran == RunsSeen(old(ideal), e)
    {
      hide Sound, Rebase;
      ran := [];
      StepSeenKeeps(ideal, e);
      match e {
        case Do(op) => RunCallback([op]);
        case Wake(script) => var _, slotsRun := FireDue(script); ran := slotsRun;
      }
    }

    /** Every run of the 32-bit scheduler is the run of the ideal one on seen deadlines; with no
        live timer 2^31 ms late at a sweep it is the run on true time: the same timers, in the
        same order. */
    method Execute(events: seq<Event>) returns (trace: seq<seq<nat>>)
      requires Coupled() && Idle(ideal)
      modifies this, slots
      ensures Coupled() && Idle(ideal) && ideal == RunSeen(old(ideal), events)
      ensures trace == TraceSeen(old(ideal), events)
      ensures NeverLate(old(ideal), events) ==>
        ideal == RunEvents(old(ideal), events) && trace == Trace(old(ideal), events)
    {
      hide Sound, StepSeen, RunsSeen;
      trace := [];
      ghost var start := ideal;
      for i := 0 to |events|
        invariant Coupled() && Idle(ideal) && Progress(start, events, i, ideal, trace)
      {
        ProgressStep(start, events, i, ideal, trace);
        var ran := Perform(events[i]);
        trace := trace + [ran];
      }
      ProgressDone(start, events, ideal, trace);
      if NeverLate(start, events) { NeverLateIsIdeal(start, events); }
    }
  }

  lemma {:induction false} PunctualIsComparable(s: State)
    requires Sound(s, TWO31) && Punctual(s)
    ensures Comparable(s.(firing := true), s.clock) && Sound(s.(firing := true), TWO31)
  {
  }

  /** After the rounds that ran `ran`, the sweep that started in `entry` is about to go on in `cur`. */
  ghost predicate Carried(entry: State, t0: int, script: Script, ran: seq<nat>, cur: State) {
    entry.firing && cur.firing &&
    var all := IdealSched.Sweep(entry, t0, script, 0);
    var rest := IdealSched.Sweep(cur, t0, script, |ran|);
    all.end == rest.end && Fired(all.log) == ran + Fired(rest.log)
  }

  lemma {:induction false} CarriedOn(entry: State, t0: int, script: Script, ran: seq<nat>, cur: State)
    requires Carried(entry, t0, script, ran, cur) && Pick(cur, t0) >= 0
    ensures var called := RunOps(Retire(cur, Pick(cur, t0), t0), script(|ran|));
      Carried(entry, t0, script, ran + [Pick(cur, t0)], called.end) && Pending(called.end) < Pending(cur)
  {
    hide IdealSched.Sweep;
    hide Fired;
    var p := Pick(cur, t0);
    SweepUnfolds(cur, t0, script, |ran|);
    var r := Retire(cur, p, t0);
    var called := RunOps(r, script(|ran|));
    var later := IdealSched.Sweep(called.end, t0, script, |ran| + 1).log;
    OpsEffect(r, script(|ran|));
    RoundFires(p, called.log, later);
    assert ran + ([p] + Fired(later)) == (ran + [p]) + Fired(later);
  }

  lemma {:induction false} SweepUnfolds(s: State, t0: int, script: Script, k: nat)
    requires s.firing && Pick(s, t0) >= 0
    ensures var called := RunOps(Retire(s, Pick(s, t0), t0), script(k));
      && called.end.firing && Pending(called.end) < Pending(s)
      && var rest := IdealSched.Sweep(called.end, t0, script, k + 1);
         IdealSched.Sweep(s, t0, script, k) == Outcome(rest.end, [Ran(Pick(s, t0))] + (called.log + rest.log))
  {
    SweepShrinks(s, Pick(s, t0), t0, script(k));
    var called := RunOps(Retire(s, Pick(s, t0), t0), script(k));
    var later := IdealSched.Sweep(called.end, t0, script, k + 1).log;
    assert [Ran(Pick(s, t0))] + called.log + later == [Ran(Pick(s, t0))] + (called.log + later);
  }

  lemma {:induction false} CarriedToEnd(entry: State, t0: int, script: Script, ran: seq<nat>, cur: State)
    requires Carried(entry, t0, script, ran, cur) && Pick(cur, t0) < 0
    ensures IdealSched.Sweep(entry, t0, script, 0).end == cur
    ensures Fired(IdealSched.Sweep(entry, t0, script, 0).log) == ran
  {
    assert ran + [] == ran;
  }

  /** `i` events of the run are done, with `trace` executed and `cur` reached. */
  ghost predicate Progress(start: State, es: seq<Event>, i: nat, cur: State, trace: seq<seq<nat>>) {
    && i <= |es|
    && RunSeen(start, es) == RunSeen(cur, es[i..])
    && TraceSeen(start, es) == trace + TraceSeen(cur, es[i..])
  }

  lemma {:induction false} ProgressStep(start: State, es: seq<Event>, i: nat, cur: State, trace: seq<seq<nat>>)
    requires i < |es| && Progress(start, es, i, cur, trace)
    ensures Progress(start, es, i + 1, StepSeen(cur, es[i]), trace + [RunsSeen(cur, es[i])])
  {
    assert es[i..][0] == es[i] && es[i..][1..] == es[i + 1..];
    var rest := TraceSeen(StepSeen(cur, es[i]), es[i + 1..]);
    assert trace + ([RunsSeen(cur, es[i])] + rest) == (trace + [RunsSeen(cur, es[i])]) + rest;
  }

  lemma {:induction false} ProgressDone(start: State, es: seq<Event>, cur: State, trace: seq<seq<nat>>)
    requires Progress(start, es, |es|, cur, trace)
    ensures RunSeen(start, es) == cur && TraceSeen(start, es) == trace
  {
    assert trace + [] == trace;
  }

  lemma {:induction false} FireRunsIffDue(s: State, script: Script)
    requires Idle(s)
    ensures Fired(Fire(s, script).log) != []
      <==> exists i :: 0 <= i < |s.timers| && Live(s.timers[i]) && s.timers[i].due <= s.clock
  {
    var e := s.(firing := true);
    PickIsLeast(e, s.clock, |e.timers|);
    SweepRunsWhatWasDue(e, s.clock, script, 0);
    var p := Pick(e, s.clock);
    if p >= 0 {
      assert Live(s.timers[p]);
      FiredMembers(Fire(s, script).log, p);
    }
  }
}
