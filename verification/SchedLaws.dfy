/** What adds, cancels and sweeps leave in the table, slot by slot, and how often a timer runs. */
module SchedLaws {
  import opened ModClock
  import opened IdealSched
  import opened SchedSweep
  import opened SchedRuns
  import opened SchedClock

  // ------------------------------------------------------------------- add and cancel

  /** A timer is added iff its delay and period are below 2^31 ms and a slot is free; it is live, due one delay from now,
      whatever its period, and no other slot changes. */
  lemma {:induction false} AddLeaves(s: State, delay: u32, period: u32, cb: nat)
    ensures var e := AddTimer(s, delay, period, cb);
      if delay < 0x8000_0000 && period < 0x8000_0000 && exists i :: 0 <= i < |s.timers| && !s.timers[i].used
      then exists i :: 0 <= i < |s.timers| && !s.timers[i].used && (forall j :: 0 <= j < i ==> s.timers[j].used) &&
             e == s.(adds := s.adds + 1,
                     timers := s.timers[i := Timer(cb, s.clock + delay, period, s.adds, true, false, false, s.firing)])
      else e == s
  {
    var i := FirstFree(s.timers);
    if AddFits(s, delay, period) { assert !s.timers[i].used; }
  }

  /** Cancelling by handle: the slot it names is no longer live, and between sweeps it is free; nothing else changes. A
      handle that resolves to nothing changes nothing. */
  lemma {:induction false} CancelLeaves(s: State, h: u32)
    ensures var e, i := CancelTimer(s, h), h % 65536;
      if h != 0 && i < |s.timers| && Live(s.timers[i]) && Gen(s.timers[i].serial) == h / 65536
      then |e.timers| == |s.timers| && !Live(e.timers[i]) && e.timers[i].used == s.firing && e.timers[i].serial == s.timers[i].serial
           && e == s.(timers := s.timers[i := e.timers[i]])
      else e == s
  {
  }

  // ------------------------------------------------------------------------ one sweep

  /** What a sweep makes of a slot that was in use when it started. */
  function Ended(t: Timer, ran: bool, stopped: bool, now: int): Timer {
    var c := t.(cancelled := t.cancelled || stopped);
    if !ran then c
    else if t.period == 0 then c.(swept := true, cancelled := true)
    else c.(swept := true, due := NextDue(t.due, t.period, now))
  }

  ghost predicate SlotEnds(s: State, o: Outcome, now: int, i: nat) {
    && i < |s.timers| == |o.end.timers|
    && (s.timers[i].used ==> o.end.timers[i] == Ended(s.timers[i], Ran(i) in o.log, Stopped(i) in o.log, now))
    && (!s.timers[i].used ==> o.end.timers[i] == s.timers[i] || (o.end.timers[i].used && o.end.timers[i].newcomer))
  }

  lemma {:induction false} SweepEnds(s: State, now: int, script: Script, k: nat, i: nat)
    requires s.firing && i < |s.timers|
    ensures SlotEnds(s, IdealSched.Sweep(s, now, script, k), now, i)
    decreases IdealSched.Pending(s)
  {
    var p := Pick(s, now);
    if p >= 0 {
      SweepShrinks(s, p, now, script(k));
      var r := Retire(s, p, now);
      var called := RunOps(r, script(k));
      OpsEffect(r, script(k));
      SweepEnds(called.end, now, script, k + 1, i);
      SweepRunsWhatWasDue(called.end, now, script, k + 1);
      RoundEnds(s, p, now, called, IdealSched.Sweep(called.end, now, script, k + 1), i);
    }
  }

  /** One round put before the rest of the sweep. */
  lemma {:induction false} RoundEnds(s: State, p: nat, now: int, called: Outcome, rest: Outcome, i: nat)
    requires p < |s.timers| == |called.end.timers| && i < |s.timers| && Eligible(s.timers[p], now)
    requires var r := Retire(s, p, now).timers[i];
      if r.used then SlotStep(r, called.end.timers[i], Stopped(i) in called.log) else SlotStep(r, called.end.timers[i], false)
    requires forall n :: n in called.log ==> n.Stopped?
    requires SlotEnds(called.end, rest, now, i)
    requires Ran(i) in rest.log ==> Eligible(called.end.timers[i], now)
    ensures SlotEnds(s, Outcome(rest.end, [Ran(p)] + called.log + rest.log), now, i)
  {
    hide NextDue;
    var log := [Ran(p)] + called.log + rest.log;
    assert Ran(i) in log <==> i == p || Ran(i) in rest.log;
    assert Stopped(i) in log <==> Stopped(i) in called.log || Stopped(i) in rest.log;
  }

  /** What a sweep leaves. A one-shot that ran is gone. A periodic timer that ran and was not cancelled is still there, due
      at the least member of its series after the sweep's time. A timer that neither ran nor was cancelled is as it was.
      A cancelled one is gone. A slot that was free holds a timer added meanwhile, or is free. */
  lemma {:induction false} SweepLeaves(s: State, script: Script, i: nat, k: int)
    requires Idle(s) && i < |s.timers|
    ensures var o := Fire(s, script);
      var t, ran, stopped := s.timers[i], Ran(i) in o.log, Stopped(i) in o.log;
      && |o.end.timers| == |s.timers|
      && (t.used && (stopped || (ran && t.period == 0)) ==> !o.end.timers[i].used)
      && (t.used && !stopped && !ran ==> o.end.timers[i] == t)
      && (t.used && !stopped && ran && t.period > 0 ==>
            var u := o.end.timers[i];
            && u == t.(due := u.due) && Live(u)
            && s.clock < u.due && (u.due - t.due) % t.period == 0
            && (s.clock < t.due + k * t.period ==> u.due <= t.due + k * t.period))
      && (ran ==> t.used && t.due <= s.clock)
      && (!t.used && o.end.timers[i].used ==> Live(o.end.timers[i]))
  {
    hide NextDue, IdealSched.Sweep;
    var e := s.(firing := true);
    var o := IdealSched.Sweep(e, s.clock, script, 0);
    SweepEnds(e, s.clock, script, 0, i);
    SweepRunsWhatWasDue(e, s.clock, script, 0);
    if Ran(i) in o.log && s.timers[i].period > 0 { NextDueIsLeast(s.timers[i].due, s.timers[i].period, s.clock, k); }
  }

  // ------------------------------------------------------------------------ whole runs

  /** No live timer carries the serial, and none ever will. */
  predicate Spent(s: State, serial: int) {
    serial < s.adds && forall i :: 0 <= i < |s.timers| && Live(s.timers[i]) ==> s.timers[i].serial != serial
  }

  /** The timers an event runs, as they stood before it. */
  function TimersRun(s: State, e: Event): (r: seq<Timer>) {
    var fired := Runs(s, e);
    seq(|fired|, a requires 0 <= a < |fired| => if fired[a] < |s.timers| then s.timers[fired[a]] else Timer(0, 0, 0, -1, false, false, false, false))
  }

  /** The timers a run of the 32-bit scheduler runs, one after the other. */
  function AllRun(s: State, es: seq<Event>): seq<Timer>
    decreases |es|
  {
    if es == [] then [] else TimersRun(if es[0].Wake? then Rebase(s) else s, es[0]) + AllRun(StepSeen(s, es[0]), es[1..])
  }

  /** A slot that was free and is in use now holds a timer added since. */
  ghost predicate Newer(s: State, r: State, i: nat) {
    i < |s.timers| == |r.timers| && s.adds <= r.adds && (!s.timers[i].used && r.timers[i].used ==> r.timers[i].serial >= s.adds)
  }

  lemma {:induction false} OpsNewer(s: State, ops: seq<Op>, i: nat)
    requires s.firing && i < |s.timers|
    ensures Newer(s, RunOps(s, ops).end, i)
    decreases |ops|
  {
    hide FirstFree;
    if ops != [] {
      OpEffect(s, ops[0]);
      var n := RunOp(s, ops[0]);
      OpsNewer(n, ops[1..], i);
      OpsEffect(n, ops[1..]);
    }
  }

  lemma {:induction false} SweepNewer(s: State, now: int, script: Script, k: nat, i: nat)
    requires s.firing && i < |s.timers|
    ensures Newer(s, IdealSched.Sweep(s, now, script, k).end, i)
    decreases IdealSched.Pending(s)
  {
    hide SlotEnds;
    var p := Pick(s, now);
    if p >= 0 {
      SweepShrinks(s, p, now, script(k));
      var r := Retire(s, p, now);
      var called := RunOps(r, script(k));
      OpsNewer(r, script(k), i);
      OpsEffect(r, script(k));
      SweepNewer(called.end, now, script, k + 1, i);
      if called.end.timers[i].used { SameSerial(called.end, now, script, k + 1, i); }
    }
  }

  lemma {:induction false} SameSerial(s: State, now: int, script: Script, k: nat, i: nat)
    requires s.firing && i < |s.timers| && s.timers[i].used
    ensures var e := IdealSched.Sweep(s, now, script, k).end; |e.timers| == |s.timers| && e.timers[i].serial == s.timers[i].serial
  {
    SweepEnds(s, now, script, k, i);
  }

  /** What is live after a sweep was live before it and did not end in it, or was added in it. */
  lemma {:induction false} LiveAfterFire(s: State, script: Script, i: nat)
    requires Idle(s) && i < |s.timers|
    ensures var o := Fire(s, script);
      && |o.end.timers| == |s.timers| && s.adds <= o.end.adds
      && (Live(o.end.timers[i]) ==>
            || o.end.timers[i].serial >= s.adds
            || (Live(s.timers[i]) && o.end.timers[i].serial == s.timers[i].serial && !(Ran(i) in o.log && s.timers[i].period == 0)))
  {
    hide IdealSched.Sweep;
    SweepLeaves(s, script, i, 0);
    SweepNewer(s.(firing := true), s.clock, script, 0, i);
  }

  /** A spent serial stays spent, and no event runs it. */
  lemma {:induction false} SpentStays(s: State, e: Event, serial: int)
    requires Sound(s, TWO31) && Idle(s) && Spent(s, serial)
    ensures Spent(Step(s, e), serial)
    ensures forall a :: 0 <= a < |TimersRun(s, e)| ==> TimersRun(s, e)[a].serial != serial
  {
    hide Fire, Sound;
    match e
    case Do(op) => OpLeavesSpent(s, op, serial);
    case Wake(script) =>
      forall i | 0 <= i < |s.timers| ensures |Step(s, e).timers| == |s.timers| && (Live(Step(s, e).timers[i]) ==> Step(s, e).timers[i].serial != serial) {
        LiveAfterFire(s, script, i);
      }
      LiveAfterFire(s, script, 0) by { SoundHasSlots(s); }
      FiredAreDue(s, script);
  }

  lemma {:induction false} SoundHasSlots(s: State)
    requires Sound(s, TWO31)
    ensures 0 < |s.timers|
  {
  }

  lemma {:induction false} OpLeavesSpent(s: State, op: Op, serial: int)
    requires Spent(s, serial)
    ensures Spent(RunOp(s, op), serial)
  {
    hide FirstFree;
  }

  /** A one-shot that an event runs is spent after it, and the event runs it once. */
  lemma {:induction false} OneShotIsSpent(s: State, e: Event, a: nat, b: nat)
    requires Sound(s, TWO31) && Idle(s) && a <= b < |TimersRun(s, e)| && TimersRun(s, e)[a].period == 0
    ensures Spent(Step(s, e), TimersRun(s, e)[a].serial)
    ensures a < b ==> TimersRun(s, e)[b].serial != TimersRun(s, e)[a].serial
  {
    hide Fire, Fired;
    var fired, log := Runs(s, e), Fire(s, e.script).log;
    FiredAreDue(s, e.script);
    FiredMembers(log, fired[a]);
    assert DueNow(s, fired[a]) && DueNow(s, fired[b]);
    assert a < b ==> Before(s, fired[a], fired[b]);
    LiveAfterFire(s, e.script, fired[a]);
    forall j | 0 <= j < |Step(s, e).timers| && Live(Step(s, e).timers[j]) ensures Step(s, e).timers[j].serial != s.timers[fired[a]].serial {
      LiveAfterFire(s, e.script, j);
    }
  }

  lemma {:induction false} SeenStepSpends(s: State, e: Event, serial: int)
    requires Sound(s, TWO31) && Idle(s) && Spent(s, serial)
    ensures Spent(StepSeen(s, e), serial)
    ensures var r := TimersRun(if e.Wake? then Rebase(s) else s, e); forall a :: 0 <= a < |r| ==> r[a].serial != serial
  {
    hide Sound, Step, TimersRun;
    RebaseKeeps(s);
    assert Spent(Rebase(s), serial);
    SpentStays(if e.Wake? then Rebase(s) else s, e, serial);
  }

  lemma {:induction false} SpentNeverRuns(s: State, es: seq<Event>, serial: int, a: nat)
    requires Sound(s, TWO31) && Idle(s) && Spent(s, serial) && a < |AllRun(s, es)|
    ensures AllRun(s, es)[a].serial != serial
    decreases |es|
  {
    hide Sound, StepSeen, TimersRun, Idle, Spent;
    StepSeenKeeps(s, es[0]);
    SeenStepSpends(s, es[0], serial);
    var n := |TimersRun(if es[0].Wake? then Rebase(s) else s, es[0])|;
    if a >= n { SpentNeverRuns(StepSeen(s, es[0]), es[1..], serial, a - n); }
  }

  /** Over a whole run of the 32-bit scheduler, of any lateness and with any callbacks, a one-shot runs at most once. */
  lemma {:induction false} OneShotRunsOnce(s: State, es: seq<Event>, a: nat, b: nat)
    requires Sound(s, TWO31) && Idle(s) && a < b < |AllRun(s, es)| && AllRun(s, es)[a].period == 0
    ensures AllRun(s, es)[b].serial != AllRun(s, es)[a].serial
    decreases |es|
  {
    hide Sound, TimersRun, Idle, Spent, Step;
    var seen := if es[0].Wake? then Rebase(s) else s;
    var first := TimersRun(seen, es[0]);
    var n := |first|;
    StepSeenKeeps(s, es[0]);
    RebaseKeeps(s);
    if a >= n {
      OneShotRunsOnce(StepSeen(s, es[0]), es[1..], a - n, b - n);
    } else {
      OneShotIsSpent(seen, es[0], a, if b < n then b else a);
      if b >= n { SpentNeverRuns(StepSeen(s, es[0]), es[1..], first[a].serial, b - n); }
    }
  }
}
