/** The timer scheduler on unbounded integer time: what `espos_sched` is meant to compute.
    Deadlines are integers, timers carry a serial number, and nothing wraps. */
module IdealSched {
  import opened ModClock

  const MAX_DELAY: int := 0x7FFF_FFFF
  const GENERATIONS: int := 65535

  /** One slot. `serial` numbers the successful adds; -1 marks a slot never used. */
  datatype Timer = Timer(cb: nat, due: int, period: u32, serial: int,
                         used: bool, cancelled: bool, swept: bool, newcomer: bool)

  datatype State = State(timers: seq<Timer>, adds: nat, firing: bool, clock: int)

  /** What a callback, or the owner between sweeps, may do. `Elapse` lets the clock run. */
  datatype Op =
    | Elapse(ms: nat)
    | Add(delay: u32, period: u32, cb: nat)
    | Cancel(handle: u32)
    | Reenter

  /** An adversary's callbacks: the k-th callback of a sweep performs `script(k)`. */
  type Script = nat -> seq<Op>

  datatype Note = Ran(slot: nat) | Stopped(slot: nat)

  datatype Outcome = Outcome(end: State, log: seq<Note>)

  predicate Live(t: Timer) {
    t.used && !t.cancelled
  }

  /** May this timer still run in the sweep in progress? */
  predicate Eligible(t: Timer, now: int) {
    Live(t) && !t.swept && !t.newcomer && t.due <= now
  }

  function Gen(serial: int): nat {
    if serial < 0 then 0 else serial % GENERATIONS + 1
  }

  function HandleOf(serial: nat, slot: nat): (h: u32)
    requires slot <= 0xFFFF
    ensures h != 0 && h % 65536 == slot && h / 65536 == Gen(serial)
  {
    Gen(serial) * 65536 + slot
  }

  function FirstFree(ts: seq<Timer>): (i: nat)
    ensures i <= |ts|
    ensures i < |ts| ==> !ts[i].used
    ensures forall j :: 0 <= j < i ==> ts[j].used
  {
    if ts == [] || !ts[0].used then 0 else
      var rest := FirstFree(ts[1..]);
      assert forall j :: 1 <= j < 1 + rest ==> ts[j] == ts[1..][j - 1];
      1 + rest
  }

  predicate AddFits(s: State, delay: u32, period: u32) {
    delay <= MAX_DELAY && period <= MAX_DELAY && FirstFree(s.timers) < |s.timers|
  }

  function AddTimer(s: State, delay: u32, period: u32, cb: nat): State {
    if !AddFits(s, delay, period) then s else
      var t := Timer(cb, s.clock + delay, period, s.adds, true, false, false, s.firing);
      s.(timers := s.timers[FirstFree(s.timers) := t], adds := s.adds + 1)
  }

  predicate Resolves(s: State, h: u32) {
    h != 0 && h % 65536 < |s.timers| &&
    var t := s.timers[h % 65536];
    Live(t) && Gen(t.serial) == h / 65536
  }

  /** Outside a sweep the slot is free at once; inside one it is only marked. */
  function CancelTimer(s: State, h: u32): State {
    if !Resolves(s, h) then s else
      var i := h % 65536;
      s.(timers := s.timers[i := s.timers[i].(cancelled := true, used := s.firing)])
  }

  function RunOp(s: State, op: Op): State {
    match op
    case Elapse(ms) => s.(clock := s.clock + ms)
    case Add(delay, period, cb) => AddTimer(s, delay, period, cb)
    case Cancel(h) => CancelTimer(s, h)
    case Reenter => s
  }

  function NotesOf(s: State, op: Op): seq<Note> {
    if op.Cancel? && Resolves(s, op.handle) then [Stopped(op.handle % 65536)] else []
  }

  function RunOps(s: State, ops: seq<Op>): Outcome
    decreases |ops|
  {
    if ops == [] then Outcome(s, []) else
      var rest := RunOps(RunOp(s, ops[0]), ops[1..]);
      Outcome(rest.end, NotesOf(s, ops[0]) + rest.log)
  }

  /** The earliest eligible deadline among the first `n` slots, lowest slot first; -1 if none. */
  function PickAmong(ts: seq<Timer>, now: int, n: nat): (p: int)
    requires n <= |ts|
    ensures -1 <= p < n
    ensures 0 <= p ==> Eligible(ts[p], now)
  {
    if n == 0 then -1 else
      var p := PickAmong(ts, now, n - 1);
      if Eligible(ts[n - 1], now) && (p < 0 || ts[n - 1].due < ts[p].due) then n - 1 else p
  }

  function Pick(s: State, now: int): int {
    PickAmong(s.timers, now, |s.timers|)
  }

  /** How far past a deadline met `behind` ms ago the next one lies. */
  function SkipOver(behind: int, period: u32): int
    requires period > 0
  {
    behind - behind % period + period
  }

  /** The first deadline of the series `due, due + period, ...` that lies after `now`. */
  function NextDue(due: int, period: u32, now: int): int
    requires period > 0
  {
    due + SkipOver(now - due, period)
  }

  /** Mark the picked timer run: a one-shot is retired, a periodic one re-armed. */
  function Retire(s: State, p: nat, now: int): State
    requires p < |s.timers|
  {
    var t := s.timers[p].(swept := true);
    s.(timers := s.timers[p := if t.period == 0 then t.(cancelled := true)
                               else t.(due := NextDue(t.due, t.period, now))])
  }

  /** The slots a sweep may still run: its termination measure. */
  function Pending(s: State): set<nat> {
    set i: nat | i < |s.timers| && s.timers[i].used && !s.timers[i].swept && !s.timers[i].newcomer
  }

  function Sweep(s: State, now: int, script: Script, k: nat): Outcome
    requires s.firing
    decreases Pending(s)
  {
    var p := Pick(s, now);
    if p < 0 then Outcome(s, []) else
      var called := RunOps(Retire(s, p, now), script(k));
      SweepShrinks(s, p, now, script(k));
      var rest := Sweep(called.end, now, script, k + 1);
      Outcome(rest.end, [Ran(p)] + called.log + rest.log)
  }

  function Unwound(t: Timer): Timer {
    t.(swept := false, newcomer := false, used := t.used && !t.cancelled)
  }

  function Unwind(s: State): State {
    s.(firing := false, timers := seq(|s.timers|, i requires 0 <= i < |s.timers| => Unwound(s.timers[i])))
  }

  /** `espos_sched_fire`: refused while a sweep is in progress. */
  function Fire(s: State, script: Script): Outcome {
    if s.firing then Outcome(s, []) else
      var swept := Sweep(s.(firing := true), s.clock, script, 0);
      Outcome(Unwind(swept.end), swept.log)
  }

  // ---------------------------------------------------------------- what callbacks can do

  /** What any number of callback operations may do to one slot during a sweep. */
  ghost predicate SlotStep(t: Timer, u: Timer, stopped: bool) {
    if t.used then u == t.(cancelled := t.cancelled || stopped) && (stopped ==> !t.cancelled)
    else u == t || (u.used && u.newcomer)
  }

  lemma {:induction false} OpEffect(s: State, op: Op)
    requires s.firing
    ensures RunOp(s, op).firing && |RunOp(s, op).timers| == |s.timers|
    ensures forall i :: 0 <= i < |s.timers| && s.timers[i].used ==>
      SlotStep(s.timers[i], RunOp(s, op).timers[i], Stopped(i) in NotesOf(s, op))
    ensures forall i :: 0 <= i < |s.timers| && !s.timers[i].used ==>
      SlotStep(s.timers[i], RunOp(s, op).timers[i], false)
  {
  }

  lemma {:induction false} OpsEffect(s: State, ops: seq<Op>)
    requires s.firing
    ensures var r := RunOps(s, ops);
      && r.end.firing && |r.end.timers| == |s.timers|
      && (forall i :: 0 <= i < |s.timers| && s.timers[i].used ==>
            SlotStep(s.timers[i], r.end.timers[i], Stopped(i) in r.log))
      && (forall i :: 0 <= i < |s.timers| && !s.timers[i].used ==>
            SlotStep(s.timers[i], r.end.timers[i], false))
      && (forall n :: n in r.log ==> n.Stopped?)
    decreases |ops|
  {
    if ops != [] {
      OpEffect(s, ops[0]);
      OpsEffect(RunOp(s, ops[0]), ops[1..]);
    }
  }

  lemma {:induction false} SweepShrinks(s: State, p: nat, now: int, ops: seq<Op>)
    requires s.firing && p < |s.timers| && Eligible(s.timers[p], now)
    ensures RunOps(Retire(s, p, now), ops).end.firing
    ensures Pending(RunOps(Retire(s, p, now), ops).end) < Pending(s)
  {
    OpsEffect(Retire(s, p, now), ops);
    assert p in Pending(s);
    assert p !in Pending(RunOps(Retire(s, p, now), ops).end);
  }
}
