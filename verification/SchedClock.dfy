/** The ideal scheduler as a 32-bit clock sees it: every deadline is taken for the one within
    half a turn of the clock. Nothing else separates `espos_sched` from true time. */
module SchedClock {
  import opened ModClock
  import opened IdealSched
  import opened SchedSweep
  import opened SchedRuns

  /** The deadline a clock reading of `now` takes `due` for. */
  function Seen(due: int, now: int): (r: int)
    ensures now - TWO31 < r <= now + TWO31
    ensures r <= now <==> (now - due) % TWO32 < TWO31
  {
    var behind := (now - due) % TWO32;
    now - (if behind < TWO31 then behind else behind - TWO32)
  }

  lemma {:induction false} SeenWraps(due: int, now: int)
    ensures Wrap(Seen(due, now)) == Wrap(due)
  {
    var q := (now - due) / TWO32;
    assert now - due == q * TWO32 + (now - due) % TWO32;
    if (now - due) % TWO32 < TWO31 {
      assert Seen(due, now) == due + q * TWO32;
      ModShift(due, q);
    } else {
      assert Seen(due, now) == due + (q + 1) * TWO32;
      ModShift(due, q + 1);
    }
  }

  /** The clock sees a deadline as it is exactly when it is less than half a turn ago, and no
      further ahead than half a turn. */
  lemma {:induction false} SeenIsTrueIff(due: int, now: int)
    ensures Seen(due, now) == due <==> now - TWO31 < due <= now + TWO31
  {
  }

  function SeenTimer(t: Timer, now: int): Timer {
    if Live(t) then t.(due := Seen(t.due, now)) else t
  }

  function Rebase(s: State): State {
    s.(timers := seq(|s.timers|, i requires 0 <= i < |s.timers| => SeenTimer(s.timers[i], s.clock)))
  }

  lemma {:induction false} RebaseKeeps(s: State)
    requires Sound(s, TWO31)
    ensures Sound(Rebase(s), TWO31) && Aged(s, Rebase(s)) && Punctual(Rebase(s))
    ensures Idle(s) ==> Idle(Rebase(s))
  {
    hide Seen;
    forall t: Timer ensures s.clock - TWO31 < Seen(t.due, s.clock) <= s.clock + TWO31 {}
  }

  /** With no live timer half a turn late there is nothing to take for something else. */
  lemma {:induction false} PunctualIsSeen(s: State)
    requires Sound(s, TWO31) && Punctual(s)
    ensures Idle(s) ==> Rebase(s) == s
    ensures forall i :: 0 <= i < |s.timers| && Live(s.timers[i]) ==> Rebase(s).timers[i] == s.timers[i]
  {
    forall i | 0 <= i < |s.timers| && Live(s.timers[i]) ensures SeenTimer(s.timers[i], s.clock) == s.timers[i] {
      SeenIsTrueIff(s.timers[i].due, s.clock);
    }
  }

  // ------------------------------------------------------------------------------ runs

  function StepSeen(s: State, e: Event): State {
    Step(if e.Wake? then Rebase(s) else s, e)
  }

  function RunsSeen(s: State, e: Event): seq<nat> {
    Runs(if e.Wake? then Rebase(s) else s, e)
  }

  function RunSeen(s: State, es: seq<Event>): State
    decreases |es|
  {
    if es == [] then s else RunSeen(StepSeen(s, es[0]), es[1..])
  }

  function TraceSeen(s: State, es: seq<Event>): seq<seq<nat>>
    decreases |es|
  {
    if es == [] then [] else [RunsSeen(s, es[0])] + TraceSeen(StepSeen(s, es[0]), es[1..])
  }

  lemma {:induction false} StepSeenKeeps(s: State, e: Event)
    requires Sound(s, TWO31) && Idle(s)
    ensures Sound(StepSeen(s, e), TWO31) && Idle(StepSeen(s, e)) && Aged(s, StepSeen(s, e))
  {
    hide Step, Rebase;
    RebaseKeeps(s);
    StepKeepsSound(s, e, TWO31);
    StepKeepsSound(Rebase(s), e, TWO31);
    AgedTwice(s, Rebase(s), StepSeen(s, e));
  }

  lemma {:induction false} AgedTwice(s: State, r: State, e: State)
    ensures Aged(s, r) && Aged(r, e) ==> Aged(s, e)
  {
  }

  lemma {:induction false} RunSeenKeeps(s: State, es: seq<Event>)
    requires Sound(s, TWO31) && Idle(s)
    ensures Sound(RunSeen(s, es), TWO31) && Idle(RunSeen(s, es)) && Aged(s, RunSeen(s, es))
    decreases |es|
  {
    hide StepSeen, Sound, Idle;
    if es != [] {
      StepSeenKeeps(s, es[0]);
      RunSeenKeeps(StepSeen(s, es[0]), es[1..]);
      AgedTwice(s, StepSeen(s, es[0]), RunSeen(s, es));
    }
  }

  /** At each sweep of the run no live timer is 2^31 ms or more late. */
  predicate NeverLate(s: State, es: seq<Event>)
    decreases |es|
  {
    es == [] || ((es[0].Wake? ==> Punctual(s)) && NeverLate(StepSeen(s, es[0]), es[1..]))
  }

  /** A run without half-turn lateness at its sweeps is the ideal run on true time. */
  lemma {:induction false} NeverLateIsIdeal(s: State, es: seq<Event>)
    requires Sound(s, TWO31) && Idle(s) && NeverLate(s, es)
    ensures RunSeen(s, es) == RunEvents(s, es) && TraceSeen(s, es) == Trace(s, es)
    decreases |es|
  {
    hide Step, Runs, Rebase, Sound, Punctual;
    if es != [] {
      if es[0].Wake? { PunctualIsSeen(s); }
      StepSeenKeeps(s, es[0]);
      NeverLateIsIdeal(StepSeen(s, es[0]), es[1..]);
    }
  }

  /** A handle names its timer on the 32-bit scheduler too, in runs of any lateness. */
  lemma {:induction false} CancelFindsItsTimerSeen(s: State, delay: u32, period: u32, cb: nat, es: seq<Event>)
    requires Sound(s, TWO31) && Idle(s) && AddFits(s, delay, period)
    requires RunSeen(AddTimer(s, delay, period, cb), es).adds - s.adds <= GENERATIONS
    ensures var r := RunSeen(AddTimer(s, delay, period, cb), es);
      Resolves(r, HandleOf(s.adds, FirstFree(s.timers)))
      <==> exists j :: 0 <= j < |r.timers| && Live(r.timers[j]) && r.timers[j].serial == s.adds
  {
    var a := AddTimer(s, delay, period, cb);
    StepKeepsSound(s, Do(Add(delay, period, cb)), TWO31);
    RunSeenKeeps(a, es);
    HandleNamesItsTimer(s, delay, period, cb, RunSeen(a, es), TWO31);
  }

  /** The same for a handle issued inside a callback of a 32-bit sweep. */
  lemma {:induction false} CallbackHandleFindsItsTimerSeen(s: State, delay: u32, period: u32, cb: nat, ops: seq<Op>, now: int, script: Script, k: nat,
                                                           es: seq<Event>)
    requires s.firing && Sound(s, TWO31) && AddFits(s, delay, period) && now <= s.clock
    requires RunSeen(RestOfSweep(AddTimer(s, delay, period, cb), ops, now, script, k), es).adds - s.adds <= GENERATIONS
    ensures var r := RunSeen(RestOfSweep(AddTimer(s, delay, period, cb), ops, now, script, k), es);
      Resolves(r, HandleOf(s.adds, FirstFree(s.timers)))
      <==> exists j :: 0 <= j < |r.timers| && Live(r.timers[j]) && r.timers[j].serial == s.adds
  {
    hide RestOfSweep, RunSeen, Sound, Resolves;
    var a := AddTimer(s, delay, period, cb);
    OpKeepsSound(s, Add(delay, period, cb), TWO31);
    RestOfSweepKeeps(a, ops, now, script, k, TWO31);
    var c := RestOfSweep(a, ops, now, script, k);
    RunSeenKeeps(c, es);
    AgedTwice(a, c, RunSeen(c, es));
    HandleNamesItsTimer(s, delay, period, cb, RunSeen(c, es), TWO31);
  }

  // ----------------------------------------------------------------------- late timers

  /** A sweep of the 32-bit scheduler with idle callbacks runs a live timer exactly when its
      lateness, modulo the turn of the clock, is below half a turn. */
  lemma {:induction false} SweepRunsIff(s: State, i: nat)
    requires Sound(s, TWO31) && Idle(s) && i < |s.timers| && Live(s.timers[i])
    ensures i in Fired(Fire(Rebase(s), Silent()).log) <==> (s.clock - s.timers[i].due) % TWO32 < TWO31
  {
    hide Fire, Fired, Seen, Sound;
    RebaseKeeps(s);
    var r := Rebase(s);
    assert r.timers[i].due == Seen(s.timers[i].due, s.clock);
    var fired := Fired(Fire(r, Silent()).log);
    if i in fired {
      FiredAreDue(r, Silent());
      var a :| 0 <= a < |fired| && fired[a] == i;
      assert DueNow(r, fired[a]);
    }
    if DueNow(r, i) { SilentRunsAll(r, i); }
  }

  /** So a due timer is missed exactly while it is half a turn to a full turn late, modulo whole
      turns; the ideal sweep runs it. */
  lemma {:induction false} LateTimerIsMissed(s: State, i: nat)
    requires Sound(s, TWO31) && Idle(s) && i < |s.timers| && DueNow(s, i)
    ensures i in Fired(Fire(s, Silent()).log)
    ensures i !in Fired(Fire(Rebase(s), Silent()).log) <==> (s.clock - s.timers[i].due) % TWO32 >= TWO31
  {
    SilentRunsAll(s, i);
    SweepRunsIff(s, i);
  }
}
