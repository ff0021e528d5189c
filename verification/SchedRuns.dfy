/** Whole runs of the ideal scheduler: invariants, handle identity, periodic deadlines. */
module SchedRuns {
  import opened ModClock
  import opened IdealSched
  import opened SchedSweep

  /** What the owner of the scheduler does: an operation between sweeps, or a sweep. */
  datatype Event = Do(op: Op) | Wake(script: Script)

  function Step(s: State, e: Event): State {
    match e
    case Do(op) => RunOp(s, op)
    case Wake(script) => Fire(s, script).end
  }

  /** The slots a single event runs. */
  function Runs(s: State, e: Event): seq<nat> {
    if e.Wake? then Fired(Fire(s, e.script).log) else []
  }

  function RunEvents(s: State, es: seq<Event>): State
    decreases |es|
  {
    if es == [] then s else RunEvents(Step(s, es[0]), es[1..])
  }

  /** Everything a run executes: per event, the slots run and their order. */
  function Trace(s: State, es: seq<Event>): seq<seq<nat>>
    decreases |es|
  {
    if es == [] then [] else [Runs(s, es[0])] + Trace(Step(s, es[0]), es[1..])
  }

  /** Holds at every point, inside a sweep too: deadlines are never further ahead than `ahead`,
      and every occupied slot carries the serial of an earlier add, no two the same. */
  predicate Sound(s: State, ahead: int) {
    && 0 < |s.timers| <= 0xFFFF
    && (forall i, j :: 0 <= i < j < |s.timers| && s.timers[i].used && s.timers[j].used ==> s.timers[i].serial != s.timers[j].serial)
    && forall i :: 0 <= i < |s.timers| ==>
         var t := s.timers[i];
         && -1 <= t.serial < s.adds
         && t.period <= MAX_DELAY
         && (t.used ==> t.serial >= 0 && t.due - s.clock <= ahead)
  }

  /** Between sweeps no slot carries a sweep mark and no cancelled timer holds a slot. */
  predicate Idle(s: State) {
    && !s.firing
    && forall i :: 0 <= i < |s.timers| ==>
         !s.timers[i].swept && !s.timers[i].newcomer && (s.timers[i].used ==> !s.timers[i].cancelled)
  }

  /** No live timer is 2^31 ms or more late. */
  predicate Punctual(s: State) {
    forall i :: 0 <= i < |s.timers| && Live(s.timers[i]) ==> s.clock - s.timers[i].due < TWO31
  }

  /** Time and serial numbers only move forward: each slot keeps its timer or gets a later one. */
  predicate Aged(s: State, r: State) {
    && |s.timers| == |r.timers| && s.adds <= r.adds && s.clock <= r.clock
    && forall i :: 0 <= i < |s.timers| ==>
         r.timers[i].serial == s.timers[i].serial || r.timers[i].serial >= s.adds
  }

  lemma {:induction false} OpKeepsSound(s: State, op: Op, ahead: int)
    requires Sound(s, ahead) && ahead >= MAX_DELAY
    ensures Sound(RunOp(s, op), ahead) && Aged(s, RunOp(s, op))
    ensures Idle(s) ==> Idle(RunOp(s, op))
  {
    hide FirstFree;
  }

  lemma {:induction false} OpsKeepSound(s: State, ops: seq<Op>, ahead: int)
    requires Sound(s, ahead) && ahead >= MAX_DELAY
    ensures Sound(RunOps(s, ops).end, ahead) && Aged(s, RunOps(s, ops).end)
    decreases |ops|
  {
    hide RunOp;
    if ops != [] {
      OpKeepsSound(s, ops[0], ahead);
      OpsKeepSound(RunOp(s, ops[0]), ops[1..], ahead);
    }
  }

  /** The next deadline is the least member of the timer's own series after `now`; the code's
      skip never leaves 32 bits. `k` stands for any other member of the series. */
  lemma {:induction false} NextDueIsLeast(due: int, period: u32, now: int, k: int)
    requires 0 < period && due <= now
    ensures now < NextDue(due, period, now) <= now + period
    ensures (NextDue(due, period, now) - due) % period == 0
    ensures now < due + k * period ==> NextDue(due, period, now) <= due + k * period
  {
    var q := (now - due) / period;
    assert q * period <= now - due < q * period + period;
    assert (q + 1) * period == q * period + period;
    ModOfMultiple(q + 1, period);
    if now < due + k * period && k <= q {
      MultipleMonotone(k, q, period);
    } else if k > q {
      MultipleMonotone(q + 1, k, period);
    }
  }

  lemma {:induction false} ModOfMultiple(q: int, p: int)
    requires p > 0
    ensures (q * p) % p == 0
  {
    var x := q * p;
    var d := q - x / p;
    assert d * p == q * p - x / p * p == x % p;
    if d > 0 {
      MultipleMonotone(1, d, p);
    } else {
      MultipleMonotone(d, 0, p);
    }
  }

  lemma {:induction false} MultipleMonotone(a: int, b: int, p: int)
    requires a <= b && p > 0
    ensures a * p <= b * p
  {
  }

  lemma {:induction false} RetireKeepsSound(s: State, p: nat, now: int, ahead: int)
    requires Sound(s, ahead) && ahead >= MAX_DELAY && p < |s.timers| && s.timers[p].due <= now <= s.clock && s.timers[p].used
    ensures Sound(Retire(s, p, now), ahead) && Aged(s, Retire(s, p, now))
  {
    if s.timers[p].period > 0 { NextDueIsLeast(s.timers[p].due, s.timers[p].period, now, 0); }
  }

  lemma {:induction false} SweepKeepsSound(s: State, now: int, script: Script, k: nat, ahead: int)
    requires s.firing && Sound(s, ahead) && ahead >= MAX_DELAY && now <= s.clock
    ensures var e := IdealSched.Sweep(s, now, script, k).end; Sound(e, ahead) && Aged(s, e)
    decreases Pending(s)
  {
    var p := Pick(s, now);
    if p >= 0 {
      RetireKeepsSound(s, p, now, ahead);
      var r := Retire(s, p, now);
      OpsKeepSound(r, script(k), ahead);
      SweepShrinks(s, p, now, script(k));
      SweepKeepsSound(RunOps(r, script(k)).end, now, script, k + 1, ahead);
    }
  }

  lemma {:induction false} StepKeepsSound(s: State, e: Event, ahead: int)
    requires Sound(s, ahead) && Idle(s) && ahead >= MAX_DELAY
    ensures Sound(Step(s, e), ahead) && Idle(Step(s, e)) && Aged(s, Step(s, e))
  {
    hide RunOp;
    hide IdealSched.Sweep;
    match e
    case Do(op) => OpKeepsSound(s, op, ahead);
    case Wake(script) =>
      SweepKeepsSound(s.(firing := true), s.clock, script, 0, ahead);
  }

  /** Every run of events keeps the scheduler sound and idle between events. */
  lemma {:induction false} RunKeepsSound(s: State, es: seq<Event>, ahead: int)
    requires Sound(s, ahead) && Idle(s) && ahead >= MAX_DELAY
    ensures Sound(RunEvents(s, es), ahead) && Idle(RunEvents(s, es)) && Aged(s, RunEvents(s, es))
    decreases |es|
  {
    if es != [] {
      StepKeepsSound(s, es[0], ahead);
      RunKeepsSound(Step(s, es[0]), es[1..], ahead);
    }
  }

  /** A handle names one timer only. Whatever happened since the add, inside or outside a sweep,
      as long as fewer than 65535 further adds succeeded, the handle resolves exactly when the
      very timer it was issued for is still live somewhere in the table. */
  lemma {:induction false} HandleNamesItsTimer(s: State, delay: u32, period: u32, cb: nat, r: State, ahead: int)
    requires Sound(s, ahead) && AddFits(s, delay, period)
    requires Sound(r, ahead) && Aged(AddTimer(s, delay, period, cb), r)
    requires r.adds - AddTimer(s, delay, period, cb).adds < GENERATIONS
    ensures Resolves(r, HandleOf(s.adds, FirstFree(s.timers)))
      <==> exists j :: 0 <= j < |r.timers| && Live(r.timers[j]) && r.timers[j].serial == s.adds
  {
    var i := FirstFree(s.timers);
    var a := AddTimer(s, delay, period, cb);
    assert forall j :: 0 <= j < |a.timers| && j != i ==> a.timers[j].serial < s.adds;
    assert forall j :: 0 <= j < |r.timers| && r.timers[j].serial == s.adds ==> j == i;
    var n := r.timers[i].serial;
    assert s.adds <= n < s.adds + 1 + GENERATIONS;
    assert n != s.adds ==> Gen(s.adds) != Gen(n);
  }

  /** The same over any run of events after the add. */
  lemma {:induction false} CancelFindsItsTimer(s: State, delay: u32, period: u32, cb: nat, es: seq<Event>)
    requires Sound(s, MAX_DELAY) && Idle(s) && AddFits(s, delay, period)
    requires RunEvents(AddTimer(s, delay, period, cb), es).adds - s.adds <= GENERATIONS
    ensures var r := RunEvents(AddTimer(s, delay, period, cb), es);
      Resolves(r, HandleOf(s.adds, FirstFree(s.timers)))
      <==> exists j :: 0 <= j < |r.timers| && Live(r.timers[j]) && r.timers[j].serial == s.adds
  {
    var a := AddTimer(s, delay, period, cb);
    StepKeepsSound(s, Do(Add(delay, period, cb)), MAX_DELAY);
    RunKeepsSound(a, es, MAX_DELAY);
    HandleNamesItsTimer(s, delay, period, cb, RunEvents(a, es), MAX_DELAY);
  }

  /** What is left of a sweep after some point of a callback: the rest of its calls, the rounds to come, the unwinding. */
  function RestOfSweep(s: State, ops: seq<Op>, now: int, script: Script, k: nat): State {
    var called := RunOps(s, ops).end;
    if called.firing then Unwind(IdealSched.Sweep(called, now, script, k).end) else called
  }

  lemma {:induction false} RestOfSweepKeeps(s: State, ops: seq<Op>, now: int, script: Script, k: nat, ahead: int)
    requires s.firing && Sound(s, ahead) && ahead >= MAX_DELAY && now <= s.clock
    ensures var r := RestOfSweep(s, ops, now, script, k); Sound(r, ahead) && Idle(r) && Aged(s, r)
  {
    hide RunOps, IdealSched.Sweep;
    OpsKeepSound(s, ops, ahead);
    OpsEffect(s, ops);
    SweepKeepsSound(RunOps(s, ops).end, now, script, k, ahead);
  }

  /** A handle issued inside a callback names its timer as well: through the rest of the callback, of the sweep, and any
      run of events after it. */
  lemma {:induction false} CallbackHandleFindsItsTimer(s: State, delay: u32, period: u32, cb: nat, ops: seq<Op>, now: int, script: Script, k: nat,
                                                       es: seq<Event>)
    requires s.firing && Sound(s, MAX_DELAY) && AddFits(s, delay, period) && now <= s.clock
    requires RunEvents(RestOfSweep(AddTimer(s, delay, period, cb), ops, now, script, k), es).adds - s.adds <= GENERATIONS
    ensures var r := RunEvents(RestOfSweep(AddTimer(s, delay, period, cb), ops, now, script, k), es);
      Resolves(r, HandleOf(s.adds, FirstFree(s.timers)))
      <==> exists j :: 0 <= j < |r.timers| && Live(r.timers[j]) && r.timers[j].serial == s.adds
  {
    hide RestOfSweep, RunEvents, Sound, Resolves;
    var a := AddTimer(s, delay, period, cb);
    OpKeepsSound(s, Add(delay, period, cb), MAX_DELAY);
    RestOfSweepKeeps(a, ops, now, script, k, MAX_DELAY);
    RunKeepsSound(RestOfSweep(a, ops, now, script, k), es, MAX_DELAY);
    HandleNamesItsTimer(s, delay, period, cb, RunEvents(RestOfSweep(a, ops, now, script, k), es), MAX_DELAY);
  }

  // ------------------------------------------------------------------- insertion order

  /** Equal deadlines ran in the order their timers were added. */
  predicate ByInsertion(s: State, fired: seq<nat>)
    requires forall a :: 0 <= a < |fired| ==> fired[a] < |s.timers|
  {
    forall a, b :: 0 <= a < b < |fired| && s.timers[fired[a]].due == s.timers[fired[b]].due ==>
      s.timers[fired[a]].serial < s.timers[fired[b]].serial
  }

  predicate DueNow(s: State, i: nat)
    requires i < |s.timers|
  {
    Live(s.timers[i]) && s.timers[i].due <= s.clock
  }

  /** Among the due timers with one deadline, the lower slot holds the older timer. */
  predicate SlotsByAge(s: State) {
    forall i, j :: 0 <= i < j < |s.timers| && DueNow(s, i) && DueNow(s, j) && s.timers[i].due == s.timers[j].due ==>
      s.timers[i].serial < s.timers[j].serial
  }

  /** What a sweep from an idle state runs, read off that state. */
  lemma {:induction false} FiredAreDue(s: State, script: Script)
    requires Idle(s)
    ensures var fired := Fired(Fire(s, script).log);
      InOrder(s, fired) && forall a :: 0 <= a < |fired| ==> DueNow(s, fired[a])
  {
    hide IdealSched.Sweep, Fired;
    var e := s.(firing := true);
    SweepRunsWhatWasDue(e, s.clock, script, 0);
    var fired := Fired(Fire(s, script).log);
    assert forall i, j :: 0 <= i < |s.timers| && 0 <= j < |s.timers| ==> Before(e, i, j) == Before(s, i, j);
    forall a | 0 <= a < |fired| ensures DueNow(s, fired[a]) {
      FiredMembers(Fire(s, script).log, fired[a]);
      assert Eligible(e.timers[fired[a]], s.clock);
    }
  }

  function Silent(): Script {
    (k: nat) => []
  }

  lemma {:induction false} SilentStops(s: State, now: int, k: nat)
    requires s.firing
    ensures forall n :: n in IdealSched.Sweep(s, now, Silent(), k).log ==> n.Ran?
    decreases Pending(s)
  {
    var p := Pick(s, now);
    if p >= 0 {
      SweepShrinks(s, p, now, []);
      assert RunOps(Retire(s, p, now), []) == Outcome(Retire(s, p, now), []);
      SilentStops(Retire(s, p, now), now, k + 1);
    }
  }

  /** Callbacks that do nothing let every due timer run. */
  lemma {:induction false} SilentRunsAll(s: State, i: nat)
    requires Idle(s) && i < |s.timers| && DueNow(s, i)
    ensures i in Fired(Fire(s, Silent()).log)
  {
    hide IdealSched.Sweep, Fired;
    var e := s.(firing := true);
    SweepRunsWhatWasDue(e, s.clock, Silent(), 0);
    SilentStops(e, s.clock, 0);
    assert Eligible(e.timers[i], s.clock);
    FiredMembers(Fire(s, Silent()).log, i);
  }

  /** Equal deadlines run in insertion order, whatever the callbacks do, exactly when the due
      slots are filled in the order of age. */
  lemma {:induction false} InsertionOrderIff(s: State)
    requires Idle(s)
    ensures (forall script: Script :: FiresByInsertion(s, script)) <==> SlotsByAge(s)
  {
    hide Fire;
    if SlotsByAge(s) {
      forall script: Script ensures FiresByInsertion(s, script) {
        FiredAreDue(s, script);
        var fired := Fired(Fire(s, script).log);
        forall a, b | 0 <= a < b < |fired| && s.timers[fired[a]].due == s.timers[fired[b]].due
          ensures s.timers[fired[a]].serial < s.timers[fired[b]].serial
        {
          assert Before(s, fired[a], fired[b]);
        }
      }
    }
    if forall script: Script :: FiresByInsertion(s, script) {
      assert FiresByInsertion(s, Silent());
      FiredAreDue(s, Silent());
      var fired := Fired(Fire(s, Silent()).log);
      forall i, j | 0 <= i < j < |s.timers| && DueNow(s, i) && DueNow(s, j) && s.timers[i].due == s.timers[j].due
        ensures s.timers[i].serial < s.timers[j].serial
      {
        SilentRunsAll(s, i);
        SilentRunsAll(s, j);
        var a :| 0 <= a < |fired| && fired[a] == i;
        var b :| 0 <= b < |fired| && fired[b] == j;
      }
    }
  }

  ghost predicate FiresByInsertion(s: State, script: Script) {
    var fired := Fired(Fire(s, script).log);
    InOrder(s, fired) && ByInsertion(s, fired)
  }

  /** Two one-shots due at the same moment; the one added last sits in the reused slot 0. */
  function Reused(): State {
    State([Timer(3, 5, 0, 2, true, false, false, false), Timer(2, 5, 0, 1, true, false, false, false)],
          3, false, 5)
  }

  lemma {:induction false} ReusedIsReachable()
    ensures var blank := Timer(0, 0, 0, -1, false, false, false, false);
      var two := AddTimer(AddTimer(State([blank, blank], 0, false, 0), 5, 0, 1), 5, 0, 2);
      RunOp(AddTimer(CancelTimer(two, HandleOf(0, 0)), 5, 0, 3), Elapse(5)) == Reused()
  {
    var blank := Timer(0, 0, 0, -1, false, false, false, false);
    var first := Timer(1, 5, 0, 0, true, false, false, false);
    var second := Timer(2, 5, 0, 1, true, false, false, false);
    var one := AddTimer(State([blank, blank], 0, false, 0), 5, 0, 1);
    assert one.timers == [first, blank];
    var two := AddTimer(one, 5, 0, 2);
    assert FirstFree([first, blank][1..]) == 0;
    assert two.timers == [first, second];
    var three := CancelTimer(two, HandleOf(0, 0));
    assert three.timers == [first.(cancelled := true, used := false), second];
  }

  /** The failing input: a reused slot, so the timer added last runs first. */
  lemma {:induction false} SlotOrderIsNotInsertionOrder(script: Script)
    ensures Idle(Reused()) && !SlotsByAge(Reused())
    ensures Reused().timers[0].serial > Reused().timers[1].serial
    ensures var log := Fire(Reused(), script).log; |log| > 0 && log[0] == Ran(0)
  {
    var e := Reused().(firing := true);
    assert DueNow(Reused(), 0) && DueNow(Reused(), 1);
    assert PickAmong(e.timers, 5, 1) == 0;
    assert Pick(e, 5) == 0;
  }
}
