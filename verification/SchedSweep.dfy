/** What one sweep of the ideal scheduler runs, in which order, whatever the callbacks do. */
module SchedSweep {
  import opened ModClock
  import opened IdealSched

  /** The sweep order: by deadline, then by slot. */
  predicate Before(s: State, i: nat, j: nat)
    requires i < |s.timers| && j < |s.timers|
  {
    s.timers[i].due < s.timers[j].due || (s.timers[i].due == s.timers[j].due && i < j)
  }

  /** The slots run, in the order they ran. */
  function Fired(log: seq<Note>): seq<nat> {
    if log == [] then [] else
      (if log[0].Ran? then [log[0].slot] else []) + Fired(log[1..])
  }

  /** A slot stopped by a callback is not run afterwards. */
  predicate Obeyed(log: seq<Note>) {
    log == [] || (Obeyed(log[1..]) && (log[0].Stopped? ==> Ran(log[0].slot) !in log[1..]))
  }

  /** `fired` lists slots of `s` in strict sweep order, so each at most once. */
  predicate InOrder(s: State, fired: seq<nat>) {
    && (forall a :: 0 <= a < |fired| ==> fired[a] < |s.timers|)
    && (forall a, b :: 0 <= a < b < |fired| ==> Before(s, fired[a], fired[b]))
  }

  lemma {:induction false} PickIsLeast(s: State, now: int, n: nat)
    requires n <= |s.timers|
    ensures var p := PickAmong(s.timers, now, n);
      forall j: nat :: j < n && Eligible(s.timers[j], now) ==> p >= 0 && (p == j || Before(s, p, j))
    decreases n
  {
    if n > 0 { PickIsLeast(s, now, n - 1); }
  }

  lemma {:induction false} FiredAppend(a: seq<Note>, b: seq<Note>)
    ensures Fired(a + b) == Fired(a) + Fired(b)
    decreases |a|
  {
    if a == [] {
      assert a + b == b;
    } else {
      FiredAppend(a[1..], b);
      assert (a + b)[1..] == a[1..] + b;
    }
  }

  lemma {:induction false} FiredMembers(log: seq<Note>, i: nat)
    ensures i in Fired(log) <==> Ran(i) in log
    decreases |log|
  {
    if log != [] { FiredMembers(log[1..], i); }
  }

  lemma {:induction false} StopsThenRuns(stops: seq<Note>, runs: seq<Note>)
    requires forall n :: n in stops ==> n.Stopped? && Ran(n.slot) !in runs
    requires Obeyed(runs)
    ensures Obeyed(stops + runs) && Fired(stops) == []
    decreases |stops|
  {
    if stops == [] {
      assert stops + runs == runs;
    } else {
      StopsThenRuns(stops[1..], runs);
      assert (stops + runs)[1..] == stops[1..] + runs;
    }
  }

  /** Everything a sweep promises about the timers it found, for any callbacks. */
  ghost predicate SweepPromise(s: State, now: int, log: seq<Note>) {
    && InOrder(s, Fired(log))
    && (forall i: nat :: Ran(i) in log ==> i < |s.timers| && Eligible(s.timers[i], now))
    && (forall i: nat :: i < |s.timers| && Eligible(s.timers[i], now) ==> Ran(i) in log || Stopped(i) in log)
    && Obeyed(log)
  }

  /** One round of the sweep: `p` ran in `s`, its callback stopped `stops` and left `e`. */
  ghost predicate Round(s: State, p: nat, now: int, stops: seq<Note>, e: State) {
    && p < |s.timers| == |e.timers| && Eligible(s.timers[p], now)
    && (forall n :: n in stops ==> n.Stopped?)
    && (forall i: nat :: i < |s.timers| && Eligible(e.timers[i], now) ==>
          && Eligible(s.timers[i], now) && Before(s, p, i)
          && s.timers[i].due == e.timers[i].due && Stopped(i) !in stops)
    && (forall i: nat :: i < |s.timers| && i != p && Eligible(s.timers[i], now) ==>
          Eligible(e.timers[i], now) || Stopped(i) in stops)
  }

  lemma {:induction false} RoundHolds(s: State, now: int, ops: seq<Op>)
    requires s.firing && Pick(s, now) >= 0
    ensures var called := RunOps(Retire(s, Pick(s, now), now), ops);
      Round(s, Pick(s, now), now, called.log, called.end)
  {
    var p := Pick(s, now);
    var r := Retire(s, p, now);
    OpsEffect(r, ops);
    PickIsLeast(s, now, |s.timers|);
    var e := RunOps(r, ops).end;
    forall i: nat | i < |s.timers| && Eligible(e.timers[i], now)
      ensures Eligible(s.timers[i], now) && i != p
      ensures s.timers[i].due == e.timers[i].due && Stopped(i) !in RunOps(r, ops).log
    {
      assert r.timers[i].used;
    }
    forall i: nat | i < |s.timers| && i != p && Eligible(s.timers[i], now)
      ensures Eligible(e.timers[i], now) || Stopped(i) in RunOps(r, ops).log
    {
      assert r.timers[i].used;
    }
  }

  /** The picked timer precedes everything the rest of the sweep runs. */
  lemma {:induction false} RoundKeepsOrder(s: State, p: nat, now: int, stops: seq<Note>, e: State, later: seq<nat>)
    requires Round(s, p, now, stops, e) && InOrder(e, later)
    requires forall a :: 0 <= a < |later| ==> Eligible(e.timers[later[a]], now)
    ensures InOrder(s, [p] + later)
  {
    var all := [p] + later;
    forall a, b | 0 <= a < b < |all|
      ensures Before(s, all[a], all[b])
    {
      assert all[b] == later[b - 1];
      if a > 0 {
        assert all[a] == later[a - 1] && Before(e, later[a - 1], later[b - 1]);
      }
    }
  }

  lemma {:induction false} RoundFires(p: nat, stops: seq<Note>, rest: seq<Note>)
    requires forall n :: n in stops ==> n.Stopped?
    ensures Fired([Ran(p)] + (stops + rest)) == [p] + Fired(rest)
  {
    assert ([Ran(p)] + (stops + rest))[1..] == stops + rest;
    FiredAppend(stops, rest);
    StopsThenRuns(stops, []);
  }

  lemma {:induction false} RoundLog(p: nat, stops: seq<Note>, rest: seq<Note>)
    requires forall n :: n in stops ==> n.Stopped? && Ran(n.slot) !in rest
    requires Obeyed(rest)
    ensures var log := [Ran(p)] + (stops + rest);
      && Obeyed(log) && Fired(log) == [p] + Fired(rest)
      && forall n :: n in log <==> n == Ran(p) || n in stops || n in rest
  {
    var tail := stops + rest;
    var log := [Ran(p)] + tail;
    assert log[0] == Ran(p) && log[1..] == tail;
    StopsThenRuns(stops, rest);
    RoundFires(p, stops, rest);
  }

  lemma {:induction false} RoundKeepsPromise(s: State, p: nat, now: int, stops: seq<Note>, e: State, rest: seq<Note>)
    requires Round(s, p, now, stops, e) && SweepPromise(e, now, rest)
    ensures SweepPromise(s, now, [Ran(p)] + (stops + rest))
  {
    RoundLog(p, stops, rest);
    forall a | 0 <= a < |Fired(rest)|
      ensures Eligible(e.timers[Fired(rest)[a]], now)
    {
      FiredMembers(rest, Fired(rest)[a]);
    }
    RoundKeepsOrder(s, p, now, stops, e, Fired(rest));
  }

  /** For any callbacks, one sweep runs exactly the timers due when it started, each once, in
      the order (deadline, slot), leaving out just those a callback stopped before their turn. */
  lemma {:induction false} SweepRunsWhatWasDue(s: State, now: int, script: Script, k: nat)
    requires s.firing
    ensures SweepPromise(s, now, Sweep(s, now, script, k).log)
    decreases Pending(s)
  {
    var p := Pick(s, now);
    if p < 0 {
      PickIsLeast(s, now, |s.timers|);
    } else {
      SweepShrinks(s, p, now, script(k));
      var called := RunOps(Retire(s, p, now), script(k));
      SweepRunsWhatWasDue(called.end, now, script, k + 1);
      RoundHolds(s, now, script(k));
      var rest := Sweep(called.end, now, script, k + 1).log;
      assert [Ran(p)] + (called.log + rest) == [Ran(p)] + called.log + rest;
      RoundKeepsPromise(s, p, now, called.log, called.end, rest);
    }
  }
}
