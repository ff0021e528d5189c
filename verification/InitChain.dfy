/** The init-write chain of a GATT session: one write at a time, driven by completions, writes that
    never complete, failures, stray completions and a watchdog. */
module InitChain {
  import opened Esp
  import opened BleUuid

  const WAIT_US: nat := 3_000_000

  /** What issuing a write answers: a completion will come, none will come, or it failed. */
  datatype Result = Sent | NoCompletion | Failed

  /** A session: the UUIDs its init writes go to, how far the chain is, and what it did so far. */
  datatype State = State(writes: seq<string>, index: nat, deadline: nat, issued: seq<nat>, connected: nat)

  type Results = nat -> Result

  /** Issue writes until one is waited for; past the last one report the session connected. */
  function RunWrites(s: State, results: Results, now: nat): State
    decreases |s.writes| - s.index
  {
    if s.index >= |s.writes| then s.(connected := s.connected + 1)
    else
      var t := s.(issued := s.issued + [s.index], deadline := now + WAIT_US);
      if results(s.index) == Sent then t else RunWrites(t.(index := t.index + 1), results, now)
  }

  datatype Event =
    | Connected(granted: bool, results: Results, now: nat)
    | WriteDone(granted: bool, uuid: Option<string>, results: Results, now: nat)
    | Watchdog(granted: bool, sampled: nat, results: Results, now: nat)

  /** A completion counts unless both UUIDs parse and differ. */
  predicate Matches(s: State, uuid: Option<string>)
    requires s.index < |s.writes|
  {
    uuid.None? ||
    var got, want := Parse(uuid.value), Parse(s.writes[s.index]);
    !(got.Parsed? && want.Parsed? && got.uuid != want.uuid)
  }

  predicate TimedOut(s: State, sampled: nat) {
    s.index < |s.writes| && s.deadline != 0 && sampled > s.deadline
  }

  function Step(s: State, e: Event): State {
    match e
    case Connected(granted, results, now) => if granted then RunWrites(s, results, now) else s
    case WriteDone(granted, uuid, results, now) =>
      if granted && s.index < |s.writes| && Matches(s, uuid)
      then RunWrites(s.(index := s.index + 1), results, now) else s
    case Watchdog(granted, sampled, results, now) =>
      if granted && TimedOut(s, sampled)
      then RunWrites(s.(index := s.index + 1), results, now) else s
  }

  function Run(s: State, es: seq<Event>): State
    decreases |es|
  {
    if es == [] then s else Run(Step(s, es[0]), es[1..])
  }

  function Boot(writes: seq<string>): State {
    State(writes, 0, 0, [], 0)
  }

  function UpTo(n: nat): (r: seq<nat>)
    ensures |r| == n && forall i :: 0 <= i < n ==> r[i] == i
  {
    seq(n, i => i)
  }

  // ------------------------------------------------------------ the chain in full order

  /** About to issue write `index`, with exactly the earlier ones issued. */
  ghost predicate Ready(s: State) {
    s.index <= |s.writes| && s.issued == UpTo(s.index) && s.connected == 0
  }

  /** Waiting for write `index` with 0..index issued, or done with all of them and reported once. */
  ghost predicate InChain(s: State) {
    if s.index < |s.writes|
    then s.issued == UpTo(s.index + 1) && s.connected == 0 && s.deadline > 0
    else s.index == |s.writes| && s.issued == UpTo(|s.writes|) && s.connected == 1
  }

  lemma {:induction false} RunWritesInChain(s: State, results: Results, now: nat)
    requires Ready(s)
    ensures InChain(RunWrites(s, results, now)) && RunWrites(s, results, now).writes == s.writes
    ensures RunWrites(s, results, now).index >= s.index
    decreases |s.writes| - s.index
  {
    if s.index < |s.writes| {
      assert s.issued + [s.index] == UpTo(s.index + 1);
      if results(s.index) != Sent {
        var t := s.(issued := s.issued + [s.index], deadline := now + WAIT_US, index := s.index + 1);
        RunWritesInChain(t, results, now);
      }
    }
  }

  lemma {:induction false} StepInChain(s: State, e: Event)
    requires InChain(s) && !e.Connected?
    ensures InChain(Step(s, e)) && Step(s, e).writes == s.writes && Step(s, e).index >= s.index
  {
    if s.index < |s.writes| {
      var next := s.(index := s.index + 1);
      assert Ready(next);
      match e
      case WriteDone(_, _, results, now) => RunWritesInChain(next, results, now);
      case Watchdog(_, _, results, now) => RunWritesInChain(next, results, now);
    }
  }

  lemma {:induction false} RestInChain(s: State, es: seq<Event>)
    requires InChain(s) && forall i :: 0 <= i < |es| ==> !es[i].Connected?
    ensures InChain(Run(s, es)) && Run(s, es).index >= s.index && Run(s, es).writes == s.writes
    decreases |es|
  {
    if es != [] {
      StepInChain(s, es[0]);
      RestInChain(Step(s, es[0]), es[1..]);
    }
  }

  // ---------------------------------------------------------------------- starting

  /** The events that start an untouched chain: a connected event that gets the session lock, or
      a completion that counts for write 0 although nothing was written yet. */
  predicate Starts(writes: seq<string>, e: Event) {
    match e
    case Connected(granted, _, _) => granted
    case WriteDone(granted, uuid, _, _) => granted && writes != [] && Matches(Boot(writes), uuid)
    case Watchdog(_, _, _, _) => false
  }

  predicate Quiet(writes: seq<string>, es: seq<Event>) {
    forall i :: 0 <= i < |es| ==> !Starts(writes, es[i])
  }

  lemma {:induction false} QuietStays(writes: seq<string>, es: seq<Event>)
    requires Quiet(writes, es)
    ensures Run(Boot(writes), es) == Boot(writes)
    decreases |es|
  {
    if es != [] {
      assert !Starts(writes, es[0]);
      QuietStays(writes, es[1..]);
    }
  }

  lemma {:induction false} RunJoin(s: State, a: seq<Event>, b: seq<Event>)
    ensures Run(s, a + b) == Run(Run(s, a), b)
    decreases |a|
  {
    hide Step;
    if a == [] { assert a + b == b; }
    else {
      RunJoin(Step(s, a[0]), a[1..], b);
      assert (a + b)[1..] == a[1..] + b;
    }
  }

  /** Event `k` is the first to start the chain. */
  predicate FirstStart(writes: seq<string>, es: seq<Event>, k: nat) {
    k < |es| && Starts(writes, es[k]) && Quiet(writes, es[..k])
  }

  lemma {:induction false} RunFromStart(writes: seq<string>, es: seq<Event>, k: nat)
    requires FirstStart(writes, es, k)
    ensures Run(Boot(writes), es) == Run(Step(Boot(writes), es[k]), es[k + 1..])
    ensures Run(Boot(writes), es[..k + 1]) == Step(Boot(writes), es[k])
  {
    hide Step, Starts;
    QuietStays(writes, es[..k]);
    RunJoin(Boot(writes), es[..k], es[k..]);
    assert es == es[..k] + es[k..] && es[k..][1..] == es[k + 1..];
    RunJoin(Boot(writes), es[..k], [es[k]]);
    assert es[..k + 1] == es[..k] + [es[k]] && [es[k]][1..] == [];
    assert Run(Boot(writes), [es[k]]) == Run(Step(Boot(writes), es[k]), []);
  }

  lemma {:induction false} FirstStartExists(writes: seq<string>, es: seq<Event>) returns (k: nat)
    requires !Quiet(writes, es)
    ensures FirstStart(writes, es, k)
    decreases |es|
  {
    var n := |es| - 1;
    if Quiet(writes, es[..n]) {
      k := n;
    } else {
      k := FirstStartExists(writes, es[..n]);
      assert es[..n][..k] == es[..k];
    }
  }

  /** A session whose connected event finds the lock busy is pinned: no number of watchdog passes,
      late as they may be, writes anything or ever reports it connected. */
  lemma {:induction false} LostLockPinsSession(writes: seq<string>, results: Results, now: nat, es: seq<Event>)
    requires forall i :: 0 <= i < |es| ==> es[i].Watchdog?
    ensures Run(Boot(writes), [Connected(false, results, now)] + es) == Boot(writes)
  {
    var all := [Connected(false, results, now)] + es;
    assert forall i :: 0 <= i < |all| ==> !Starts(writes, all[i]);
    QuietStays(writes, all);
  }

  // ---------------------------------------------------------------------------- progress

  /** A chain under way: it waits for write `index` with a deadline set, or it has reported. */
  ghost predicate Going(s: State) {
    if s.index < |s.writes| then s.deadline > 0 && s.connected == 0 else s.connected > 0
  }

  lemma {:induction false} RunWritesGoing(s: State, results: Results, now: nat)
    requires s.connected == 0 || s.index >= |s.writes|
    ensures Going(RunWrites(s, results, now)) && RunWrites(s, results, now).writes == s.writes
    ensures RunWrites(s, results, now).index >= s.index
    decreases |s.writes| - s.index
  {
    if s.index < |s.writes| && results(s.index) != Sent {
      RunWritesGoing(s.(issued := s.issued + [s.index], deadline := now + WAIT_US, index := s.index + 1), results, now);
    }
  }

  /** A watchdog pass that got the lock after the current write's deadline. */
  predicate Late(s: State, e: Event) {
    e.Watchdog? && e.granted && (s.index < |s.writes| ==> e.sampled > s.deadline)
  }

  /** Every event keeps a chain under way, and a late watchdog pass moves it on. */
  lemma {:induction false} StepGoing(s: State, e: Event)
    requires Going(s)
    ensures Going(Step(s, e)) && Step(s, e).writes == s.writes && Step(s, e).index >= s.index
    ensures Late(s, e) && s.index < |s.writes| ==> Step(s, e).index > s.index
  {
    match e
    case Connected(_, results, now) => RunWritesGoing(s, results, now);
    case WriteDone(_, _, results, now) => RunWritesGoing(s.(index := s.index + 1), results, now);
    case Watchdog(_, _, results, now) => RunWritesGoing(s.(index := s.index + 1), results, now);
  }

  function LatePasses(s: State, es: seq<Event>): nat
    decreases |es|
  {
    if es == [] then 0 else (if Late(s, es[0]) then 1 else 0) + LatePasses(Step(s, es[0]), es[1..])
  }

  lemma {:induction false} RunGoing(s: State, es: seq<Event>)
    requires Going(s)
    ensures Going(Run(s, es)) && Run(s, es).writes == s.writes && Run(s, es).index >= s.index
    ensures Run(s, es).index >= |s.writes| || Run(s, es).index >= s.index + LatePasses(s, es)
    decreases |es|
  {
    hide Step, Going;
    if es != [] {
      StepGoing(s, es[0]);
      RunGoing(Step(s, es[0]), es[1..]);
    }
  }

  lemma {:induction false} StartIsGoing(writes: seq<string>, e: Event)
    requires Starts(writes, e)
    ensures Going(Step(Boot(writes), e)) && Step(Boot(writes), e).writes == writes
  {
    match e
    case Connected(_, results, now) => RunWritesGoing(Boot(writes), results, now);
    case WriteDone(_, _, results, now) => RunWritesGoing(Boot(writes).(index := 1), results, now);
  }

  /** Once the chain is started, as many late watchdog passes as there are writes come in. */
  ghost predicate Watched(writes: seq<string>, es: seq<Event>) {
    forall k: nat :: FirstStart(writes, es, k) ==> LatePasses(Run(Boot(writes), es[..k + 1]), es[k + 1..]) >= |writes|
  }

  /** With the watchdog at work, whatever completes, fails, is lost or goes astray: the session is
      reported connected exactly when its connected event got the lock or a completion started
      the chain in its place. */
  lemma {:induction false} FinishesIff(writes: seq<string>, es: seq<Event>)
    requires Watched(writes, es)
    ensures Run(Boot(writes), es).connected > 0 <==> exists k :: 0 <= k < |es| && Starts(writes, es[k])
  {
    hide Step, Starts;
    if Quiet(writes, es) {
      QuietStays(writes, es);
    } else {
      var k := FirstStartExists(writes, es);
      RunFromStart(writes, es, k);
      StartIsGoing(writes, es[k]);
      RunGoing(Step(Boot(writes), es[k]), es[k + 1..]);
    }
  }

  // ------------------------------------------------------------------- order and repeats

  predicate OneConnected(es: seq<Event>) {
    forall i, j :: 0 <= i < j < |es| ==> !(es[i].Connected? && es[j].Connected?)
  }

  /** The chain, once finished, sent every write once and in list order. */
  ghost predicate InFull(s: State) {
    s.issued == UpTo(|s.writes|) && s.connected == 1
  }

  lemma {:induction false} SkippedWriteStaysOut(s: State, es: seq<Event>)
    requires s.index > 0 && 0 !in s.issued
    ensures 0 !in Run(s, es).issued
    decreases |es|
  {
    if es != [] {
      StepSkips(s, es[0]);
      SkippedWriteStaysOut(Step(s, es[0]), es[1..]);
    }
  }

  lemma {:induction false} StepSkips(s: State, e: Event)
    requires s.index > 0 && 0 !in s.issued
    ensures Step(s, e).index > 0 && 0 !in Step(s, e).issued
  {
    match e
    case Connected(_, results, now) => RunWritesSkips(s, results, now);
    case WriteDone(_, _, results, now) => RunWritesSkips(s.(index := s.index + 1), results, now);
    case Watchdog(_, _, results, now) => RunWritesSkips(s.(index := s.index + 1), results, now);
  }

  lemma {:induction false} RunWritesSkips(s: State, results: Results, now: nat)
    requires s.index > 0 && 0 !in s.issued
    ensures RunWrites(s, results, now).index > 0 && 0 !in RunWrites(s, results, now).issued
    decreases |s.writes| - s.index
  {
    if s.index < |s.writes| && results(s.index) != Sent {
      RunWritesSkips(s.(issued := s.issued + [s.index], deadline := now + WAIT_US, index := s.index + 1), results, now);
    }
  }

  /** A chain started by a completion never sends its first write, whatever happens later. */
  lemma {:induction false} CompletionStartSkipsFirst(writes: seq<string>, es: seq<Event>, k: nat)
    requires FirstStart(writes, es, k) && es[k].WriteDone?
    ensures 0 !in Run(Boot(writes), es).issued
  {
    RunFromStart(writes, es, k);
    RunWritesSkips(Boot(writes).(index := 1), es[k].results, es[k].now);
    SkippedWriteStaysOut(Step(Boot(writes), es[k]), es[k + 1..]);
  }

  /** How that comes about: the connected event lost the lock, and then a write of the server's own
      to the characteristic of write 0 completed. */
  lemma {:induction false} ServerWriteStartsChain(writes: seq<string>, uuid: string, lost: Results, results: Results, now: nat, later: nat)
    requires writes != [] && Matches(Boot(writes), Some(uuid))
    ensures var es := [Connected(false, lost, now), WriteDone(true, Some(uuid), results, later)];
      FirstStart(writes, es, 1) && Started(Run(Boot(writes), es)) && 0 !in Run(Boot(writes), es).issued
  {
    var es := [Connected(false, lost, now), WriteDone(true, Some(uuid), results, later)];
    assert es[..1] == [es[0]];
    assert FirstStart(writes, es, 1);
    CompletionStartSkipsFirst(writes, es, 1);
    StartedIff(writes, es);
  }

  /** A chain started by its one connected event is in order at every moment of the run. */
  lemma {:induction false} ChainInOrder(writes: seq<string>, es: seq<Event>, k: nat)
    requires OneConnected(es) && FirstStart(writes, es, k) && es[k].Connected?
    ensures InChain(Run(Boot(writes), es))
  {
    RunFromStart(writes, es, k);
    RunWritesInChain(Boot(writes), es[k].results, es[k].now);
    RestInChain(Step(Boot(writes), es[k]), es[k + 1..]);
  }

  /** With at most one connected event and the watchdog at work, the session ends with all writes
      sent once, in list order, and connected reported once after them, exactly when the
      connected event got the lock before any completion started the chain. */
  lemma {:induction false} InFullIff(writes: seq<string>, es: seq<Event>)
    requires OneConnected(es) && Watched(writes, es)
    ensures InFull(Run(Boot(writes), es)) <==> exists k: nat :: FirstStart(writes, es, k) && es[k].Connected?
  {
    hide Step, Run, Matches;
    if Quiet(writes, es) {
      QuietStays(writes, es);
    } else {
      var k := FirstStartExists(writes, es);
      if es[k].Connected? {
        ChainInOrder(writes, es, k);
        FinishesIff(writes, es);
        RunFromStart(writes, es, k);
        StartIsGoing(writes, es[k]);
        RunGoing(Step(Boot(writes), es[k]), es[k + 1..]);
      } else {
        CompletionStartSkipsFirst(writes, es, k);
        WritesStay(writes, es, k);
        assert UpTo(|writes|)[0] == 0;
      }
    }
  }

  lemma {:induction false} WritesStay(writes: seq<string>, es: seq<Event>, k: nat)
    requires FirstStart(writes, es, k) && !es[k].Connected?
    ensures Run(Boot(writes), es).writes == writes && writes != []
    ensures forall j: nat :: FirstStart(writes, es, j) ==> j == k
  {
    hide Matches;
    RunFromStart(writes, es, k);
    StartIsGoing(writes, es[k]);
    RunGoing(Step(Boot(writes), es[k]), es[k + 1..]);
  }

  predicate Started(s: State) {
    s.issued != [] || s.connected > 0
  }

  /** Each write issued at most once and in list order; connected reported at most once, at the end. */
  ghost predicate AtMostOnce(s: State) {
    && s.index <= |s.writes|
    && (forall i, j :: 0 <= i < j < |s.issued| ==> s.issued[i] < s.issued[j])
    && (forall i :: 0 <= i < |s.issued| ==> s.issued[i] < |s.writes|)
    && s.connected <= 1
    && (!Started(s) ==> s.index == 0)
    && (Started(s) ==> if s.index < |s.writes|
                       then s.connected == 0 && s.issued != [] && s.issued[|s.issued| - 1] == s.index
                       else s.connected == 1)
  }

  lemma {:induction false} RunWritesAtMostOnce(s: State, results: Results, now: nat)
    requires s.index <= |s.writes| && s.connected == 0
    requires forall i, j :: 0 <= i < j < |s.issued| ==> s.issued[i] < s.issued[j]
    requires forall i :: 0 <= i < |s.issued| ==> s.issued[i] < s.index
    ensures AtMostOnce(RunWrites(s, results, now)) && Started(RunWrites(s, results, now))
    decreases |s.writes| - s.index
  {
    if s.index < |s.writes| {
      var t := s.(issued := s.issued + [s.index], deadline := now + WAIT_US);
      if results(s.index) != Sent {
        RunWritesAtMostOnce(t.(index := t.index + 1), results, now);
      }
    }
  }

  lemma {:induction false} OthersKeepAtMostOnce(s: State, e: Event)
    requires AtMostOnce(s) && !(e.Connected? && e.granted)
    ensures AtMostOnce(Step(s, e))
  {
    if s.index < |s.writes| {
      var next := s.(index := s.index + 1);
      match e
      case WriteDone(_, _, results, now) => RunWritesAtMostOnce(next, results, now);
      case Watchdog(_, _, results, now) => RunWritesAtMostOnce(next, results, now);
      case Connected(_, _, _) =>
    }
  }

  lemma {:induction false} RestKeepsAtMostOnce(s: State, es: seq<Event>)
    requires AtMostOnce(s) && forall i :: 0 <= i < |es| ==> !(es[i].Connected? && es[i].granted)
    ensures AtMostOnce(Run(s, es))
    decreases |es|
  {
    hide Step, AtMostOnce;
    if es != [] {
      OthersKeepAtMostOnce(s, es[0]);
      RestKeepsAtMostOnce(Step(s, es[0]), es[1..]);
    }
  }

  /** A connected event is harmless exactly when the chain has not been started by a completion
      that came before it; otherwise a write goes out twice, or connected is reported twice. */
  lemma {:induction false} ConnectedSafeIffNotStarted(s: State, results: Results, now: nat)
    requires AtMostOnce(s)
    ensures AtMostOnce(Step(s, Connected(true, results, now))) <==> !Started(s)
    ensures Started(s) ==> Repeated(Step(s, Connected(true, results, now)))
  {
    if !Started(s) {
      RunWritesAtMostOnce(s, results, now);
    } else if s.index < |s.writes| {
      RunWritesExtends(s, results, now);
      var e := RunWrites(s, results, now);
      var n := |s.issued|;
      assert e.issued[n - 1] == e.issued[n];
    }
  }

  /** A write went out twice or out of order, or connected was reported twice. */
  ghost predicate Repeated(s: State) {
    s.connected > 1 || exists i, j :: 0 <= i < j < |s.issued| && s.issued[i] >= s.issued[j]
  }

  lemma {:induction false} RunWritesAdds(s: State, results: Results, now: nat)
    ensures s.issued <= RunWrites(s, results, now).issued && s.connected <= RunWrites(s, results, now).connected
    decreases |s.writes| - s.index
  {
    if s.index < |s.writes| && results(s.index) != Sent {
      RunWritesAdds(s.(issued := s.issued + [s.index], deadline := now + WAIT_US, index := s.index + 1), results, now);
    }
  }

  /** What was sent or reported stays so. */
  lemma {:induction false} RunAdds(s: State, es: seq<Event>)
    ensures s.issued <= Run(s, es).issued && s.connected <= Run(s, es).connected
    decreases |es|
  {
    if es != [] {
      match es[0] {
        case Connected(_, results, now) => RunWritesAdds(s, results, now);
        case WriteDone(_, _, results, now) => RunWritesAdds(s.(index := s.index + 1), results, now);
        case Watchdog(_, _, results, now) => RunWritesAdds(s.(index := s.index + 1), results, now);
      }
      RunAdds(Step(s, es[0]), es[1..]);
    }
  }

  lemma {:induction false} RepeatedStays(s: State, es: seq<Event>)
    requires Repeated(s)
    ensures Repeated(Run(s, es)) && !AtMostOnce(Run(s, es))
  {
    RunAdds(s, es);
    var e := Run(s, es);
    if s.connected <= 1 {
      var i, j :| 0 <= i < j < |s.issued| && s.issued[i] >= s.issued[j];
      assert e.issued[i] == s.issued[i] && e.issued[j] == s.issued[j];
    }
  }

  /** Over whole runs with one connected event that gets the lock, at position `c`: each write goes
      out at most once and in order, and connected is reported at most once, exactly when no
      completion started the chain before that event. */
  lemma {:induction false} AtMostOnceIff(writes: seq<string>, es: seq<Event>, c: nat)
    requires c < |es| && es[c].Connected? && es[c].granted
    requires forall i :: 0 <= i < |es| && i != c ==> !(es[i].Connected? && es[i].granted)
    ensures AtMostOnce(Run(Boot(writes), es)) <==> Quiet(writes, es[..c])
  {
    hide Step, AtMostOnce, Repeated, Starts;
    var before := Run(Boot(writes), es[..c]);
    BootIsClean(writes);
    RestKeepsAtMostOnce(Boot(writes), es[..c]);
    StartedIff(writes, es[..c]);
    RunJoin(Boot(writes), es[..c], es[c..]);
    assert es == es[..c] + es[c..] && es[c..][1..] == es[c + 1..];
    ConnectedSafeIffNotStarted(before, es[c].results, es[c].now);
    var after := Step(before, es[c]);
    if Started(before) { RepeatedStays(after, es[c + 1..]); } else { RestKeepsAtMostOnce(after, es[c + 1..]); }
  }

  lemma {:induction false} BootIsClean(writes: seq<string>)
    ensures AtMostOnce(Boot(writes))
  {
  }

  /** Without a granted connected event, only a completion starts the chain. */
  lemma {:induction false} StartedIff(writes: seq<string>, es: seq<Event>)
    requires forall i :: 0 <= i < |es| ==> !(es[i].Connected? && es[i].granted)
    ensures Started(Run(Boot(writes), es)) <==> !Quiet(writes, es)
  {
    if Quiet(writes, es) {
      QuietStays(writes, es);
    } else {
      var k := FirstStartExists(writes, es);
      RunFromStart(writes, es, k);
      RunWritesStarts(Boot(writes).(index := 1), es[k].results, es[k].now);
      RunAdds(Step(Boot(writes), es[k]), es[k + 1..]);
    }
  }

  lemma {:induction false} RunWritesStarts(s: State, results: Results, now: nat)
    ensures Started(RunWrites(s, results, now))
    decreases |s.writes| - s.index
  {
    if s.index < |s.writes| { RunWritesExtends(s, results, now); }
  }

  lemma {:induction false} RunWritesExtends(s: State, results: Results, now: nat)
    requires s.index < |s.writes|
    ensures s.issued + [s.index] <= RunWrites(s, results, now).issued
    decreases |s.writes| - s.index
  {
    var t := s.(issued := s.issued + [s.index], deadline := now + WAIT_US);
    if results(s.index) != Sent && s.index + 1 < |s.writes| {
      RunWritesExtends(t.(index := t.index + 1), results, now);
    }
  }

  // ------------------------------------------------------------ what moves the chain on

  /** A completion changes something exactly if the session lock is had and it is not a foreign one: a UUID other than the
      awaited write's, both readable, compared as bytes. It then moves the chain on. */
  lemma {:induction false} CompletionTaken(s: State, granted: bool, uuid: Option<string>, results: Results, now: nat)
    requires s.index < |s.writes|
    ensures var r, want := Step(s, WriteDone(granted, uuid, results, now)), Parse(s.writes[s.index]);
      if granted && (uuid.Some? && Parse(uuid.value).Parsed? && want.Parsed? ==> Parse(uuid.value).uuid == want.uuid)
      then r.index > s.index && (if s.index + 1 < |s.writes| then s.issued + [s.index + 1] <= r.issued else r.connected == s.connected + 1)
      else r == s
  {
    var next := s.(index := s.index + 1);
    RunWritesStops(next, results, now);
    if next.index < |s.writes| { RunWritesExtends(next, results, now); }
  }

  /** Running the writes stops at the first one that is waited for, with 3 s to wait. */
  lemma {:induction false} RunWritesStops(s: State, results: Results, now: nat)
    ensures var r := RunWrites(s, results, now);
      && r.index >= s.index && r.writes == s.writes && (forall j :: s.index <= j < r.index ==> results(j) != Sent)
      && (r.index < |s.writes| ==> results(r.index) == Sent && r.deadline == now + 3_000_000)
    decreases |s.writes| - s.index
  {
    if s.index < |s.writes| && results(s.index) != Sent {
      RunWritesStops(s.(issued := s.issued + [s.index], deadline := now + WAIT_US, index := s.index + 1), results, now);
    }
  }

  /** Answers for a write issued at `since`: a completion that is not foreign to it, or a watchdog pass that saw a time later
      than 3 s after. */
  predicate Answers(want: string, since: nat, e: Event) {
    match e
    case Connected(_, _, _) => false
    case WriteDone(granted, uuid, _, _) =>
      && granted
      && (uuid.Some? && Parse(uuid.value).Parsed? && Parse(want).Parsed? ==> Parse(uuid.value).uuid == Parse(want).uuid)
    case Watchdog(granted, sampled, _, _) => granted && sampled > since + 3_000_000
  }

  lemma {:induction false} StepStops(s: State, e: Event, since: nat)
    requires InChain(s) && !e.Connected? && (s.index < |s.writes| ==> s.deadline == since + 3_000_000)
    ensures var r := Step(s, e);
      && InChain(r) && r.writes == s.writes
      && (if s.index < |s.writes| && Answers(s.writes[s.index], since, e)
          then r.index > s.index && Stopped(r, s.index + 1, e) else r == s)
  {
    StepInChain(s, e);
    if s.index < |s.writes| { RunWritesStops(s.(index := s.index + 1), e.results, e.now); }
  }

  /** Writes from..index-1 were not waited for, and the one at the index is. */
  predicate Stopped(s: State, from: nat, e: Event) {
    && (forall j :: from <= j < s.index ==> e.results(j) != Sent)
    && (s.index < |s.writes| ==> e.results(s.index) == Sent && s.deadline == e.now + 3_000_000)
  }

  /** The session before event k. */
  function Before(writes: seq<string>, es: seq<Event>, k: nat): State
    requires k <= |es|
  {
    Run(Boot(writes), es[..k])
  }

  /** Write j is out; past the last one, connected is reported. */
  predicate Out(s: State, j: nat) {
    if j < |s.writes| then j in s.issued else s.connected > 0
  }

  /** Event k sends write j for the first time, or first reports connected. */
  predicate Sends(writes: seq<string>, es: seq<Event>, k: nat, j: nat) {
    k < |es| && !Out(Before(writes, es, k), j) && Out(Before(writes, es, k + 1), j)
  }

  /** The one connected event, at c, starts the chain. */
  predicate Opens(writes: seq<string>, es: seq<Event>, c: nat) {
    OneConnected(es) && FirstStart(writes, es, c) && es[c].Connected?
  }

  lemma {:induction false} BeforeStep(writes: seq<string>, es: seq<Event>, k: nat)
    requires k < |es|
    ensures Before(writes, es, k + 1) == Step(Before(writes, es, k), es[k])
  {
    hide Step;
    RunJoin(Boot(writes), es[..k], [es[k]]);
    assert es[..k + 1] == es[..k] + [es[k]] && [es[k]][1..] == [];
    assert forall s :: Run(s, [es[k]]) == Run(Step(s, es[k]), []);
  }

  lemma {:induction false} BeforeOpening(writes: seq<string>, es: seq<Event>, c: nat, k: nat)
    requires Opens(writes, es, c) && k <= c
    ensures Before(writes, es, k) == Boot(writes)
  {
    assert Quiet(writes, es[..k]) by {
      assert forall i :: 0 <= i < k ==> es[..k][i] == es[..c][i];
    }
    QuietStays(writes, es[..k]);
  }

  /** In a chain in order, what is out is what lies up to the index. */
  lemma {:induction false} OutIff(s: State, j: nat)
    requires InChain(s) && j <= |s.writes|
    ensures Out(s, j) <==> j <= s.index
  {
    if j < |s.writes| && j <= s.index { assert s.issued[j] == j; }
  }

  lemma {:induction false} KeptInChain(writes: seq<string>, es: seq<Event>, c: nat, k: nat)
    requires Opens(writes, es, c) && c < k <= |es|
    ensures InChain(Before(writes, es, k)) && Before(writes, es, k).writes == writes
  {
    var p := es[..k];
    assert p[..c] == es[..c];
    RunFromStart(writes, p, c);
    RunWritesInChain(Boot(writes), p[c].results, p[c].now);
    RestInChain(Step(Boot(writes), p[c]), p[c + 1..]);
  }

  /** The write that is waited for was sent by an earlier event, which set the deadline. */
  lemma {:induction false} WaitsFor(writes: seq<string>, es: seq<Event>, c: nat, k: nat) returns (m: nat)
    requires Opens(writes, es, c) && c < k <= |es| && Before(writes, es, k).index < |writes|
    ensures c <= m < k && Sends(writes, es, m, Before(writes, es, k).index)
    ensures es[m].results(Before(writes, es, k).index) == Sent && Before(writes, es, k).deadline == es[m].now + 3_000_000
    decreases k
  {
    hide Step, Run, Opens;
    var n := k - 1;
    var s := Before(writes, es, k);
    BeforeStep(writes, es, n);
    KeptInChain(writes, es, c, k);
    OutIff(s, s.index);
    m := n;
    if n == c {
      BeforeOpening(writes, es, c, c);
      StartStops(writes, es, c);
    } else {
      KeptInChain(writes, es, c, n);
      OnlyOpening(writes, es, c, n);
      var b := Before(writes, es, n);
      OutIff(b, s.index);
      var since := 0;
      if b.index < |writes| {
        m := WaitsFor(writes, es, c, n);
        since := es[m].now;
      }
      StepStops(b, es[n], since);
      if b.index < s.index { m := n; }
    }
  }

  lemma {:induction false} OnlyOpening(writes: seq<string>, es: seq<Event>, c: nat, k: nat)
    requires Opens(writes, es, c) && c < k < |es|
    ensures !es[k].Connected?
  {
  }

  lemma {:induction false} StartStops(writes: seq<string>, es: seq<Event>, c: nat)
    requires Opens(writes, es, c)
    ensures Stopped(Step(Boot(writes), es[c]), 0, es[c])
  {
    RunWritesStops(Boot(writes), es[c].results, es[c].now);
  }

  /** What one event sends: nothing but the writes past the index, up to and with the first it waits for. */
  lemma {:induction false} SendsIff(writes: seq<string>, es: seq<Event>, c: nat, k: nat, j: nat)
    requires Opens(writes, es, c) && k < |es| && j <= |writes|
    ensures Sends(writes, es, k, j) <==> k >= c && (k > c ==> Before(writes, es, k).index < j) && j <= Before(writes, es, k + 1).index
  {
    hide Step, Run, Opens;
    BeforeOpening(writes, es, c, if k < c then k else c);
    if k < c {
      BeforeOpening(writes, es, c, k + 1);
    } else {
      KeptInChain(writes, es, c, k + 1);
      OutIff(Before(writes, es, k + 1), j);
      if k > c {
        KeptInChain(writes, es, c, k);
        OutIff(Before(writes, es, k), j);
      }
    }
  }

  lemma {:induction false} IndexGrows(writes: seq<string>, es: seq<Event>, c: nat, a: nat, b: nat)
    requires Opens(writes, es, c) && c < a <= b <= |es|
    ensures Before(writes, es, a).index <= Before(writes, es, b).index
    decreases b
  {
    hide Step, Run, Opens;
    if a < b {
      IndexGrows(writes, es, c, a, b - 1);
      BeforeStep(writes, es, b - 1);
      KeptInChain(writes, es, c, b - 1);
      OnlyOpening(writes, es, c, b - 1);
      StepInChain(Before(writes, es, b - 1), es[b - 1]);
    }
  }

  /** No write is first sent twice, and one sent before event k lies up to the index there. */
  lemma {:induction false} SentOnce(writes: seq<string>, es: seq<Event>, c: nat, m: nat, k: nat, i: nat)
    requires Opens(writes, es, c) && m < k <= |es| && i <= |writes| && Sends(writes, es, m, i)
    ensures c < k && i <= Before(writes, es, k).index && !Sends(writes, es, k, i)
  {
    hide Step, Run, Opens;
    SendsIff(writes, es, c, m, i);
    IndexGrows(writes, es, c, m + 1, k);
    if k < |es| { SendsIff(writes, es, c, k, i); }
  }

  /** Write i was sent before event k, to be waited for, and event k answers for it. */
  ghost predicate Answered(writes: seq<string>, es: seq<Event>, k: nat, i: nat)
    requires k < |es| && i < |writes|
  {
    exists m :: 0 <= m < k && Sends(writes, es, m, i) && es[m].results(i) == Sent && Answers(writes[i], es[m].now, es[k])
  }

  /** Over whole runs started by the connected event: write i + 1 goes out, or connected is reported after the last, exactly
      on write i's account. Either the event that sent i had nothing to wait for, or it had and this event is the first to
      answer for it. */
  lemma {:induction false} NextWriteIff(writes: seq<string>, es: seq<Event>, c: nat, k: nat, i: nat)
    requires Opens(writes, es, c) && k < |es| && i < |writes|
    ensures Sends(writes, es, k, i + 1) <==>
      (Sends(writes, es, k, i) && es[k].results(i) != Sent) || (!Out(Before(writes, es, k), i + 1) && Answered(writes, es, k, i))
  {
    hide Step, Run, Opens, Answers, Sends, Out;
    SendsIff(writes, es, c, k, i);
    SendsIff(writes, es, c, k, i + 1);
    if k > c {
      NextInChain(writes, es, c, k, i);
    } else {
      forall m: nat | m < k && Sends(writes, es, m, i) ensures false { SentOnce(writes, es, c, m, k, i); }
      if k == c {
        BeforeOpening(writes, es, c, c);
        BeforeStep(writes, es, c);
        StartStops(writes, es, c);
        KeptInChain(writes, es, c, c + 1);
      }
    }
  }

  lemma {:induction false} NextInChain(writes: seq<string>, es: seq<Event>, c: nat, k: nat, i: nat)
    requires Opens(writes, es, c) && c < k < |es| && i < |writes|
    ensures Sends(writes, es, k, i + 1) <==>
      (Sends(writes, es, k, i) && es[k].results(i) != Sent) || (!Out(Before(writes, es, k), i + 1) && Answered(writes, es, k, i))
  {
    hide Step, Run, Opens, Answers, Sends, Out;
    SendsIff(writes, es, c, k, i);
    SendsIff(writes, es, c, k, i + 1);
    var b := Before(writes, es, k);
    KeptInChain(writes, es, c, k);
    KeptInChain(writes, es, c, k + 1);
    OnlyOpening(writes, es, c, k);
    OutIff(b, i + 1);
    BeforeStep(writes, es, k);
    var w, since := 0, 0;
    if b.index < |writes| {
      w := WaitsFor(writes, es, c, k);
      since := es[w].now;
    }
    StepStops(b, es[k], since);
    forall m: nat | m < k && Sends(writes, es, m, i) ensures i <= b.index && (i == b.index ==> m == w) {
      SentOnce(writes, es, c, m, k, i);
      if i == b.index {
        if m < w { SentOnce(writes, es, c, m, w, i); }
        if w < m { SentOnce(writes, es, c, w, m, i); }
      }
    }
  }

  // ------------------------------------------------------------------ the code itself

  class Session {
    const writes: seq<string>
    var index: nat
    var deadline: nat
    ghost var issued: seq<nat>
    ghost var connected: nat

    ghost function View(): State
      reads this
    {
      State(writes, index, deadline, issued, connected)
    }

    constructor (writes: seq<string>)
      ensures View() == Boot(writes)
    {
      this.writes, index, deadline := writes, 0, 0;
      issued, connected := [], 0;
    }

    /** Iterative: the number of writes is chosen by the server. */
    method RunInitWrites(results: Results, now: nat)
      modifies this
      ensures View() == RunWrites(old(View()), results, now)
    {
      while index < |writes|
        invariant RunWrites(View(), results, now) == RunWrites(old(View()), results, now)
      {
        deadline := now + WAIT_US;
        issued := issued + [index];
        var err := results(index);
        if err == Sent { return; }
        index := index + 1;
      }
      connected := connected + 1;
    }

    method OnConnected(granted: bool, results: Results, now: nat)
      modifies this
      ensures View() == Step(old(View()), Connected(granted, results, now))
    {
      if granted { RunInitWrites(results, now); }
    }

    method OnWriteDone(granted: bool, uuid: Option<string>, results: Results, now: nat)
      modifies this
      ensures View() == Step(old(View()), WriteDone(granted, uuid, results, now))
    {
      if !granted || index >= |writes| { return; }
      if uuid.Some? {
        var got := UuidParse(uuid.value);
        var want := UuidParse(writes[index]);
        if got.Parsed? && want.Parsed? && got.uuid != want.uuid { return; }
      }
      index := index + 1;
      RunInitWrites(results, now);
    }

    method WatchdogPass(granted: bool, sampled: nat, results: Results, now: nat)
      modifies this
      ensures View() == Step(old(View()), Watchdog(granted, sampled, results, now))
    {
      if !granted || index >= |writes| { return; }
      if deadline != 0 && sampled > deadline {
        index := index + 1;
        RunInitWrites(results, now);
      }
    }
  }
}
