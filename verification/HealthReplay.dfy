/** `espos_health_replay` racing with reports: the table's state is copied, sent with the lock
    released, then looked at again. One sink is observed; reporters run in between at will. */
module HealthReplay {
  import opened Esp
  import opened HealthTable

  const REPLAY_PASSES: nat := 4

  /** What a sink is told about a condition. */
  datatype Word = Word(level: Level, message: string)

  /** The shared state seen from one registered sink: the table, which conditions have a reporter
      between its table update and its fan-out, and the last word the sink heard of each. */
  datatype Bus = Bus(table: seq<Word>, flight: seq<bool>, heard: seq<Option<Word>>)

  /** What another task does while the replay holds no lock. */
  datatype Move =
    | Report(i: nat, word: Word)   // the critical section of a report for a known condition
    | First(word: Word)            // the same for a condition not yet in the table
    | Deliver(i: nat)              // its fan-out reaches the sink
    | Lose(i: nat)                 // its fan-out gives up on the lock

  /** A wait for the lock: what the others do meanwhile, and whether it is granted in time. */
  datatype Wait = Wait(moves: seq<Move>, granted: bool)

  predicate WellFormedBus(b: Bus, max: nat) {
    |b.flight| == |b.heard| == |b.table| <= max
  }

  /** One reporter per key at a time: a report waits until the previous fan-out is through. An
      unchanged report stays quiet. */
  function Apply(b: Bus, max: nat, m: Move): (r: Bus)
    requires WellFormedBus(b, max)
    ensures WellFormedBus(r, max) && |b.table| <= |r.table|
  {
    match m
    case Report(i, w) =>
      if i < |b.table| && !b.flight[i] && b.table[i] != w
      then b.(table := b.table[i := w], flight := b.flight[i := true])
      else b
    case First(w) =>
      if |b.table| < max then Bus(b.table + [w], b.flight + [true], b.heard + [None]) else b
    case Deliver(i) =>
      if i < |b.table| && b.flight[i]
      then b.(heard := b.heard[i := Some(b.table[i])], flight := b.flight[i := false])
      else b
    case Lose(i) =>
      if i < |b.table| && b.flight[i] then b.(flight := b.flight[i := false]) else b
  }

  predicate NoneLost(ms: seq<Move>) {
    forall k :: 0 <= k < |ms| ==> !ms[k].Lose?
  }

  function ApplyAll(b: Bus, max: nat, ms: seq<Move>): (r: Bus)
    requires WellFormedBus(b, max)
    ensures WellFormedBus(r, max) && |b.table| <= |r.table|
    decreases |ms|
  {
    if ms == [] then b else ApplyAll(Apply(b, max, ms[0]), max, ms[1..])
  }

  /** The sink has the newest word of condition `i`, or is about to get it. */
  predicate Caught(b: Bus, i: nat)
    requires |b.flight| == |b.heard| == |b.table| && i < |b.table|
  {
    b.flight[i] || b.heard[i] == Some(b.table[i])
  }

  predicate CaughtUpTo(b: Bus, n: nat)
    requires |b.flight| == |b.heard| == |b.table|
  {
    forall i :: 0 <= i < n && i < |b.table| ==> b.flight[i] || b.heard[i] == Some(b.table[i])
  }

  /** The sink itself heard the table's word of the first `n` conditions. */
  predicate HeardUpTo(b: Bus, n: nat)
    requires |b.flight| == |b.heard| == |b.table|
  {
    forall i :: 0 <= i < n && i < |b.table| ==> b.heard[i] == Some(b.table[i])
  }

  /** No fan-out gives up on its lock while the replay runs. */
  ghost predicate Reliable(env: nat -> Wait) {
    forall k: nat :: NoneLost(env(k).moves)
  }

  /** Every lock is granted at once and no other task reports. */
  ghost predicate Undisturbed(env: nat -> Wait) {
    forall k: nat :: env(k).granted && env(k).moves == []
  }

  /** After the copy `c` was sent: caught, or the sink holds `c` and the table has moved on. */
  predicate Sent(b: Bus, i: nat, c: Word)
    requires |b.flight| == |b.heard| == |b.table| && i < |b.table|
  {
    Caught(b, i) || (b.heard[i] == Some(c) && b.table[i] != c)
  }

  /** Reports and fan-outs that get through never undo what the sink has caught. */
  lemma {:induction false} MovesKeep(b: Bus, max: nat, ms: seq<Move>, n: nat, i: nat, c: Word)
    requires WellFormedBus(b, max) && NoneLost(ms)
    ensures CaughtUpTo(b, n) ==> CaughtUpTo(ApplyAll(b, max, ms), n)
    ensures i < |b.table| && Sent(b, i, c) ==> Sent(ApplyAll(b, max, ms), i, c)
    ensures CaughtUpTo(b, |b.table|) ==> CaughtUpTo(ApplyAll(b, max, ms), |ApplyAll(b, max, ms).table|)
    decreases |ms|
  {
    if ms != [] {
      var a := Apply(b, max, ms[0]);
      assert CaughtUpTo(b, n) ==> CaughtUpTo(a, n);
      assert CaughtUpTo(b, |b.table|) ==> CaughtUpTo(a, |a.table|);
      MovesKeep(a, max, ms[1..], n, i, c);
    }
  }

  /** One condition: send the copy, look again, send the newer word, at most four times. */
  method ReplayOne(start: Bus, max: nat, env: nat -> Wait, from: nat, i: nat)
    returns (bus: Bus, tick: nat, granted: bool, settled: bool)
    requires WellFormedBus(start, max) && i < |start.table|
    ensures WellFormedBus(bus, max) && |start.table| <= |bus.table|
    ensures Reliable(env) && CaughtUpTo(start, i) ==> CaughtUpTo(bus, i)
    ensures Reliable(env) && settled ==> Caught(bus, i)
    ensures Undisturbed(env) ==>
      granted && settled && bus == start.(heard := start.heard[i := Some(start.table[i])])
  {
    bus, tick, settled := start, from, false;
    var c := bus.table[i];
    var pass := 0;
    while pass < REPLAY_PASSES && !settled
      invariant WellFormedBus(bus, max) && |start.table| <= |bus.table|
      invariant Reliable(env) && CaughtUpTo(start, i) ==> CaughtUpTo(bus, i)
      invariant Reliable(env) && settled ==> Caught(bus, i)
      invariant pass > 0 && Undisturbed(env) ==> settled && bus == start.(heard := start.heard[i := Some(start.table[i])])
      invariant pass >= 0 && (pass == 0 ==> !settled && bus == start && c == start.table[i])
    {
      if Reliable(env) { MovesKeep(bus, max, env(tick).moves, i, i, c); }
      bus := ApplyAll(bus, max, env(tick).moves);
      bus := bus.(heard := bus.heard[i := Some(c)]);    // the sink call, lock released
      tick := tick + 1;
      if Reliable(env) { MovesKeep(bus, max, env(tick).moves, i, i, c); }
      bus := ApplyAll(bus, max, env(tick).moves);
      if !env(tick).granted { return bus, tick, false, false; }
      tick := tick + 1;
      settled := bus.table[i] == c;
      if !settled { c := bus.table[i]; }
      pass := pass + 1;
    }
    granted := true;
  }

  /** The replay loop. In every interleaving, an Ok answer means that the sink holds the newest
      word of every condition or that a fan-out carrying it is on its way. */
  method Replay(start: Bus, max: nat, env: nat -> Wait) returns (err: Err, bus: Bus)
    requires WellFormedBus(start, max)
    ensures WellFormedBus(bus, max) && |start.table| <= |bus.table|
    ensures err == Ok || err == Timeout
    ensures err == Ok && Reliable(env) ==> CaughtUpTo(bus, |bus.table|)
    ensures Undisturbed(env) ==>
      err == Ok && bus.table == start.table && bus.flight == start.flight && HeardUpTo(bus, |bus.table|)
  {
    bus := start;
    var tick := 0;
    var incomplete := false;
    var i := 0;
    while true
      invariant WellFormedBus(bus, max) && |start.table| <= |bus.table| && i <= |bus.table|
      invariant Reliable(env) && !incomplete ==> CaughtUpTo(bus, i)
      invariant Undisturbed(env) ==>
        !incomplete && bus.table == start.table && bus.flight == start.flight && HeardUpTo(bus, i)
      decreases max - i
    {
      if Reliable(env) { MovesKeep(bus, max, env(tick).moves, i, i, Word(Normal, "")); }
      bus := ApplyAll(bus, max, env(tick).moves);
      if !env(tick).granted { return Timeout, bus; }
      tick := tick + 1;
      if i >= |bus.table| { return if incomplete then Timeout else Ok, bus; }
      var granted, settled;
      bus, tick, granted, settled := ReplayOne(bus, max, env, tick, i);
      if !granted { return Timeout, bus; }
      if !settled { incomplete := true; }
      i := i + 1;
    }
  }

  /** Replay convergence: once the replay has answered Ok, whatever is reported afterwards, as soon
      as every fan-out got through the last word the sink heard of each condition is the table's. */
  lemma {:induction false} Converges(b: Bus, max: nat, later: seq<Move>)
    requires WellFormedBus(b, max) && CaughtUpTo(b, |b.table|) && NoneLost(later)
    ensures var e := ApplyAll(b, max, later);
      (forall i :: 0 <= i < |e.table| ==> !e.flight[i]) ==>
        forall i :: 0 <= i < |e.table| ==> e.heard[i] == Some(e.table[i])
  {
    MovesKeep(b, max, later, 0, 0, Word(Normal, ""));
    var e := ApplyAll(b, max, later);
    forall i | 0 <= i < |e.table| && !e.flight[i]
      ensures e.heard[i] == Some(e.table[i])
    {
      assert Caught(e, i);
    }
  }

  // --------------------------------------------------------------- fan-outs that give up

  datatype Fate = Pending | Delivered | Lost

  /** A word the table got for a condition, and what became of its fan-out. */
  datatype Change = Change(word: Word, fate: Fate)

  /** What is known of a condition before a run: the word the sink has, and a newer one if there is. */
  function Known(b: Bus, i: nat): seq<Change>
    requires |b.flight| == |b.heard| == |b.table| && i < |b.table|
  {
    (if b.heard[i].Some? then [Change(b.heard[i].value, Delivered)] else []) +
    (if b.flight[i] then [Change(b.table[i], Pending)]
     else if b.heard[i] != Some(b.table[i]) then [Change(b.table[i], Lost)] else [])
  }

  /** The changes of condition `i` after one more move. */
  function Noted(b: Bus, m: Move, i: nat, log: seq<Change>): seq<Change>
    requires |b.flight| == |b.heard| == |b.table| && i < |b.table|
  {
    match m
    case Report(j, w) => if j == i && !b.flight[i] && b.table[i] != w then log + [Change(w, Pending)] else log
    case First(_) => log
    case Deliver(j) => if j == i && b.flight[i] && log != [] then log[|log| - 1 := log[|log| - 1].(fate := Delivered)] else log
    case Lose(j) => if j == i && b.flight[i] && log != [] then log[|log| - 1 := log[|log| - 1].(fate := Lost)] else log
  }

  function History(b: Bus, max: nat, ms: seq<Move>, i: nat, log: seq<Change>): seq<Change>
    requires WellFormedBus(b, max) && i < |b.table|
    decreases |ms|
  {
    if ms == [] then log else History(Apply(b, max, ms[0]), max, ms[1..], i, Noted(b, ms[0], i, log))
  }

  function LastDelivered(log: seq<Change>): Option<Word>
    decreases |log|
  {
    if log == [] then None else
      var n := |log| - 1;
      if log[n].fate.Delivered? then Some(log[n].word) else LastDelivered(log[..n])
  }

  /** The history tells table, fan-out and sink of a condition. */
  ghost predicate Tells(log: seq<Change>, b: Bus, i: nat)
    requires |b.flight| == |b.heard| == |b.table| && i < |b.table|
  {
    && log != [] && log[|log| - 1].word == b.table[i]
    && (b.flight[i] <==> log[|log| - 1].fate.Pending?)
    && LastDelivered(log) == b.heard[i]
  }

  lemma {:induction false} MoveTold(b: Bus, max: nat, m: Move, i: nat, log: seq<Change>)
    requires WellFormedBus(b, max) && i < |b.table| && Tells(log, b, i)
    ensures Tells(Noted(b, m, i, log), Apply(b, max, m), i)
  {
    hide LastDelivered;
    var n := |log| - 1;
    match m
    case Report(_, w) => DeliveredSnoc(log, Change(w, Pending));
    case Deliver(_) => DeliveredAmended(log, Delivered);
    case Lose(_) => DeliveredAmended(log, Lost);
    case First(_) =>
  }

  lemma {:induction false} DeliveredSnoc(log: seq<Change>, c: Change)
    ensures LastDelivered(log + [c]) == (if c.fate.Delivered? then Some(c.word) else LastDelivered(log)) && LastDelivered([]) == None
  {
    assert (log + [c])[..|log|] == log;
  }

  /** Settling a pending change. */
  lemma {:induction false} DeliveredAmended(log: seq<Change>, fate: Fate)
    requires log != []
    ensures var n := |log| - 1;
      log[n].fate.Pending? ==>
        LastDelivered(log[n := log[n].(fate := fate)]) == if fate.Delivered? then Some(log[n].word) else LastDelivered(log)
  {
    var n := |log| - 1;
    DeliveredSnoc(log[..n], log[n].(fate := fate));
    assert log[n := log[n].(fate := fate)] == log[..n] + [log[n].(fate := fate)];
  }

  lemma {:induction false} RunTold(b: Bus, max: nat, ms: seq<Move>, i: nat, log: seq<Change>)
    requires WellFormedBus(b, max) && i < |b.table| && Tells(log, b, i)
    ensures Tells(History(b, max, ms, i, log), ApplyAll(b, max, ms), i)
    decreases |ms|
  {
    if ms != [] {
      MoveTold(b, max, ms[0], i, log);
      RunTold(Apply(b, max, ms[0]), max, ms[1..], i, Noted(b, ms[0], i, log));
    }
  }

  lemma {:induction false} KnownTells(b: Bus, i: nat)
    requires |b.flight| == |b.heard| == |b.table| && i < |b.table|
    ensures Tells(Known(b, i), b, i)
  {
    hide LastDelivered;
    var first := if b.heard[i].Some? then [Change(b.heard[i].value, Delivered)] else [];
    DeliveredSnoc([], Change(b.table[i], Lost));
    if b.heard[i].Some? { DeliveredSnoc([], first[0]); }
    assert LastDelivered(first) == b.heard[i] by { assert b.heard[i].Some? ==> [] + [first[0]] == first; }
    if b.flight[i] { DeliveredSnoc(first, Change(b.table[i], Pending)); }
    else if b.heard[i] != Some(b.table[i]) { DeliveredSnoc(first, Change(b.table[i], Lost)); }
    else { assert first + [] == first; }
  }

  /** With fan-outs that may give up, and whatever else is reported: the sink ends with the table's
      word exactly when the last change delivered carries the word of the last change made. That
      is so if the last change itself was delivered, or if the changes lost since came back. */
  lemma {:induction false} FateDecides(b: Bus, max: nat, ms: seq<Move>, i: nat)
    requires WellFormedBus(b, max) && i < |b.table|
    ensures var e, log := ApplyAll(b, max, ms), History(b, max, ms, i, Known(b, i));
      && log != []
      && (e.heard[i] == Some(e.table[i]) <==> LastDelivered(log) == Some(log[|log| - 1].word))
      && (log[|log| - 1].fate.Delivered? ==> e.heard[i] == Some(e.table[i]))
  {
    KnownTells(b, i);
    RunTold(b, max, ms, i, Known(b, i));
  }

  /** Two lost fan-outs that cancel out: the last change was lost, and the sink still has the table's word. */
  lemma {:induction false} LostAndBack(there: Word, away: Word)
    requires there != away
    ensures var b := Bus([there], [false], [Some(there)]);
      var e := ApplyAll(ApplyAll(b, 1, [Report(0, away), Lose(0)]), 1, [Report(0, there), Lose(0)]);
      e.table == [there] && e.heard == [Some(there)] && e.flight == [false]
  {
    var b := Bus([there], [false], [Some(there)]);
    TwoMoves(b, 1, Report(0, away), Lose(0));
    TwoMoves(ApplyAll(b, 1, [Report(0, away), Lose(0)]), 1, Report(0, there), Lose(0));
  }

  /** One lost fan-out after a replay that answered OK: the sink stays behind the table, and nothing is on its way. */
  method LostFanOutLeavesSinkBehind(start: Bus, max: nat, i: nat, word: Word) returns (err: Err, bus: Bus)
    requires WellFormedBus(start, max) && i < |start.table| && !start.flight[i] && start.table[i] != word
    ensures err == Ok && |bus.table| == |bus.flight| == |bus.heard| == |start.table|
    ensures !Caught(bus, i) && bus.heard[i] == Some(start.table[i]) && bus.table[i] == word
  {
    var quiet := (k: nat) => Wait([], true);
    err, bus := Replay(start, max, quiet);
    assert Undisturbed(quiet);
    var ms := [Report(i, word), Lose(i)];
    TwoMoves(bus, max, Report(i, word), Lose(i));
    bus := ApplyAll(bus, max, ms);
  }

  lemma {:induction false} TwoMoves(b: Bus, max: nat, m: Move, n: Move)
    requires WellFormedBus(b, max)
    ensures ApplyAll(b, max, [m, n]) == Apply(Apply(b, max, m), max, n)
  {
    var r := Apply(b, max, m);
    assert ApplyAll(Apply(r, max, n), max, []) == Apply(r, max, n);
    assert [m, n][1..] == [n] && [n][1..] == [];
    assert ApplyAll(r, max, [n]) == Apply(r, max, n);
  }
}
