/**
 * The migration chain of one namespace across reboots (components/espos_config/src/espos_config.c:641-747).
 * Each boot may run another firmware; steps may fail, and a stamp write may fail with or without landing.
 */
module Migration {
  import opened Esp

  type version = x: int | 0 <= x < 0x1_0000

  /** What `read_version` finds. */
  datatype Stamp = Absent | At(v: version) | Corrupt

  /** A descriptor's version and the versions that have a registered step. */
  datatype Firmware = Firmware(current: version, steps: set<version>)

  /** A write of the stamp answers `ok` only if it landed; a failed one may have landed all the same. */
  datatype Stamping = Done | Lost | LandedUnacknowledged

  /** One boot: the firmware, which steps succeed, how each stamp write goes, and whether a bad stamp can be erased. */
  datatype Boot = Boot(fw: Firmware, succeeds: version -> bool, stamping: version -> Stamping, erases: bool)

  /** History: a step called, and the stamp moving on from a version. */
  datatype Event = Ran(from: version, ok: bool) | Crossed(from: version, registered: bool)

  datatype Outcome = Outcome(stamp: Stamp, log: seq<Event>)

  // ------------------------------------------------------------------ one boot

  function Attempt(v: version, b: Boot): seq<Event> {
    if v in b.fw.steps then [Ran(v, b.succeeds(v))] else []
  }

  /** The chain from a stored version upward. */
  function Chain(v: version, b: Boot): Outcome
    decreases b.fw.current - v
  {
    if v >= b.fw.current then Outcome(At(v), [])
    else if v in b.fw.steps && !b.succeeds(v) then Outcome(At(v), Attempt(v, b))
    else
      var log := Attempt(v, b) + [Crossed(v, v in b.fw.steps)];
      match b.stamping(v + 1)
      case Lost => Outcome(At(v), Attempt(v, b))
      case LandedUnacknowledged => Outcome(At(v + 1), log)
      case Done =>
        var rest := Chain(v + 1, b);
        Outcome(rest.stamp, log + rest.log)
  }

  /** A namespace never stamped, or whose stamp is unreadable, is stamped with the current version and runs nothing. What
      is there but cannot be read is erased first. */
  function Restamped(stamp: Stamp, b: Boot): Stamp {
    var erased := if !stamp.Absent? && b.erases then Absent else stamp;
    if b.stamping(b.fw.current).Lost? then erased else At(b.fw.current)
  }

  function Migrated(stamp: Stamp, b: Boot): Outcome {
    if stamp.At? then Chain(stamp.v, b) else Outcome(Restamped(stamp, b), [])
  }

  function Run(stamp: Stamp, boots: seq<Boot>): Outcome
    decreases |boots|
  {
    if boots == [] then Outcome(stamp, []) else
      var n := |boots| - 1;
      var o := Run(stamp, boots[..n]);
      var next := Migrated(o.stamp, boots[n]);
      Outcome(next.stamp, o.log + next.log)
  }

  // ------------------------------------------------------------------ what a history may look like

  /** One event read by a version that only moves by crossing, and crosses a registered step only right after its success. */
  function Reads(at: Option<nat>, before: seq<Event>, e: Event): Option<nat> {
    if at.None? || e.from != at.value then None
    else match e
      case Ran(_, _) => at
      case Crossed(v, registered) =>
        if !registered || (before != [] && before[|before| - 1] == Ran(v, true)) then Some(at.value + 1) else None
  }

  /** Where a history that starts at a version ends, if it is orderly at all. */
  function Follow(start: nat, log: seq<Event>): Option<nat>
    decreases |log|
  {
    if log == [] then Some(start) else
      var n := |log| - 1;
      Reads(Follow(start, log[..n]), log[..n], log[n])
  }

  /** A chain's history is orderly and ends at the stamp it leaves, which lies between the stored and the current version. */
  lemma {:induction false} ChainOrderly(v: version, b: Boot)
    ensures var o := Chain(v, b);
      o.stamp.At? && Follow(v, o.log) == Some(o.stamp.v) && v <= o.stamp.v && (o.stamp.v == v || o.stamp.v <= b.fw.current)
    decreases b.fw.current - v
  {
    hide Follow, Attempt;
    FollowNothing(v);
    if v < b.fw.current {
      FollowOne(v, b);
      if !(v in b.fw.steps && !b.succeeds(v)) && b.stamping(v + 1).Done? {
        ChainOrderly(v + 1, b);
        FollowJoin(v, Attempt(v, b) + [Crossed(v, v in b.fw.steps)], Chain(v + 1, b).log);
      }
    }
  }

  /** Over any number of boots with any firmware and faults, a stamped namespace's history is orderly and ends at its stamp. */
  lemma {:induction false} RunsAreOrderly(start: version, boots: seq<Boot>)
    ensures var o := Run(At(start), boots);
      o.stamp.At? && Follow(start, o.log) == Some(o.stamp.v)
    decreases |boots|
  {
    hide Follow, Chain;
    FollowNothing(start);
    if boots != [] {
      var n := |boots| - 1;
      RunsAreOrderly(start, boots[..n]);
      var o := Run(At(start), boots[..n]);
      ChainOrderly(o.stamp.v, boots[n]);
      FollowJoin(start, o.log, Chain(o.stamp.v, boots[n]).log);
    }
  }

  /** The stamp never falls, and passes no version that some boot's firmware does not reach. */
  lemma {:induction false} StampIsBounded(start: version, boots: seq<Boot>)
    ensures var o := Run(At(start), boots);
      o.stamp.At? && start <= o.stamp.v && (o.stamp.v == start || exists i :: 0 <= i < |boots| && o.stamp.v <= boots[i].fw.current)
    decreases |boots|
  {
    hide Follow, Chain;
    if boots != [] {
      var n := |boots| - 1;
      var o := Run(At(start), boots[..n]);
      StampIsBounded(start, boots[..n]);
      ChainOrderly(o.stamp.v, boots[n]);
      if i :| 0 <= i < n && o.stamp.v <= boots[..n][i].fw.current { assert boots[i] == boots[..n][i]; }
    }
  }

  // ------------------------------------------------------------------ what an orderly history means

  function Crossings(log: seq<Event>): seq<nat>
    decreases |log|
  {
    if log == [] then [] else
      var n := |log| - 1;
      Crossings(log[..n]) + if log[n].Crossed? then [log[n].from] else []
  }

  function Span(start: nat, end: nat): seq<nat>
    requires start <= end
  {
    seq(end - start, i => start + i)
  }

  /** Every version between the first stamp and the last is crossed exactly once, in order. */
  lemma {:induction false} CrossedInOrder(start: nat, log: seq<Event>)
    requires Follow(start, log).Some?
    ensures start <= Follow(start, log).value && Crossings(log) == Span(start, Follow(start, log).value)
    decreases |log|
  {
    if log != [] {
      var n := |log| - 1;
      CrossedInOrder(start, log[..n]);
      var at := Follow(start, log[..n]).value;
      if log[n].Crossed? { assert Span(start, at + 1) == Span(start, at) + [at]; }
    }
  }

  /** Once the stamp has moved past a version, its step never runs again and the version is never crossed again. */
  lemma {:induction false} NeverAgain(start: nat, log: seq<Event>, i: nat, j: nat)
    requires Follow(start, log).Some? && i < j < |log| && log[i].Crossed?
    ensures log[j].from > log[i].from
  {
    hide Follow;
    FollowPrefix(start, log, i + 1);
    FollowPrefix(start, log, j);
    FollowPrefix(start, log, j + 1);
    FollowPrefix(start, log[..j], i + 1);
    assert log[..j][..i + 1] == log[..i + 1];
    FollowLast(start, log[..i + 1]);
    FollowLast(start, log[..j + 1]);
    assert log[..i + 1][..i] == log[..i] && log[..j + 1][..j] == log[..j];
  }

  /** A boot where no step fails and every stamp lands brings any older stamp to the current version. */
  lemma {:induction false} GoodBootFinishes(v: version, b: Boot)
    requires v <= b.fw.current
    requires forall w: version :: w in b.fw.steps ==> b.succeeds(w)
    requires forall w: version :: b.stamping(w).Done?
    ensures Chain(v, b).stamp == At(b.fw.current)
    decreases b.fw.current - v
  {
    if v < b.fw.current { GoodBootFinishes(v + 1, b); }
  }

  /** A version is passed if its step, where there is one, succeeds and the write of the next stamp lands. */
  predicate Passes(b: Boot, u: version) {
    u < b.fw.current && (u in b.fw.steps ==> b.succeeds(u)) && !b.stamping(u + 1).Lost?
  }

  /** How far a boot gets: past every version up to its stamp, each but the last with its write acknowledged, and no further,
      because that is the current version, the last write was not acknowledged, or the version there is not passed. */
  lemma {:induction false} ChainStops(v: version, b: Boot)
    ensures Chain(v, b).stamp.At?
    ensures var e := Chain(v, b).stamp.v;
      && (forall u: version :: v <= u < e ==> Passes(b, u) && (u + 1 < e ==> b.stamping(u + 1).Done?))
      && (e >= b.fw.current || (e > v && b.stamping(e).LandedUnacknowledged?) || !Passes(b, e))
    decreases b.fw.current - v
  {
    if !Passes(b, v) {
      assert Chain(v, b).stamp == At(v);
    } else if b.stamping(v + 1).LandedUnacknowledged? {
      assert Chain(v, b).stamp == At(v + 1);
    } else {
      ChainStops(v + 1, b);
      var e := Chain(v + 1, b).stamp.v;
      assert Chain(v, b).stamp == At(e);
      forall u: version | v <= u < e ensures Passes(b, u) && (u + 1 < e ==> b.stamping(u + 1).Done?) {
        if u > v { assert v + 1 <= u < e; }
      }
    }
  }

  // ------------------------------------------------------------------ the code itself

  class Namespace {
    var stamp: Stamp
    ghost var log: seq<Event>

    /** `write_version`. */
    method WriteVersion(v: version, how: Stamping) returns (ok: bool)
      modifies this`stamp
      ensures ok == how.Done? && stamp == if how.Lost? then old(stamp) else At(v)
    {
      if !how.Lost? { stamp := At(v); }
      ok := how.Done?;
    }

    /** The two branches of `migrate_ns` for a stamp it could not read. */
    method Restamp(b: Boot)
      modifies this`stamp
      ensures stamp == Restamped(old(stamp), b)
    {
      if !stamp.Absent? && b.erases { stamp := Absent; }
      var _ := WriteVersion(b.fw.current, b.stamping(b.fw.current));
    }

    /** `migrate_ns`. */
    method Migrate(b: Boot)
      modifies this
      ensures var o := Migrated(old(stamp), b);
        stamp == o.stamp && log == old(log) + o.log
    {
      hide Chain, Attempt;
      var ok: bool;
      if !stamp.At? {
        Restamp(b);
        return;
      }
      var v: version := stamp.v;
      while v < b.fw.current
        invariant stamp == At(v)
        invariant Outcome(Chain(old(stamp).v, b).stamp, old(log) + Chain(old(stamp).v, b).log) == Pending(log, v, b)
        decreases b.fw.current - v
      {
        ChainStep(log, v, b);
        if v in b.fw.steps {
          log := log + [Ran(v, b.succeeds(v))];
          if !b.succeeds(v) { return; }
        }
        ok := WriteVersion(v + 1, b.stamping(v + 1));
        if !b.stamping(v + 1).Lost? { log := log + [Crossed(v, v in b.fw.steps)]; }
        if !ok { return; }
        v := v + 1;
      }
      ChainStep(log, v, b);
    }
  }

  /** What the chain still to run from a version will leave, given the history so far. */
  function Pending(log: seq<Event>, v: version, b: Boot): Outcome {
    Outcome(Chain(v, b).stamp, log + Chain(v, b).log)
  }

  // ------------------------------------------------------------------ reading a history

  lemma {:induction false} FollowPrefix(start: nat, log: seq<Event>, i: nat)
    requires Follow(start, log).Some? && i <= |log|
    ensures Follow(start, log[..i]).Some? && Follow(start, log[..i]).value <= Follow(start, log).value
    decreases |log|
  {
    if i == |log| { assert log[..i] == log; }
    else {
      FollowPrefix(start, log[..|log| - 1], i);
      assert log[..|log| - 1][..i] == log[..i];
    }
  }

  /** Where in an orderly history a version was crossed. */
  lemma {:induction false} CrossingOf(start: nat, log: seq<Event>, w: nat) returns (i: nat)
    requires Follow(start, log).Some? && start <= w < Follow(start, log).value
    ensures i < |log| && log[i].Crossed? && log[i].from == w
    ensures log[i].registered ==> i > 0 && log[i - 1] == Ran(w, true)
    decreases |log|
  {
    var n := |log| - 1;
    FollowLast(start, log);
    if log[n].Crossed? && log[n].from == w { return n; }
    i := CrossingOf(start, log[..n], w);
  }

  lemma {:induction false} FollowLast(start: nat, log: seq<Event>)
    requires log != [] && Follow(start, log).Some?
    ensures var n := |log| - 1;
      && Follow(start, log[..n]) == Some(log[n].from)
      && (log[n].Crossed? ==> Follow(start, log) == Some(log[n].from + 1))
      && (log[n].Crossed? && log[n].registered ==> n > 0 && log[n - 1] == Ran(log[n].from, true))
  {
  }

  lemma {:induction false} FollowJoin(start: nat, a: seq<Event>, b: seq<Event>)
    requires Follow(start, a).Some? && Follow(Follow(start, a).value, b).Some?
    ensures Follow(start, a + b) == Follow(Follow(start, a).value, b)
    decreases |b|
  {
    if b == [] { assert a + b == a; }
    else {
      var n := |b| - 1;
      FollowJoin(start, a, b[..n]);
      assert (a + b)[..|a| + n] == a + b[..n];
      assert (a + b)[|a| + n] == b[n];
    }
  }

  lemma {:induction false} FollowOne(v: version, b: Boot)
    ensures Follow(v, Attempt(v, b)) == Some(v)
    ensures v in b.fw.steps ==> b.succeeds(v) ==> Follow(v, Attempt(v, b) + [Crossed(v, true)]) == Some(v + 1)
    ensures v !in b.fw.steps ==> Follow(v, Attempt(v, b) + [Crossed(v, false)]) == Some(v + 1)
  {
    var log := Attempt(v, b);
    assert log[..0] == [];
    var next := log + [Crossed(v, v in b.fw.steps)];
    assert next[..|log|] == log;
  }

  lemma {:induction false} FollowNothing(v: nat)
    ensures Follow(v, []) == Some(v)
  {
  }

  /** One turn of the loop, by what the step and the stamp write answer. */
  lemma {:induction false} ChainStep(log: seq<Event>, v: version, b: Boot)
    ensures v >= b.fw.current ==> Pending(log, v, b) == Outcome(At(v), log)
    ensures v < b.fw.current && v in b.fw.steps && !b.succeeds(v) ==> Pending(log, v, b) == Outcome(At(v), log + [Ran(v, false)])
    ensures v < b.fw.current && (v in b.fw.steps ==> b.succeeds(v)) ==>
              var ran := if v in b.fw.steps then log + [Ran(v, true)] else log;
              var crossed := ran + [Crossed(v, v in b.fw.steps)];
              Pending(log, v, b) ==
              match b.stamping(v + 1)
              case Lost => Outcome(At(v), ran)
              case LandedUnacknowledged => Outcome(At(v + 1), crossed)
              case Done => Pending(crossed, v + 1, b)
  {
    var ran := if v in b.fw.steps then log + [Ran(v, true)] else log;
    if v < b.fw.current && (v in b.fw.steps ==> b.succeeds(v)) {
      assert ran == log + Attempt(v, b);
    }
  }

  lemma {:induction false} EventsFrom(start: nat, log: seq<Event>, i: nat)
    requires Follow(start, log).Some? && i < |log|
    ensures log[i].from >= start
  {
    hide Follow;
    FollowPrefix(start, log, i + 1);
    FollowPrefix(start, log, i);
    FollowLast(start, log[..i + 1]);
    assert log[..i + 1][..i] == log[..i];
    FollowNothing(start);
    FollowPrefix(start, log[..i], 0);
    assert log[..i][..0] == [];
  }

  lemma {:induction false} RunJoin(stamp: Stamp, a: seq<Boot>, b: seq<Boot>)
    ensures var first := Run(stamp, a); var rest := Run(first.stamp, b);
      Run(stamp, a + b) == Outcome(rest.stamp, first.log + rest.log)
    decreases |b|
  {
    hide Migrated;
    if b == [] { assert a + b == a; }
    else {
      var n := |b| - 1;
      RunJoin(stamp, a, b[..n]);
      assert (a + b)[..|a| + n] == a + b[..n];
    }
  }
}
