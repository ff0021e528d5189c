/** When a migration step runs more than once (components/espos_config/src/espos_config.c:727-747). */
module MigrationRetry {
  import opened Migration

  /** The boot leaves a namespace stamped v where it is. */
  predicate Stays(b: Boot, v: version) {
    b.fw.current <= v || (v in b.fw.steps && !b.succeeds(v)) || b.stamping(v + 1).Lost?
  }

  /** The boot calls step v on a namespace stamped v. */
  predicate Calls(b: Boot, v: version) {
    v < b.fw.current && v in b.fw.steps
  }

  /** One boot: it moves the stamp exactly unless it stays, and step v is called exactly if it is there to call. */
  lemma {:induction false} BootAt(v: version, b: Boot, ok: bool)
    ensures Chain(v, b).stamp == At(v) <==> Stays(b, v)
    ensures Ran(v, ok) in Chain(v, b).log <==> Calls(b, v) && b.succeeds(v) == ok
  {
    hide Follow, Chain;
    ChainStep([], v, b);
    assert Pending([], v, b) == Chain(v, b);
    if v < b.fw.current {
      ChainOrderly(v + 1, b);
      LaterBootsSkip(v, v + 1, b, ok);
    }
  }

  lemma {:induction false} StaysIff(v: version, boots: seq<Boot>)
    ensures Run(At(v), boots).stamp == At(v) <==> forall j :: 0 <= j < |boots| ==> Stays(boots[j], v)
    decreases |boots|
  {
    hide Chain, Stays;
    if boots != [] {
      var n := |boots| - 1;
      StaysIff(v, boots[..n]);
      RunsAreOrderly(v, boots[..n]);
      StampNeverFalls(v, boots[..n]);
      var s := Run(At(v), boots[..n]).stamp.v;
      ChainOrderly(s, boots[n]);
      if s == v { BootAt(v, boots[n], true); }
      assert forall j :: 0 <= j < n ==> boots[..n][j] == boots[j];
    }
  }

  lemma {:induction false} StampNeverFalls(v: version, boots: seq<Boot>)
    ensures Run(At(v), boots).stamp.At? && Run(At(v), boots).stamp.v >= v
  {
    RunsAreOrderly(v, boots);
    CrossedInOrder(v, Run(At(v), boots).log);
  }

  /** Step v answers `ok` somewhere in the boots of a namespace stamped v exactly if some boot calls it with that
      answer, all boots before having left the stamp alone. */
  lemma {:induction false} RanIff(v: version, boots: seq<Boot>, ok: bool)
    ensures Ran(v, ok) in Run(At(v), boots).log <==> exists k: nat :: CallsIn(v, boots, k, ok)
    decreases |boots|
  {
    hide Chain, CallsIn, Migrated;
    if boots == [] {
      forall k: nat ensures !CallsIn(v, boots, k, ok) { CallsEarlier(v, boots, k, ok); }
    } else {
      var n := |boots| - 1;
      RanIff(v, boots[..n], ok);
      LastBootCalls(v, boots, ok);
      if k: nat :| CallsIn(v, boots[..n], k, ok) { CallsEarlier(v, boots, k, ok); }
      if k: nat :| CallsIn(v, boots, k, ok) { CallsEarlier(v, boots, k, ok); }
    }
  }

  /** Boot k calls step v with that answer, the boots before having left the stamp alone. */
  predicate CallsIn(v: version, boots: seq<Boot>, k: nat, ok: bool) {
    k < |boots| && Reaches(v, boots, k) && Calls(boots[k], v) && boots[k].succeeds(v) == ok
  }

  lemma {:induction false} CallsEarlier(v: version, boots: seq<Boot>, k: nat, ok: bool)
    ensures boots == [] ==> !CallsIn(v, boots, k, ok)
    ensures boots != [] ==>
      var n := |boots| - 1;
      && (k < n ==> (CallsIn(v, boots[..n], k, ok) <==> CallsIn(v, boots, k, ok)))
      && (k >= n ==> !CallsIn(v, boots[..n], k, ok))
      && (k > n ==> !CallsIn(v, boots, k, ok))
  {
    hide Stays, Calls;
    if boots != [] {
      var n := |boots| - 1;
      assert forall j :: 0 <= j < n ==> boots[..n][j] == boots[j];
    }
  }

  /** What the last boot adds to the history. */
  lemma {:induction false} LastBootCalls(v: version, boots: seq<Boot>, ok: bool)
    requires boots != []
    ensures var n := |boots| - 1;
      Ran(v, ok) in Run(At(v), boots).log <==> Ran(v, ok) in Run(At(v), boots[..n]).log || CallsIn(v, boots, n, ok)
  {
    hide Chain, Calls, Stays;
    var n := |boots| - 1;
    StaysIff(v, boots[..n]);
    StampNeverFalls(v, boots[..n]);
    var s := Run(At(v), boots[..n]).stamp.v;
    assert forall j :: 0 <= j < n ==> boots[..n][j] == boots[j];
    if s == v { BootAt(v, boots[n], ok); } else { LaterBootsSkip(v, s, boots[n], ok); }
  }

  /** Boots 0..k-1 leave a namespace stamped v where it is. */
  predicate Reaches(v: version, boots: seq<Boot>, k: nat) {
    k <= |boots| && forall j :: 0 <= j < k ==> Stays(boots[j], v)
  }

  lemma {:induction false} LaterBootsSkip(v: version, s: version, b: Boot, ok: bool)
    requires v < s
    ensures Ran(v, ok) !in Chain(s, b).log
  {
    hide Follow, Chain;
    var log := Chain(s, b).log;
    ChainOrderly(s, b);
    if Ran(v, ok) in log {
      var i :| 0 <= i < |log| && log[i] == Ran(v, ok);
      EventsFrom(s, log, i);
    }
  }

  /**
   * A step that succeeded succeeds again in the boots after exactly if its stamp write was lost and a later boot gets to
   * call it with success, every boot between leaving the stamp alone. A stamp that landed, acknowledged or not, rules it out.
   */
  lemma {:induction false} SucceedsAgainIff(v: version, b: Boot, after: seq<Boot>)
    requires Calls(b, v) && b.succeeds(v)
    ensures Chain(v, b).stamp.At?
    ensures Chain(v, b).stamp.v > v <==> !b.stamping(v + 1).Lost?
    ensures Ran(v, true) in Run(Chain(v, b).stamp, after).log <==>
            b.stamping(v + 1).Lost? &&
            exists k: nat :: CallsIn(v, after, k, true)
  {
    hide Run, Chain;
    BootAt(v, b, true);
    ChainOrderly(v, b);
    var s := Chain(v, b).stamp.v;
    if s == v {
      RanIff(v, after, true);
    } else {
      var log := Run(At(s), after).log;
      RunsAreOrderly(s, after);
      if Ran(v, true) in log {
        var i :| 0 <= i < |log| && log[i] == Ran(v, true);
        EventsFrom(s, log, i);
      }
    }
  }

  /** A step called anywhere in the chain of a boot: the chain got there, and ends as if it had started there. */
  lemma {:induction false} ChainCalls(u: version, b: Boot, v: version, ok: bool)
    requires Ran(v, ok) in Chain(u, b).log
    ensures u <= v && Calls(b, v) && b.succeeds(v) == ok && Chain(u, b).stamp == Chain(v, b).stamp
    decreases b.fw.current - u
  {
    if u == v {
      BootAt(v, b, ok);
    } else {
      assert Ran(v, ok) in Chain(u + 1, b).log;
      ChainCalls(u + 1, b, v, ok);
    }
  }

  /** The same at any point of any run, and at any step of a boot that took several: what a namespace does after the boot
      in which step v succeeded. */
  lemma {:induction false} SucceedsAgainInRun(start: version, before: seq<Boot>, b: Boot, v: version, after: seq<Boot>)
    requires Run(At(start), before).stamp.At? && Ran(v, true) in Chain(Run(At(start), before).stamp.v, b).log
    ensures var past, all := Run(At(start), before + [b]).log, Run(At(start), before + [b] + after).log;
      && Ran(v, true) in past && past <= all && v < b.fw.current
      && (Ran(v, true) in all[|past|..] <==> b.stamping(v + 1).Lost? && exists k: nat :: CallsIn(v, after, k, true))
  {
    hide Chain, CallsIn;
    assert (before + [b])[..|before|] == before;
    ChainCalls(Run(At(start), before).stamp.v, b, v, true);
    RunJoin(At(start), before + [b], after);
    SucceedsAgainIff(v, b, after);
  }

  /** The failing input: a lost stamp write, then an undisturbed boot. */
  lemma {:induction false} LostStampRunsTwice(v: version, b: Boot, again: Boot)
    requires Calls(b, v) && b.succeeds(v) && b.stamping(v + 1).Lost? && Calls(again, v) && again.succeeds(v)
    ensures [Ran(v, true), Ran(v, true)] <= Run(At(v), [b, again]).log
  {
    assert [b, again][..1] == [b] && [b][..0] == [];
    assert Run(At(v), [b]) == Outcome(At(v), [Ran(v, true)]);
  }
}
