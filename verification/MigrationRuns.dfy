/** What reaching a version means, and what happens to namespaces that were never stamped, over any number of boots,
    firmwares and faults (components/espos_config/src/espos_config.c:699-747). */
module MigrationRuns {
  import opened Migration

  // --------------------------------------------------------------- what reaching a version means

  /** A step that succeeded and whose stamp then moved on. */
  predicate StepAt(log: seq<Event>, i: int, w: version) {
    0 <= i < |log| - 1 && log[i] == Ran(w, true) && log[i + 1] == Crossed(w, true)
  }

  ghost predicate StepDone(log: seq<Event>, w: version) {
    exists i :: StepAt(log, i, w)
  }

  predicate OneFirmware(boots: seq<Boot>, fw: Firmware) {
    forall i :: 0 <= i < |boots| ==> boots[i].fw == fw
  }

  /** In any orderly history a lower step is through before a higher one starts to be. */
  lemma {:induction false} StepsInOrder(start: nat, log: seq<Event>, i: nat, j: nat, w: version, u: version)
    requires Follow(start, log).Some? && StepAt(log, i, w) && StepAt(log, j, u) && w < u
    ensures i < j
  {
    hide Follow;
    if j < i { NeverAgain(start, log, j + 1, i + 1); }
  }

  lemma {:induction false} ChainHonest(v: version, b: Boot)
    ensures forall e :: e in Chain(v, b).log && e.Crossed? ==> e.registered == (e.from in b.fw.steps)
    decreases b.fw.current - v
  {
    if v < b.fw.current && b.stamping(v + 1).Done? { ChainHonest(v + 1, b); }
  }

  /** The stamp after the first k boots. */
  function StampAfter(start: version, boots: seq<Boot>, k: nat): Stamp
    requires k <= |boots|
  {
    Run(At(start), boots[..k]).stamp
  }

  /** Boot k is the one whose stamp write took the namespace past version w. */
  predicate CrossedBy(start: version, boots: seq<Boot>, k: nat, w: version) {
    && k < |boots| && StampAfter(start, boots, k).At? && StampAfter(start, boots, k + 1).At?
    && StampAfter(start, boots, k).v <= w < StampAfter(start, boots, k + 1).v
  }

  /** Boot k crossed version w, and if its firmware had a step for it, that step succeeded right before. */
  ghost predicate CrossedDuly(start: version, boots: seq<Boot>, k: nat, w: version) {
    CrossedBy(start, boots, k, w) && (w in boots[k].fw.steps ==> StepDone(Run(At(start), boots).log, w))
  }

  lemma {:induction false} RunStep(stamp: Stamp, boots: seq<Boot>, k: nat)
    requires k < |boots|
    ensures Run(stamp, boots[..k + 1]).stamp == Migrated(Run(stamp, boots[..k]).stamp, boots[k]).stamp
    ensures Run(stamp, boots[..k + 1]).log == Run(stamp, boots[..k]).log + Migrated(Run(stamp, boots[..k]).stamp, boots[k]).log
  {
    assert boots[..k + 1][..k] == boots[..k];
  }

  lemma {:induction false} LogGrows(stamp: Stamp, boots: seq<Boot>, k: nat)
    requires k <= |boots|
    ensures Run(stamp, boots[..k]).log <= Run(stamp, boots).log
    decreases |boots|
  {
    hide Migrated;
    if k == |boots| { assert boots[..k] == boots; }
    else {
      var n := |boots| - 1;
      LogGrows(stamp, boots[..n], k);
      assert boots[..n][..k] == boots[..k];
    }
  }

  lemma {:induction false} CrossingBoot(start: version, boots: seq<Boot>, w: version) returns (k: nat)
    requires Run(At(start), boots).stamp.At? && start <= w < Run(At(start), boots).stamp.v
    ensures CrossedBy(start, boots, k, w)
    decreases |boots|
  {
    hide Migrated;
    var n := |boots| - 1;
    RunsAreOrderly(start, boots[..n]);
    assert boots[..n + 1] == boots;
    if Run(At(start), boots[..n]).stamp.v <= w { return n; }
    k := CrossingBoot(start, boots[..n], w);
    assert boots[..n][..k] == boots[..k] && boots[..n][..k + 1] == boots[..k + 1];
  }

  /**
   * Reaching a version means that every registered step from the first stamp on ran to success: each version
   * below the stamp was crossed by one boot, and if that boot's firmware had a step for it, the step succeeded right
   * before the stamp moved on.
   */
  lemma {:induction false} ReachedMeansAllRan(start: version, boots: seq<Boot>, w: version)
    requires Run(At(start), boots).stamp.At? && start <= w < Run(At(start), boots).stamp.v
    ensures exists k: nat :: CrossedDuly(start, boots, k, w)
  {
    hide Follow, Chain, Run;
    var k := CrossingBoot(start, boots, w);
    var v := StampAfter(start, boots, k).v;
    var log := Chain(v, boots[k]).log;
    RunStep(At(start), boots, k);
    ChainOrderly(v, boots[k]);
    ChainHonest(v, boots[k]);
    var i := CrossingOf(v, log, w);
    if w in boots[k].fw.steps {
      assert log[i] in log;
      var before := |Run(At(start), boots[..k]).log|;
      LogGrows(At(start), boots, k + 1);
      assert StepAt(Run(At(start), boots).log, before + i - 1, w);
    }
    assert CrossedDuly(start, boots, k, w);
  }

  /** With one firmware throughout: every registered step below the stamp ran to success. */
  lemma {:induction false} ReachedUnderOneFirmware(start: version, boots: seq<Boot>, fw: Firmware, w: version)
    requires OneFirmware(boots, fw) && w in fw.steps
    requires Run(At(start), boots).stamp.At? && start <= w < Run(At(start), boots).stamp.v
    ensures StepDone(Run(At(start), boots).log, w)
  {
    hide Run;
    ReachedMeansAllRan(start, boots, w);
  }

  // --------------------------------------------------------------------- fresh namespaces

  /** The boot loses the write of its own version. */
  predicate LosesStamp(b: Boot) {
    b.stamping(b.fw.current).Lost?
  }

  /** The first k boots lose their stamps, run nothing and leave none, and boot k stamps the namespace. */
  predicate FirstStampedBy(stamp: Stamp, boots: seq<Boot>, k: nat) {
    && k < |boots| && !LosesStamp(boots[k]) && (forall j :: 0 <= j < k ==> LosesStamp(boots[j]))
    && k < |boots| && Run(stamp, boots[..k]).log == [] && !Run(stamp, boots[..k]).stamp.At?
    && Run(stamp, boots) == Run(At(boots[k].fw.current), boots[k + 1..])
  }

  /** Over any firmwares: a namespace without a stamp, or with one that cannot be read, runs nothing until the first boot whose
      stamp lands; it gets that boot's own version, and from there it runs as one that started at that version. */
  lemma {:induction false} FreshStartsAtFirstStamp(stamp: Stamp, boots: seq<Boot>)
    requires !stamp.At?
    ensures if forall j :: 0 <= j < |boots| ==> LosesStamp(boots[j]) then !Run(stamp, boots).stamp.At? && Run(stamp, boots).log == []
            else exists k: nat :: FirstStampedBy(stamp, boots, k)
    decreases |boots|
  {
    hide Chain;
    if boots != [] {
      var n := |boots| - 1;
      FreshStartsAtFirstStamp(stamp, boots[..n]);
      if forall j :: 0 <= j < n ==> LosesStamp(boots[..n][j]) {
        assert forall j :: 0 <= j < n ==> boots[j] == boots[..n][j];
        if !LosesStamp(boots[n]) {
          assert boots[n + 1..] == [];
          assert FirstStampedBy(stamp, boots, n);
        }
      } else {
        var k: nat :| FirstStampedBy(stamp, boots[..n], k);
        FreshGoesOn(stamp, boots, k);
      }
    }
  }

  lemma {:induction false} FreshGoesOn(stamp: Stamp, boots: seq<Boot>, k: nat)
    requires boots != [] && FirstStampedBy(stamp, boots[..|boots| - 1], k)
    ensures FirstStampedBy(stamp, boots, k)
  {
    hide Chain, Migrated;
    var n := |boots| - 1;
    var later := boots[k + 1..];
    assert boots[..n][..k] == boots[..k];
    assert later[..|later| - 1] == boots[..n][k + 1..] && later[|later| - 1] == boots[n];
  }

  /** So no step below the version it was first stamped with ever runs. */
  lemma {:induction false} FreshSkipsOldSteps(stamp: Stamp, boots: seq<Boot>, k: nat, i: nat)
    requires FirstStampedBy(stamp, boots, k) && i < |Run(stamp, boots).log|
    ensures Run(stamp, boots).log[i].from >= boots[k].fw.current
  {
    hide Run, Follow;
    var start := boots[k].fw.current;
    var log := Run(At(start), boots[k + 1..]).log;
    RunsAreOrderly(start, boots[k + 1..]);
    EventsFrom(start, log, i);
  }

  /** A boot that fails to read a good stamp takes it for a bad one: no step runs, and the stamp stays what it was iff it is
      the current version already, or both the erasing and the stamping fail. Otherwise it is lost, or jumps to the current
      version, up or down. */
  lemma {:induction false} MisreadKeepsStampIff(v: version, b: Boot)
    ensures Restamped(At(v), b) == At(v) <==> if b.stamping(b.fw.current).Lost? then !b.erases else b.fw.current == v
    ensures Restamped(At(v), b) in {At(v), Absent, At(b.fw.current)}
  {
  }
}
