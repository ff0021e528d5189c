/**
 * The store as the device runs it: single writes and resets, the batch of pass 2, and the whole import
 * (components/espos_config/src/espos_config.c, components/espos_config/src/espos_config_json.c).
 */
module ConfigDevice {
  import opened Esp
  import opened ConfigStore
  import opened ConfigImport
  import opened ConfigPlan

  datatype Report = Refused | Applied(err: Err, changed: seq<Path>, restart: bool)

  /** The paths an outcome lists, in plan order. */
  function Paths(plan: seq<Entry>, changed: seq<nat>): (r: seq<Path>)
    requires forall a :: 0 <= a < |changed| ==> changed[a] < |plan|
    ensures |r| == |changed| && forall a :: 0 <= a < |changed| ==> r[a] == plan[changed[a]].path
  {
    seq(|changed|, a requires 0 <= a < |changed| => plan[changed[a]].path)
  }

  /** What an import answers, given the outcome of its plan. */
  function Answer(plan: seq<Entry>, o: Outcome): Report
    requires forall a :: 0 <= a < |o.changed| ==> o.changed[a] < |plan|
  {
    Applied(o.err, Paths(plan, o.changed), o.restart)
  }

  class Store {
    var cells: Cells

    /** `write_locked`: compare, store, commit; an empty blob is erased instead. */
    method WriteLocked(p: Path, k: Key, v: Value, f: Fault) returns (err: Err, changed: bool)
      modifies this
      ensures err == CodeOf(f)
      ensures cells == if f.SetFails? then old(cells) else Put(old(cells), p, Stored(v))
      ensures changed <==> f.Clean? && !Same(Effective(k.kind, Lookup(old(cells), p)), v)
    {
      changed := !Same(Effective(k.kind, Lookup(cells, p)), v);
      if f.SetFails? { return f.code, false; }
      if v == Blob([]) { cells := cells - {p}; }
      else { cells := cells[p := Stored(v).value]; }
      if f.CommitFails? { return f.code, false; }
      err := Ok;
    }

    /** `reset_locked`: compare with the default, erase, commit. */
    method ResetLocked(p: Path, k: Key, f: Fault) returns (err: Err, changed: bool)
      modifies this
      ensures err == CodeOf(f)
      ensures cells == if f.SetFails? then old(cells) else Put(old(cells), p, None)
      ensures changed <==> f.Clean? && ResetReports(k.kind, Lookup(old(cells), p))
    {
      changed := !Same(Effective(k.kind, Lookup(cells, p)), Default(k.kind));
      if f.SetFails? { return f.code, false; }
      cells := cells - {p};
      if f.CommitFails? { return f.code, false; }
      err := Ok;
    }

    method ApplyOne(e: Entry, f: Fault) returns (err: Err, changed: bool)
      modifies this
      ensures err == CodeOf(f) && cells == CellsAfter(old(cells), e, f) && changed == Reported(old(cells), e, f)
      ensures changed ==> f.Clean?
    {
      hide Effective, Put;
      if e.change.Reset? { err, changed := ResetLocked(e.path, e.key, f); }
      else { err, changed := WriteLocked(e.path, e.key, e.change.v, f); }
    }

    /** `espos_config_apply_plan`: every entry in order, past failures, noting what changed. */
    method ApplyPlan(plan: seq<Entry>, faults: nat -> Fault, changedIdx: array<nat>) returns (err: Err, n: nat, restart: bool)
      requires |plan| <= changedIdx.Length
      modifies this, changedIdx
      ensures var o := Run(old(cells), plan, faults);
        cells == o.cells && n <= |plan| && changedIdx[..n] == o.changed && restart == o.restart && err == o.err
    {
      hide Run, Reported, CellsAfter;
      err, n, restart := Ok, 0, false;
      var i := 0;
      RunNothing(cells, faults);
      while i < |plan|
        invariant n <= i <= |plan|
        invariant Run(old(cells), plan[..i], faults) == Outcome(cells, changedIdx[..n], restart, err)
        modifies this, changedIdx
      {
        RunStep(old(cells), plan, faults, i);
        var e, c := ApplyOne(plan[i], faults(i));
        if e != Ok {
          if err == Ok { err := e; }
        } else if c {
          ghost var before := changedIdx[..n];
          changedIdx[n] := i;
          assert changedIdx[..n + 1] == before + [i];
          n := n + 1;
          if plan[i].key.restart { restart := true; }
        }
        i := i + 1;
      }
      assert plan[..i] == plan;
    }

    /**
     * `espos_config_import_json` on a parsed document. `held` is what is still allocated at the end.
     */
    method Import(ctx: Context, doc: Json, faults: nat -> Fault) returns (r: Report, ghost held: Heap)
      modifies this
      ensures r.Refused? <==> !doc.Object? || !Accepted(Items(ctx, doc.members))
      ensures r.Refused? <==> !doc.Object? || exists i :: 0 <= i < |doc.members| && !MemberFine(ctx, doc.members[i])
      ensures r.Refused? ==> cells == old(cells)
      ensures r.Applied? ==>
        var plan := PlanOf(Items(ctx, doc.members));
        var o := Run(old(cells), plan, faults);
        (forall a :: 0 <= a < |o.changed| ==> o.changed[a] < |plan|) && cells == o.cells && r == Answer(plan, o)
      ensures held == map[]
    {
      hide Run, Items, PlanOf, EntriesIn, Tidy, Owns, MemberFine, Accepted;
      held := map[];
      if !doc.Object? { return Refused, map[]; }
      AcceptedIff(ctx, doc.members);
      var leaves := Leaves(doc.members);
      var planner := new Planner(leaves);
      var changedIdx := new nat[if leaves == 0 then 1 else leaves];
      var ok := planner.Build(ctx, doc.members);
      if !ok {
        planner.FreeAll();
        return Refused, planner.heap;
      }
      var plan := planner.View();
      RunOrder(cells, plan, faults);
      var err, n, restart := ApplyPlan(plan, faults, changedIdx);
      r := Applied(err, Paths(plan, changedIdx[..n]), restart);
      planner.FreeAll();
      held := planner.heap;
    }
  }

  lemma {:induction false} RunNothing(cells: Cells, faults: nat -> Fault)
    ensures Run(cells, [], faults) == Outcome(cells, [], false, Ok)
  {
  }

  lemma {:induction false} RunStep(cells: Cells, plan: seq<Entry>, faults: nat -> Fault, i: nat)
    requires i < |plan|
    ensures Run(cells, plan[..i + 1], faults) == RunOne(Run(cells, plan[..i], faults), plan[i], i, faults(i))
  {
    assert plan[..i + 1][..i] == plan[..i];
  }
}
