/**
 * The configuration store (components/espos_config/src/espos_config.c): descriptors, limits, the effective
 * value read over arbitrary storage, and the batch of writes and resets an import ends in.
 */
module ConfigStore {
  import opened Esp

  type int32 = x: int | -0x8000_0000 <= x < 0x8000_0000

  /** A float without its rounding: what `isnan`, `isinf` and the comparisons see. */
  datatype Float = Finite(x: real) | Infinite(negative: bool) | NaN

  datatype Value = Bool(b: bool) | Int(i: int32) | Num(f: Float) | Str(s: string) | Blob(bytes: seq<byte>)

  /** A key's type with its compiled-in default and limits; a blob has no default but the empty one. */
  datatype Kind =
    | BoolKind(yes: bool)
    | IntKind(def: int32, min: int32, max: int32)
    | FloatKind(start: Float, low: Option<real>, high: Option<real>)
    | StrKind(text: string, maxLen: nat, allowed: Option<seq<string>>)
    | BlobKind(maxLen: nat)

  datatype Key = Key(name: string, secret: bool, restart: bool, readOnly: bool, kind: Kind)

  datatype Namespace = Namespace(name: string, keys: seq<Key>)

  datatype Path = Path(ns: string, key: string)

  /** What storage holds under a name: any typed content, whether or not a descriptor would accept it. */
  datatype Cell = BoolCell(u: byte) | IntCell(i: int32) | FloatCell(f: Float) | StrCell(s: string) | BlobCell(bytes: seq<byte>)

  type Cells = map<Path, Cell>

  function Lookup(cells: Cells, p: Path): Option<Cell> {
    if p in cells then Some(cells[p]) else None
  }

  // ------------------------------------------------------------------ validation and reading

  /** `espos_config_validate`. */
  predicate Valid(kind: Kind, v: Value) {
    match kind
    case BoolKind(_) => v.Bool?
    case IntKind(_, min, max) => v.Int? && min <= v.i <= max
    case FloatKind(_, low, high) =>
      v.Num? && v.f.Finite? && (low.Some? ==> low.value <= v.f.x) && (high.Some? ==> v.f.x <= high.value)
    case StrKind(_, maxLen, allowed) => v.Str? && |v.s| <= maxLen && (allowed.Some? ==> v.s in allowed.value)
    case BlobKind(maxLen) => v.Blob? && |v.bytes| <= maxLen
  }

  function Default(kind: Kind): Value {
    match kind
    case BoolKind(yes) => Bool(yes)
    case IntKind(def, _, _) => Int(def)
    case FloatKind(start, _, _) => Num(start)
    case StrKind(text, _, _) => Str(text)
    case BlobKind(_) => Blob([])
  }

  /** `espos_config_read_effective`, type by type; a default string is copied into a buffer of the key's length. */
  function Effective(kind: Kind, cell: Option<Cell>): Value {
    match kind
    case BoolKind(yes) => (match cell case Some(BoolCell(u)) => if u <= 1 then Bool(u != 0) else Bool(yes) case _ => Bool(yes))
    case IntKind(def, min, max) => (match cell case Some(IntCell(i)) => if min <= i <= max then Int(i) else Int(def) case _ => Int(def))
    case FloatKind(start, _, _) => (match cell case Some(FloatCell(f)) => if Valid(kind, Num(f)) then Num(f) else Num(start) case _ => Num(start))
    case StrKind(text, maxLen, _) =>
      (match cell
       case Some(StrCell(s)) => if |s| <= maxLen && Valid(kind, Str(s)) then Str(s) else Str(Clip(text, maxLen))
       case _ => Str(Clip(text, maxLen)))
    case BlobKind(maxLen) => (match cell case Some(BlobCell(b)) => if |b| <= maxLen then Blob(b) else Blob([]) case _ => Blob([]))
  }

  /** The value a cell spells, when it spells one at all. */
  function Spelled(cell: Cell): Option<Value> {
    match cell
    case BoolCell(u) => if u <= 1 then Some(Bool(u == 1)) else None
    case IntCell(i) => Some(Int(i))
    case FloatCell(f) => Some(Num(f))
    case StrCell(s) => Some(Str(s))
    case BlobCell(b) => Some(Blob(b))
  }

  /** Whatever storage holds, a read gives the stored value if it meets the limits and the default otherwise. */
  lemma {:induction false} EffectiveIsStoredIfValid(kind: Kind, cell: Option<Cell>)
    ensures Effective(kind, cell) ==
            if cell.Some? && Spelled(cell.value).Some? && Valid(kind, Spelled(cell.value).value)
            then Spelled(cell.value).value else Effective(kind, None)
    ensures Valid(kind, Default(kind)) ==> Valid(kind, Effective(kind, cell)) && Effective(kind, None) == Default(kind)
  {
    match kind
    case BoolKind(_) =>
    case IntKind(_, _, _) =>
    case FloatKind(_, _, _) =>
    case StrKind(_, _, _) =>
    case BlobKind(_) =>
  }

  /** What a read gives, type by type: the default as it fits the read buffer, or what is stored if it is of the key's type
      and within its limits. A string must be one of the allowed ones where a list is set. */
  lemma {:induction false} ReadIsWithinLimits(kind: Kind, cell: Option<Cell>)
    ensures var v, unset := Effective(kind, cell), Effective(kind, None);
      match kind
      case BoolKind(yes) =>
        && unset == Bool(yes)
        && v == (if cell == Some(BoolCell(0)) then Bool(false) else if cell == Some(BoolCell(1)) then Bool(true) else unset)
      case IntKind(def, min, max) =>
        && unset == Int(def)
        && v == (if cell.Some? && cell.value.IntCell? && !(cell.value.i < min) && !(max < cell.value.i) then Int(cell.value.i) else unset)
      case FloatKind(start, low, high) =>
        && unset == Num(start)
        && v == (if cell.Some? && cell.value.FloatCell? && cell.value.f.Finite? && (low.None? || !(cell.value.f.x < low.value)) &&
                 (high.None? || !(high.value < cell.value.f.x)) then Num(cell.value.f) else unset)
      case StrKind(text, maxLen, allowed) =>
        && unset == Str(if |text| > maxLen then text[..maxLen] else text)
        && v == (if cell.Some? && cell.value.StrCell? && !(|cell.value.s| > maxLen) &&
                 (allowed.None? || exists j :: 0 <= j < |allowed.value| && allowed.value[j] == cell.value.s)
              then Str(cell.value.s) else unset)
      case BlobKind(maxLen) =>
        && unset == Blob([])
        && v == (if cell.Some? && cell.value.BlobCell? && !(|cell.value.bytes| > maxLen) then Blob(cell.value.bytes) else unset)
  {
  }

  /** `espos_config_validate`, with its walk through the allowed strings. */
  method Validate(kind: Kind, v: Value) returns (ok: bool)
    ensures ok == Valid(kind, v)
    ensures kind.StrKind? && v.Str? && |v.s| <= kind.maxLen && kind.allowed.Some? ==>
      (ok <==> exists j :: 0 <= j < |kind.allowed.value| && kind.allowed.value[j] == v.s)
  {
    match kind {
      case BoolKind(_) => return v.Bool?;
      case IntKind(_, min, max) => return v.Int? && min <= v.i <= max;
      case FloatKind(_, low, high) =>
        if !v.Num? || !v.f.Finite? || (low.Some? && v.f.x < low.value) || (high.Some? && v.f.x > high.value) { return false; }
        return true;
      case StrKind(_, maxLen, allowed) =>
        if !v.Str? || |v.s| > maxLen { return false; }
        if allowed.None? { return true; }
        for i := 0 to |allowed.value|
          invariant forall j :: 0 <= j < i ==> allowed.value[j] != v.s
        {
          if allowed.value[i] == v.s { return true; }
        }
        return false;
      case BlobKind(maxLen) => return v.Blob? && |v.bytes| <= maxLen;
    }
  }

  /** What a write leaves in storage; an empty blob is stored by erasing. */
  function Stored(v: Value): Option<Cell> {
    match v
    case Bool(b) => Some(BoolCell(if b then 1 else 0))
    case Int(i) => Some(IntCell(i))
    case Num(f) => Some(FloatCell(f))
    case Str(s) => Some(StrCell(s))
    case Blob(b) => if b == [] then None else Some(BlobCell(b))
  }

  /** A value that meets the limits reads back as itself. */
  lemma {:induction false} StoredReadsBack(kind: Kind, v: Value)
    requires Valid(kind, v)
    ensures Effective(kind, Stored(v)) == v
  {
    match kind
    case BoolKind(_) =>
    case IntKind(_, _, _) =>
    case FloatKind(_, _, _) =>
    case StrKind(_, _, _) =>
    case BlobKind(_) =>
  }

  /** The comparison in C: a NaN equals nothing. */
  predicate Same(a: Value, b: Value) {
    a == b && (a.Num? ==> !a.f.NaN?)
  }

  // ------------------------------------------------------------------ one planned change

  datatype Change = Reset | Write(v: Value)

  datatype Entry = Entry(path: Path, key: Key, change: Change)

  predicate EntryOk(e: Entry) {
    e.change.Write? ==> Valid(e.key.kind, e.change.v)
  }

  /** The value an entry aims at, as compared with the current one before it is written. */
  function Target(e: Entry): Value {
    if e.change.Reset? then Default(e.key.kind) else e.change.v
  }

  predicate Differs(cells: Cells, e: Entry) {
    !Same(Effective(e.key.kind, Lookup(cells, e.path)), Target(e))
  }

  function Put(cells: Cells, p: Path, cell: Option<Cell>): (r: Cells)
    ensures Lookup(r, p) == cell
    ensures forall q :: q != p ==> Lookup(r, q) == Lookup(cells, q)
  {
    if cell.Some? then cells[p := cell.value] else cells - {p}
  }

  function NewCell(e: Entry): Option<Cell> {
    if e.change.Reset? then None else Stored(e.change.v)
  }

  type Failure = e: Err | e != Ok witness InvalidArg

  /** How storage answers one write: it may fail before the cell changes, or only at the commit. */
  datatype Fault = Clean | SetFails(code: Failure) | CommitFails(code: Failure)

  function CodeOf(f: Fault): Err {
    if f.Clean? then Ok else f.code
  }

  /** A default a reset can report on: short enough to be read back whole, and equal to itself. */
  predicate Reportable(kind: Kind) {
    (kind.StrKind? ==> |kind.text| <= kind.maxLen) && (kind.FloatKind? ==> !kind.start.NaN?)
  }

  predicate ResetReports(kind: Kind, cell: Option<Cell>) {
    !Same(Effective(kind, cell), Default(kind))
  }

  /** A reset reports a change exactly when the effective value moves, for every stored content, iff the default is reportable. */
  lemma {:induction false} ResetReportsTruthIff(kind: Kind)
    ensures (forall cell :: ResetReports(kind, cell) <==> Effective(kind, cell) != Effective(kind, None)) <==> Reportable(kind)
  {
    if Reportable(kind) {
      forall cell: Option<Cell>
        ensures ResetReports(kind, cell) <==> Effective(kind, cell) != Effective(kind, None)
      {
        EffectiveIsStoredIfValid(kind, cell);
      }
    } else {
      assert ResetReports(kind, None);
    }
  }

  /** An entry that lands moves the effective value to its target, and its `changed` flag says whether that was a move. */
  lemma {:induction false} EntryEffect(cells: Cells, e: Entry)
    requires EntryOk(e) && Reportable(e.key.kind)
    ensures Effective(e.key.kind, NewCell(e)) == Target(e)
    ensures Differs(cells, e) <==> Effective(e.key.kind, Lookup(cells, e.path)) != Target(e)
  {
    if e.change.Write? { StoredReadsBack(e.key.kind, e.change.v); }
    else { EffectiveIsStoredIfValid(e.key.kind, Lookup(cells, e.path)); }
  }

  // ------------------------------------------------------------------ a whole plan

  datatype Outcome = Outcome(cells: Cells, changed: seq<nat>, restart: bool, err: Err)

  /** An entry is reported when it landed and aimed at another value than the current one. */
  predicate Reported(cells: Cells, e: Entry, f: Fault) {
    f.Clean? && Differs(cells, e)
  }

  function CellsAfter(cells: Cells, e: Entry, f: Fault): Cells {
    if f.SetFails? then cells else Put(cells, e.path, NewCell(e))
  }

  function RunOne(o: Outcome, e: Entry, i: nat, f: Fault): Outcome {
    var reported := Reported(o.cells, e, f);
    Outcome(CellsAfter(o.cells, e, f),
            if reported then o.changed + [i] else o.changed,
            o.restart || (reported && e.key.restart),
            if o.err == Ok then CodeOf(f) else o.err)
  }

  /** Entries in order, each met by its own fault; a failure does not stop the rest. */
  function Run(cells: Cells, plan: seq<Entry>, faults: nat -> Fault): Outcome
    decreases |plan|
  {
    if plan == [] then Outcome(cells, [], false, Ok)
    else
      var i := |plan| - 1;
      RunOne(Run(cells, plan[..i], faults), plan[i], i, faults(i))
  }

  predicate Distinct(plan: seq<Entry>) {
    forall i, j :: 0 <= i < j < |plan| ==> plan[i].path != plan[j].path
  }

  predicate Names(plan: seq<Entry>, p: Path) {
    exists i :: 0 <= i < |plan| && plan[i].path == p
  }

  /** Where a plan without duplicates leaves every cell. */
  lemma {:induction false} RunCells(cells: Cells, plan: seq<Entry>, faults: nat -> Fault)
    requires Distinct(plan)
    ensures forall p :: !Names(plan, p) ==> Lookup(Run(cells, plan, faults).cells, p) == Lookup(cells, p)
    ensures forall i :: 0 <= i < |plan| ==> Lookup(Run(cells, plan, faults).cells, plan[i].path) == CellAfter(cells, plan[i], faults(i))
    decreases |plan|
  {
    hide Effective, NewCell, Valid, Differs;
    if plan != [] {
      var i := |plan| - 1;
      var before := plan[..i];
      RunCells(cells, before, faults);
      assert !Names(before, plan[i].path);
      forall p | !Names(plan, p)
        ensures p != plan[i].path && !Names(before, p)
      {
        assert plan[i].path != p;
      }
      assert forall j :: 0 <= j < i ==> before[j] == plan[j];
    }
  }

  function CellAfter(cells: Cells, e: Entry, f: Fault): Option<Cell> {
    if f.SetFails? then Lookup(cells, e.path) else NewCell(e)
  }

  lemma {:induction false} ReportedLooksAtItsCell(a: Cells, b: Cells, e: Entry, f: Fault)
    requires Lookup(a, e.path) == Lookup(b, e.path)
    ensures Reported(a, e, f) == Reported(b, e, f)
  {
  }

  /** The last entry of a plan without duplicates is judged as if it came first. */
  lemma {:induction false} LastReported(cells: Cells, plan: seq<Entry>, faults: nat -> Fault)
    requires Distinct(plan) && plan != []
    ensures var i := |plan| - 1;
      Reported(Run(cells, plan[..i], faults).cells, plan[i], faults(i)) == Reported(cells, plan[i], faults(i))
  {
    hide Run, Reported;
    var i := |plan| - 1;
    RunCells(cells, plan[..i], faults);
    assert !Names(plan[..i], plan[i].path);
    ReportedLooksAtItsCell(Run(cells, plan[..i], faults).cells, cells, plan[i], faults(i));
  }

  /** Which entries a plan without duplicates reports, in terms of the store it started from. */
  lemma {:induction false} RunReports(cells: Cells, plan: seq<Entry>, faults: nat -> Fault)
    requires Distinct(plan)
    ensures forall i :: i in Run(cells, plan, faults).changed <==> 0 <= i < |plan| && Reported(cells, plan[i], faults(i))
    ensures Run(cells, plan, faults).restart <==>
            exists i :: 0 <= i < |plan| && Reported(cells, plan[i], faults(i)) && plan[i].key.restart
    decreases |plan|
  {
    hide Reported, CellsAfter;
    if plan != [] {
      var i := |plan| - 1;
      RunReports(cells, plan[..i], faults);
      LastReported(cells, plan, faults);
      if j :| 0 <= j < |plan| && Reported(cells, plan[j], faults(j)) && plan[j].key.restart {
        if j < i { assert plan[..i][j] == plan[j]; }
      }
    }
  }

  /** Reports come in plan order, each once, and the run succeeds exactly when storage never failed. */
  lemma {:induction false} RunOrder(cells: Cells, plan: seq<Entry>, faults: nat -> Fault)
    ensures var o := Run(cells, plan, faults);
      && (forall a :: 0 <= a < |o.changed| ==> o.changed[a] < |plan|)
      && (forall a, b :: 0 <= a < b < |o.changed| ==> o.changed[a] < o.changed[b])
      && (o.err == Ok <==> forall i: nat :: i < |plan| ==> faults(i).Clean?)
      && (o.err != Ok ==> exists i: nat :: i < |plan| && !faults(i).Clean? && o.err == faults(i).code && forall j: nat :: j < i ==> faults(j).Clean?)
    decreases |plan|
  {
    hide Effective, NewCell, Valid, Put, Differs;
    if plan != [] { RunOrder(cells, plan[..|plan| - 1], faults); }
  }
}
