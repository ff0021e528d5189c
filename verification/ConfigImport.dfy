/**
 * The meaning of `espos_config_import_json` (components/espos_config/src/espos_config_json.c) on a parsed
 * document: what each leaf asks for, the plan pass 1 keeps, and the overlay pass 2 leaves behind.
 */
module ConfigImport {
  import opened Esp
  import opened ConfigStore
  import Base64

  datatype Member = Member(name: string, value: Json)

  datatype Json = Null | Truth(b: bool) | Number(d: Float) | Text(s: string) | Array(items: seq<Json>) | Object(members: seq<Member>)

  const SENTINEL := "********"

  /** What an import works against; `narrow` is the cast of a JSON number to a float. */
  datatype Context = Context(schema: seq<Namespace>, ignoreUnknown: bool, narrow: Float -> Float)

  function FindNamespace(schema: seq<Namespace>, name: string): (r: Option<Namespace>)
    ensures r.Some? ==> r.value.name == name && r.value in schema
    ensures r.None? <==> forall n :: n in schema ==> n.name != name
  {
    if schema == [] then None else if schema[0].name == name then Some(schema[0]) else FindNamespace(schema[1..], name)
  }

  function FindKey(keys: seq<Key>, name: string): (r: Option<Key>)
    ensures r.Some? ==> r.value.name == name && r.value in keys
    ensures r.None? <==> forall k :: k in keys ==> k.name != name
  {
    if keys == [] then None else if keys[0].name == name then Some(keys[0]) else FindKey(keys[1..], name)
  }

  function KeyAt(schema: seq<Namespace>, p: Path): Option<Key> {
    var ns := FindNamespace(schema, p.ns);
    if ns.None? then None else FindKey(ns.value.keys, p.key)
  }

  /** `decode_value` up to its final validation. */
  function Decoded(kind: Kind, j: Json, narrow: Float -> Float): Option<Value> {
    match kind
    case BoolKind(_) => if j.Truth? then Some(Bool(j.b)) else None
    case IntKind(_, _, _) =>
      if j.Number? && j.d.Finite? && -2147483648.0 <= j.d.x <= 2147483647.0 && j.d.x == j.d.x.Floor as real
      then Some(Int(j.d.x.Floor)) else None
    case FloatKind(_, _, _) => if j.Number? then Some(Num(narrow(j.d))) else None
    case StrKind(_, _, _) => if j.Text? then Some(Str(j.s)) else None
    case BlobKind(_) =>
      if !j.Text? then None else
        var bytes := Base64.Decoded(j.s);
        if bytes.Some? then Some(Blob(bytes.value)) else None
  }

  // ------------------------------------------------------------------ what each leaf asks for

  /** A leaf leaves its key alone or changes it. */
  datatype Wish = Keep | Do(change: Change)

  datatype Item = Skip | Bad | Touch(path: Path, key: Key, wish: Wish)

  function Asked(k: Key, j: Json, narrow: Float -> Float): Option<Wish> {
    if k.readOnly then Some(Keep)
    else if j.Null? then Some(Do(Reset))
    else if k.secret && j == Text(SENTINEL) then Some(Keep)
    else
      var v := Decoded(k.kind, j, narrow);
      if v.Some? && Valid(k.kind, v.value) then Some(Do(Write(v.value))) else None
  }

  function LeafItem(ctx: Context, ns: Namespace, m: Member): Item {
    var k := FindKey(ns.keys, m.name);
    if k.None? then if ctx.ignoreUnknown then Skip else Bad
    else
      var wish := Asked(k.value, m.value, ctx.narrow);
      if wish.None? then Bad else Touch(Path(ns.name, m.name), k.value, wish.value)
  }

  function LeafItems(ctx: Context, ns: Namespace, members: seq<Member>): (r: seq<Item>)
    ensures |r| == |members|
  {
    seq(|members|, i requires 0 <= i < |members| => LeafItem(ctx, ns, members[i]))
  }

  function NamespaceItems(ctx: Context, m: Member): seq<Item> {
    var ns := FindNamespace(ctx.schema, m.name);
    if ns.None? then if ctx.ignoreUnknown then [] else [Bad]
    else if !m.value.Object? then [Bad]
    else LeafItems(ctx, ns.value, m.value.members)
  }

  function Items(ctx: Context, members: seq<Member>): seq<Item>
    decreases |members|
  {
    if members == [] then [] else
      var n := |members| - 1;
      Items(ctx, members[..n]) + NamespaceItems(ctx, members[n])
  }

  predicate Accepted(items: seq<Item>) {
    forall i :: 0 <= i < |items| ==> !items[i].Bad?
  }

  /** The leaves counted before the tables are allocated. */
  function Leaves(members: seq<Member>): nat
    decreases |members|
  {
    if members == [] then 0 else
      var n := |members| - 1;
      Leaves(members[..n]) + if members[n].value.Object? then |members[n].value.members| else 0
  }

  lemma {:induction false} LeavesGrow(members: seq<Member>, n: nat)
    requires n <= |members|
    ensures Leaves(members[..n]) <= Leaves(members)
    decreases |members|
  {
    if n == |members| { assert members[..n] == members; }
    else {
      var m := |members| - 1;
      LeavesGrow(members[..m], n);
      assert members[..m][..n] == members[..n];
    }
  }

  /** Every touch names a described key, and every write in it meets that key's limits. */
  predicate ItemOk(schema: seq<Namespace>, it: Item) {
    it.Touch? ==>
      && KeyAt(schema, it.path) == Some(it.key)
      && (it.wish.Do? ==> !it.key.readOnly && EntryOk(Entry(it.path, it.key, it.wish.change)))
  }

  predicate AllOk(schema: seq<Namespace>, items: seq<Item>) {
    forall i :: 0 <= i < |items| ==> ItemOk(schema, items[i])
  }

  lemma {:induction false} ItemsOk(ctx: Context, members: seq<Member>)
    ensures AllOk(ctx.schema, Items(ctx, members))
    decreases |members|
  {
    hide Valid, Decoded;
    if members != [] {
      var n := |members| - 1;
      ItemsOk(ctx, members[..n]);
      assert AllOk(ctx.schema, NamespaceItems(ctx, members[n]));
    }
  }

  // ------------------------------------------------------------------ the plan

  /** Drop every entry for a path, keeping the order of the others. */
  function Without(plan: seq<Entry>, p: Path): seq<Entry>
    decreases |plan|
  {
    if plan == [] then [] else
      var n := |plan| - 1;
      Without(plan[..n], p) + if plan[n].path == p then [] else [plan[n]]
  }

  function Kept(it: Item): seq<Entry> {
    if it.Touch? && it.wish.Do? then [Entry(it.path, it.key, it.wish.change)] else []
  }

  /** One leaf of pass 1: an earlier entry for the same key goes, the new one joins the end. */
  function Planned(plan: seq<Entry>, it: Item): seq<Entry> {
    if it.Touch? then Without(plan, it.path) + Kept(it) else plan
  }

  function PlanOf(items: seq<Item>): seq<Entry>
    decreases |items|
  {
    if items == [] then [] else
      var n := |items| - 1;
      Planned(PlanOf(items[..n]), items[n])
  }

  predicate Touches(it: Item, p: Path) {
    it.Touch? && it.path == p
  }

  predicate Touched(items: seq<Item>, p: Path) {
    exists i :: 0 <= i < |items| && Touches(items[i], p)
  }

  /** The last leaf that names a key: the one that wins. */
  function LastTouch(items: seq<Item>, p: Path): Option<Wish>
    decreases |items|
  {
    if items == [] then None else
      var n := |items| - 1;
      if Touches(items[n], p) then Some(items[n].wish) else LastTouch(items[..n], p)
  }

  /** The leaves no later leaf supersedes, read off in document order. */
  function LastOnes(items: seq<Item>): seq<Entry> {
    if items == [] then [] else
      (if items[0].Touch? && Touched(items[1..], items[0].path) then [] else Kept(items[0])) + LastOnes(items[1..])
  }

  lemma {:induction false} WithoutAppend(a: seq<Entry>, b: seq<Entry>, p: Path)
    ensures Without(a + b, p) == Without(a, p) + Without(b, p)
    decreases |b|
  {
    if b == [] { assert a + b == a; }
    else {
      var n := |b| - 1;
      WithoutAppend(a, b[..n], p);
      assert (a + b)[..|a + b| - 1] == a + b[..n];
      assert (a + b)[|a + b| - 1] == b[n];
    }
  }

  lemma {:induction false} WithoutStranger(plan: seq<Entry>, p: Path)
    requires !Names(plan, p)
    ensures Without(plan, p) == plan
    decreases |plan|
  {
    hide Names;
    if plan != [] {
      var n := |plan| - 1;
      StrangerToAll(plan, p);
      WithoutStranger(plan[..n], p);
      assert plan == plan[..n] + [plan[n]];
    }
  }

  lemma {:induction false} StrangerToAll(plan: seq<Entry>, p: Path)
    requires plan != [] && !Names(plan, p)
    ensures plan[|plan| - 1].path != p && !Names(plan[..|plan| - 1], p)
  {
    assert plan[|plan| - 1].path != p;
  }

  /** In a plan without duplicates, dropping a path is cutting out one slot. */
  lemma {:induction false} WithoutCuts(plan: seq<Entry>, i: nat)
    requires Distinct(plan) && i < |plan|
    ensures Without(plan, plan[i].path) == plan[..i] + plan[i + 1..]
  {
    hide Without, Distinct, Names;
    DistinctAround(plan, i);
    WithoutJoined(plan[..i], plan[i], plan[i + 1..]);
    assert plan == plan[..i] + ([plan[i]] + plan[i + 1..]);
  }

  lemma {:induction false} DistinctAround(plan: seq<Entry>, i: nat)
    requires Distinct(plan) && i < |plan|
    ensures !Names(plan[..i], plan[i].path) && !Names(plan[i + 1..], plan[i].path)
  {
  }

  lemma {:induction false} WithoutJoined(head: seq<Entry>, e: Entry, tail: seq<Entry>)
    requires !Names(head, e.path) && !Names(tail, e.path)
    ensures Without(head + ([e] + tail), e.path) == head + tail
  {
    hide Without, Names;
    WithoutAppend(head, [e] + tail, e.path);
    WithoutAppend([e], tail, e.path);
    WithoutOne(e, e.path);
    WithoutStranger(head, e.path);
    WithoutStranger(tail, e.path);
  }

  lemma {:induction false} WithoutOne(e: Entry, p: Path)
    ensures Without([e], p) == if e.path == p then [] else [e]
  {
  }

  /** Adding a leaf to a document supersedes the leaf it repeats and comes last. */
  lemma {:induction false} LastOnesSnoc(items: seq<Item>, it: Item)
    ensures LastOnes(items + [it]) == Planned(LastOnes(items), it)
    decreases |items|
  {
    hide Without;
    if items == [] {
      assert items + [it] == [it];
      if it.Touch? { WithoutStranger([], it.path); }
    } else {
      var rest := items[1..];
      assert (items + [it])[1..] == rest + [it];
      LastOnesSnoc(rest, it);
      var x := items[0];
      var head := if x.Touch? && Touched(rest, x.path) then [] else Kept(x);
      assert LastOnes(items) == head + LastOnes(rest);
      if x.Touch? { TouchedSnoc(rest, it, x.path); }
      if it.Touch? {
        WithoutAppend(head, LastOnes(rest), it.path);
        if head == [] { WithoutStranger(head, it.path); } else { WithoutOne(head[0], it.path); }
      }
    }
  }

  lemma {:induction false} TouchedSnoc(items: seq<Item>, it: Item, p: Path)
    ensures Touched(items + [it], p) <==> Touched(items, p) || Touches(it, p)
  {
    var all := items + [it];
    if Touched(items, p) {
      var i :| 0 <= i < |items| && Touches(items[i], p);
      assert Touches(all[i], p);
    }
    if Touches(it, p) { assert Touches(all[|items|], p); }
  }

  /** The remove-then-append plan is exactly the unsuperseded leaves in document order. */
  lemma {:induction false} PlanIsLastOnes(items: seq<Item>)
    ensures PlanOf(items) == LastOnes(items)
    decreases |items|
  {
    if items != [] {
      var n := |items| - 1;
      PlanIsLastOnes(items[..n]);
      LastOnesSnoc(items[..n], items[n]);
      assert items[..n] + [items[n]] == items;
    }
  }

  lemma {:induction false} WithoutKeeps(plan: seq<Entry>, p: Path)
    requires Distinct(plan)
    ensures Distinct(Without(plan, p)) && !Names(Without(plan, p), p)
    ensures forall e :: e in Without(plan, p) <==> e in plan && e.path != p
    decreases |plan|
  {
    if plan != [] {
      var n := |plan| - 1;
      WithoutKeeps(plan[..n], p);
      var cut := Without(plan[..n], p);
      forall i | 0 <= i < |cut| ensures cut[i].path != plan[n].path {
        assert cut[i] in plan[..n];
      }
      assert plan == plan[..n] + [plan[n]];
    }
  }

  /** One leaf keeps the plan free of duplicates and decides its own key. */
  lemma {:induction false} PlannedEffect(plan: seq<Entry>, it: Item)
    requires Distinct(plan)
    ensures Distinct(Planned(plan, it))
    ensures forall e :: e in Planned(plan, it) <==> if it.Touch? && e.path == it.path then e in Kept(it) else e in plan
  {
    if it.Touch? {
      WithoutKeeps(plan, it.path);
      var cut := Without(plan, it.path);
      forall i | 0 <= i < |cut| ensures cut[i].path != it.path { assert cut[i] in cut; }
    }
  }

  /** The plan holds, for each key, what the last leaf naming it asked for, and nothing twice. */
  lemma {:induction false} PlanContents(schema: seq<Namespace>, items: seq<Item>)
    requires AllOk(schema, items)
    ensures Distinct(PlanOf(items))
    ensures forall e :: e in PlanOf(items) <==> KeyAt(schema, e.path) == Some(e.key) && LastTouch(items, e.path) == Some(Do(e.change))
    decreases |items|
  {
    if items != [] {
      var n := |items| - 1;
      PlanContents(schema, items[..n]);
      PlannedEffect(PlanOf(items[..n]), items[n]);
      assert ItemOk(schema, items[n]);
    }
  }

  /** A key is in the plan exactly when its last leaf asks for a change. */
  lemma {:induction false} PlanNames(schema: seq<Namespace>, items: seq<Item>, p: Path)
    requires AllOk(schema, items) && KeyAt(schema, p).Some?
    ensures Names(PlanOf(items), p) <==> LastTouch(items, p).Some? && LastTouch(items, p).value.Do?
  {
    hide PlanOf, LastTouch, ItemOk;
    PlanContents(schema, items);
    var plan, wish := PlanOf(items), LastTouch(items, p);
    if wish.Some? && wish.value.Do? {
      var e := Entry(p, KeyAt(schema, p).value, wish.value.change);
      assert e in plan;
      var i :| 0 <= i < |plan| && plan[i] == e;
      assert plan[i].path == p;
    }
    if Names(plan, p) {
      var i :| 0 <= i < |plan| && plan[i].path == p;
      assert plan[i] in plan;
    }
  }

  lemma {:induction false} LastTouchOk(schema: seq<Namespace>, items: seq<Item>, p: Path)
    requires AllOk(schema, items) && LastTouch(items, p).Some?
    ensures KeyAt(schema, p).Some?
    ensures LastTouch(items, p).value.Do? ==> EntryOk(Entry(p, KeyAt(schema, p).value, LastTouch(items, p).value.change))
    ensures LastTouch(items, p).value.Do? ==> !KeyAt(schema, p).value.readOnly
    decreases |items|
  {
    var n := |items| - 1;
    assert ItemOk(schema, items[n]);
    if !Touches(items[n], p) { LastTouchOk(schema, items[..n], p); }
  }

  // ------------------------------------------------------------------ the document's own terms

  /** The JSON value spells v as a value of the kind, within its limits. */
  ghost predicate Spells(kind: Kind, j: Json, v: Value, narrow: Float -> Float) {
    match kind
    case BoolKind(_) => (j == Truth(true) && v == Bool(true)) || (j == Truth(false) && v == Bool(false))
    case IntKind(_, min, max) => v.Int? && j == Number(Finite(v.i as real)) && !(v.i < min) && !(max < v.i)
    case FloatKind(_, low, high) =>
      && j.Number? && v.Num? && v.f == narrow(j.d) && v.f.Finite?
      && (low.None? || !(v.f.x < low.value)) && (high.None? || !(high.value < v.f.x))
    case StrKind(_, maxLen, allowed) =>
      && v.Str? && j == Text(v.s) && !(|v.s| > maxLen)
      && (allowed.None? || exists i :: 0 <= i < |allowed.value| && allowed.value[i] == v.s)
    case BlobKind(maxLen) => v.Blob? && j.Text? && Base64.Decoded(j.s) == Some(v.bytes) && !(|v.bytes| > maxLen)
  }

  /** A leaf that leaves its key alone: the key is read-only, or a secret comes back as eight asterisks. */
  predicate LeavesAlone(k: Key, j: Json) {
    k.readOnly || (k.secret && j == Text(['*', '*', '*', '*', '*', '*', '*', '*']))
  }

  /** What a leaf asks of a described key, in the document's own terms. */
  lemma {:induction false} AskedIff(k: Key, j: Json, narrow: Float -> Float, v: Value)
    ensures Asked(k, j, narrow) == Some(Keep) <==> LeavesAlone(k, j)
    ensures Asked(k, j, narrow) == Some(Do(Reset)) <==> j == Null && !k.readOnly
    ensures Asked(k, j, narrow) == Some(Do(Write(v))) <==> !LeavesAlone(k, j) && j != Null && Spells(k.kind, j, v, narrow)
  {
    hide Base64.Decoded;
    assert SENTINEL == ['*', '*', '*', '*', '*', '*', '*', '*'];
    match k.kind
    case IntKind(_, _, _) => if v.Int? { assert (v.i as real).Floor == v.i; }
    case _ =>
  }

  ghost predicate LeafFine(ctx: Context, ns: Namespace, m: Member) {
    if forall k :: k in ns.keys ==> k.name != m.name then ctx.ignoreUnknown
    else exists k :: k in ns.keys && FindKey(ns.keys, m.name) == Some(k) &&
           (LeavesAlone(k, m.value) || m.value == Null || exists v :: Spells(k.kind, m.value, v, ctx.narrow))
  }

  ghost predicate MemberFine(ctx: Context, m: Member) {
    if forall n :: n in ctx.schema ==> n.name != m.name then ctx.ignoreUnknown
    else exists n :: n in ctx.schema && FindNamespace(ctx.schema, m.name) == Some(n) && m.value.Object? &&
           forall i :: 0 <= i < |m.value.members| ==> LeafFine(ctx, n, m.value.members[i])
  }

  lemma {:induction false} LeafFineIff(ctx: Context, ns: Namespace, m: Member)
    ensures LeafFine(ctx, ns, m) <==> !LeafItem(ctx, ns, m).Bad?
  {
    hide Asked, Spells;
    var k := FindKey(ns.keys, m.name);
    if k.Some? {
      var asked := Asked(k.value, m.value, ctx.narrow);
      AskedIff(k.value, m.value, ctx.narrow, Bool(true));
      if asked.Some? && asked.value.Do? && asked.value.change.Write? { AskedIff(k.value, m.value, ctx.narrow, asked.value.change.v); }
      if v :| Spells(k.value.kind, m.value, v, ctx.narrow) { AskedIff(k.value, m.value, ctx.narrow, v); }
    }
  }

  /** A document is accepted exactly if every namespace it names is described, or unknown ones are ignored, and is an object,
      and every leaf of it names a described key, or unknown ones are ignored, with a value that key can take. */
  lemma {:induction false} AcceptedIff(ctx: Context, members: seq<Member>)
    ensures Accepted(Items(ctx, members)) <==> forall i :: 0 <= i < |members| ==> MemberFine(ctx, members[i])
    decreases |members|
  {
    hide NamespaceItems, MemberFine;
    if members != [] {
      var n := |members| - 1;
      var m := members[n];
      AcceptedIff(ctx, members[..n]);
      MemberFineIff(ctx, m);
      AcceptedBoth(Items(ctx, members[..n]), NamespaceItems(ctx, m));
      assert forall i :: 0 <= i < n ==> members[..n][i] == members[i];
    }
  }

  lemma {:induction false} AcceptedBoth(a: seq<Item>, b: seq<Item>)
    ensures Accepted(a + b) <==> Accepted(a) && Accepted(b)
  {
    var all := a + b;
    if Accepted(all) {
      forall i | 0 <= i < |a| ensures !a[i].Bad? { assert all[i] == a[i]; }
      forall i | 0 <= i < |b| ensures !b[i].Bad? { assert all[|a| + i] == b[i]; }
    }
  }

  lemma {:induction false} MemberFineIff(ctx: Context, m: Member)
    ensures Accepted(NamespaceItems(ctx, m)) <==> MemberFine(ctx, m)
  {
    hide LeafItem, LeafFine;
    var ns, items := FindNamespace(ctx.schema, m.name), NamespaceItems(ctx, m);
    if ns.None? {
      if !ctx.ignoreUnknown { assert items[0].Bad?; }
    } else if !m.value.Object? {
      assert items[0].Bad?;
    } else {
      var leaves := m.value.members;
      forall i | 0 <= i < |leaves| ensures LeafFine(ctx, ns.value, leaves[i]) <==> !items[i].Bad? {
        LeafFineIff(ctx, ns.value, leaves[i]);
        assert items[i] == LeafItem(ctx, ns.value, leaves[i]);
      }
    }
  }

  /** The last value given under a name. */
  function LastIn(leaves: seq<Member>, name: string): Option<Json>
    decreases |leaves|
  {
    if leaves == [] then None else
      var n := |leaves| - 1;
      if leaves[n].name == name then Some(leaves[n].value) else LastIn(leaves[..n], name)
  }

  /** The last value a document gives for a path, over all objects of that namespace. */
  function LastLeaf(members: seq<Member>, p: Path): Option<Json>
    decreases |members|
  {
    if members == [] then None else
      var n := |members| - 1;
      var here := if members[n].name == p.ns && members[n].value.Object? then LastIn(members[n].value.members, p.key) else None;
      if here.Some? then here else LastLeaf(members[..n], p)
  }

  lemma {:induction false} LastTouchJoin(a: seq<Item>, b: seq<Item>, p: Path)
    ensures LastTouch(a + b, p) == if LastTouch(b, p).Some? then LastTouch(b, p) else LastTouch(a, p)
    decreases |b|
  {
    if b == [] { assert a + b == a; }
    else {
      var n := |b| - 1;
      LastTouchJoin(a, b[..n], p);
      assert (a + b)[..|a| + n] == a + b[..n] && (a + b)[|a| + n] == b[n];
    }
  }

  lemma {:induction false} LastTouchInLeaves(ctx: Context, ns: Namespace, leaves: seq<Member>, p: Path)
    requires Accepted(LeafItems(ctx, ns, leaves)) && p.ns == ns.name && FindKey(ns.keys, p.key).Some?
    ensures LastIn(leaves, p.key).Some? ==> Asked(FindKey(ns.keys, p.key).value, LastIn(leaves, p.key).value, ctx.narrow).Some?
    ensures LastTouch(LeafItems(ctx, ns, leaves), p) ==
            var j := LastIn(leaves, p.key);
            if j.None? then None else Asked(FindKey(ns.keys, p.key).value, j.value, ctx.narrow)
    decreases |leaves|
  {
    hide Asked;
    if leaves != [] {
      var n := |leaves| - 1;
      var items := LeafItems(ctx, ns, leaves);
      assert items[..n] == LeafItems(ctx, ns, leaves[..n]);
      LastTouchInLeaves(ctx, ns, leaves[..n], p);
      assert !items[n].Bad?;
    }
  }

  lemma {:induction false} StrangersUntouched(ctx: Context, ns: Namespace, leaves: seq<Member>, p: Path)
    requires p.ns != ns.name
    ensures LastTouch(LeafItems(ctx, ns, leaves), p) == None
    decreases |leaves|
  {
    hide Asked;
    if leaves != [] {
      var n := |leaves| - 1;
      assert LeafItems(ctx, ns, leaves)[..n] == LeafItems(ctx, ns, leaves[..n]);
      StrangersUntouched(ctx, ns, leaves[..n], p);
    }
  }

  /** The last word of an accepted document on a described key is what the last value given for it asks. */
  lemma {:induction false} LastTouchIsLastLeaf(ctx: Context, members: seq<Member>, p: Path)
    requires Accepted(Items(ctx, members)) && KeyAt(ctx.schema, p).Some?
    ensures LastLeaf(members, p).Some? ==> Asked(KeyAt(ctx.schema, p).value, LastLeaf(members, p).value, ctx.narrow).Some?
    ensures LastTouch(Items(ctx, members), p) ==
            var j := LastLeaf(members, p);
            if j.None? then None else Asked(KeyAt(ctx.schema, p).value, j.value, ctx.narrow)
    decreases |members|
  {
    hide Asked, LeafItems;
    if members != [] {
      var n := |members| - 1;
      var m := members[n];
      var before, last := Items(ctx, members[..n]), NamespaceItems(ctx, m);
      AcceptedBoth(before, last);
      LastTouchIsLastLeaf(ctx, members[..n], p);
      LastTouchJoin(before, last, p);
      var ns := FindNamespace(ctx.schema, m.name);
      if ns.Some? && m.value.Object? {
        if m.name == p.ns { LastTouchInLeaves(ctx, ns.value, m.value.members, p); }
        else { StrangersUntouched(ctx, ns.value, m.value.members, p); }
      }
    }
  }

  // ------------------------------------------------------------------ the overlay

  /** The old value, overlaid by the key's last occurrence in the document. */
  function Overlay(items: seq<Item>, cells: Cells, p: Path, kind: Kind): Value {
    match LastTouch(items, p)
    case Some(Do(Reset)) => Default(kind)
    case Some(Do(Write(v))) => v
    case _ => Effective(kind, Lookup(cells, p))
  }

  predicate ReportableSchema(schema: seq<Namespace>) {
    forall n, k :: n in schema && k in n.keys ==> Reportable(k.kind)
  }

  predicate Lists(plan: seq<Entry>, changed: seq<nat>, p: Path) {
    exists i :: i in changed && i < |plan| && plan[i].path == p
  }

  /** What became of one planned key: its effective value, and whether it is listed. */
  lemma {:induction false} EntryOutcome(cells: Cells, plan: seq<Entry>, faults: nat -> Fault, i: nat)
    requires Distinct(plan) && i < |plan| && EntryOk(plan[i]) && Reportable(plan[i].key.kind)
    ensures var o, e := Run(cells, plan, faults), plan[i];
      var before, after := Effective(e.key.kind, Lookup(cells, e.path)), Effective(e.key.kind, Lookup(o.cells, e.path));
      && after == (if faults(i).SetFails? then before else Target(e))
      && (Lists(plan, o.changed, e.path) <==> faults(i).Clean? && before != after)
  {
    hide Effective, Valid, Run, Differs, NewCell, Names;
    RunCells(cells, plan, faults);
    RunReports(cells, plan, faults);
    EntryEffect(cells, plan[i]);
    assert Lists(plan, Run(cells, plan, faults).changed, plan[i].path) <==> i in Run(cells, plan, faults).changed;
  }

  /** A key no entry names keeps its cell and is not listed. */
  lemma {:induction false} StrangerOutcome(cells: Cells, plan: seq<Entry>, faults: nat -> Fault, p: Path)
    requires Distinct(plan) && !Names(plan, p)
    ensures Lookup(Run(cells, plan, faults).cells, p) == Lookup(cells, p) && !Lists(plan, Run(cells, plan, faults).changed, p)
  {
    RunCells(cells, plan, faults);
  }

  /** The entry that decides a key, checked against its descriptor and the document's last word on it. */
  lemma {:induction false} DecidingEntry(ctx: Context, members: seq<Member>, p: Path) returns (i: nat)
    requires ReportableSchema(ctx.schema) && KeyAt(ctx.schema, p).Some? && Names(PlanOf(Items(ctx, members)), p)
    ensures var plan, key := PlanOf(Items(ctx, members)), KeyAt(ctx.schema, p).value;
      && Distinct(plan) && i < |plan| && plan[i].path == p && plan[i].key == key
      && LastTouch(Items(ctx, members), p) == Some(Do(plan[i].change))
      && EntryOk(plan[i]) && Reportable(key.kind)
  {
    hide Effective, Valid, Items, PlanOf, LastTouch;
    var items := Items(ctx, members);
    var plan := PlanOf(items);
    ItemsOk(ctx, members);
    PlanContents(ctx.schema, items);
    i :| 0 <= i < |plan| && plan[i].path == p;
    assert plan[i] in plan;
    LastTouchOk(ctx.schema, items, p);
  }

  /**
   * With storage that never fails, an accepted import leaves every described key at the overlay of its old value,
   * and lists a key as changed exactly when its effective value is another one than before.
   */
  lemma {:induction false} ImportIsOverlay(ctx: Context, members: seq<Member>, cells: Cells, faults: nat -> Fault, p: Path)
    requires ReportableSchema(ctx.schema) && KeyAt(ctx.schema, p).Some?
    requires Run(cells, PlanOf(Items(ctx, members)), faults).err == Ok
    ensures var items, kind := Items(ctx, members), KeyAt(ctx.schema, p).value.kind;
      var o := Run(cells, PlanOf(items), faults);
      && Effective(kind, Lookup(o.cells, p)) == Overlay(items, cells, p, kind)
      && (Lists(PlanOf(items), o.changed, p) <==> Effective(kind, Lookup(o.cells, p)) != Effective(kind, Lookup(cells, p)))
  {
    hide Effective, Valid, Items, PlanOf, Run, KeyAt, Names, ReportableSchema, Lists;
    var items := Items(ctx, members);
    var plan := PlanOf(items);
    ItemsOk(ctx, members);
    PlanNames(ctx.schema, items, p);
    if Names(plan, p) {
      var i := DecidingEntry(ctx, members, p);
      EntryOutcome(cells, plan, faults, i);
      RunOrder(cells, plan, faults);
    } else {
      PlanContents(ctx.schema, items);
      StrangerOutcome(cells, plan, faults, p);
    }
  }

  /**
   * The same in the document's own terms: a key not named, or left alone, keeps its value; null gives it the default; any
   * other value it is given last becomes its value, as the JSON spells it.
   */
  lemma {:induction false} ImportFollowsDocument(ctx: Context, members: seq<Member>, cells: Cells, faults: nat -> Fault, p: Path)
    requires ReportableSchema(ctx.schema) && KeyAt(ctx.schema, p).Some? && Accepted(Items(ctx, members))
    requires Run(cells, PlanOf(Items(ctx, members)), faults).err == Ok
    ensures var j, k := LastLeaf(members, p), KeyAt(ctx.schema, p).value;
      var before := Effective(k.kind, Lookup(cells, p));
      var after := Effective(k.kind, Lookup(Run(cells, PlanOf(Items(ctx, members)), faults).cells, p));
      if j.None? || LeavesAlone(k, j.value) then after == before
      else if j.value.Null? then after == Effective(k.kind, None)
      else Spells(k.kind, j.value, after, ctx.narrow)
  {
    hide Items, PlanOf, Run, Asked, LastTouch, LastLeaf, Accepted, Spells, KeyAt, ReportableSchema, Lists;
    ImportIsOverlay(ctx, members, cells, faults, p);
    LastTouchIsLastLeaf(ctx, members, p);
    var j, k := LastLeaf(members, p), KeyAt(ctx.schema, p).value;
    if j.Some? {
      AskedIff(k, j.value, ctx.narrow, Overlay(Items(ctx, members), cells, p, k.kind));
      ReportableKey(ctx.schema, p);
    }
  }

  lemma {:induction false} ReportableKey(schema: seq<Namespace>, p: Path)
    requires ReportableSchema(schema) && KeyAt(schema, p).Some?
    ensures Effective(KeyAt(schema, p).value.kind, None) == Default(KeyAt(schema, p).value.kind)
  {
  }

  /**
   * With storage that may fail at any write, each key ends at its old value or at its overlay, and a listed key did move:
   * a partial failure never invents a value and never reports a change that did not happen.
   */
  lemma {:induction false} FaultyImportIsPartial(ctx: Context, members: seq<Member>, cells: Cells, faults: nat -> Fault, p: Path)
    requires ReportableSchema(ctx.schema) && KeyAt(ctx.schema, p).Some?
    ensures var items, kind := Items(ctx, members), KeyAt(ctx.schema, p).value.kind;
      var o := Run(cells, PlanOf(items), faults);
      var before, after := Effective(kind, Lookup(cells, p)), Effective(kind, Lookup(o.cells, p));
      && (after == before || after == Overlay(items, cells, p, kind))
      && (Lists(PlanOf(items), o.changed, p) ==> after != before)
      && (after != before && !Lists(PlanOf(items), o.changed, p) ==> o.err != Ok)
  {
    hide Effective, Valid, Items, PlanOf, Run, KeyAt, Names, ReportableSchema, Lists;
    var items := Items(ctx, members);
    var plan := PlanOf(items);
    if Names(plan, p) {
      var i := DecidingEntry(ctx, members, p);
      EntryOutcome(cells, plan, faults, i);
      RunOrder(cells, plan, faults);
    } else {
      ItemsOk(ctx, members);
      PlanContents(ctx.schema, items);
      StrangerOutcome(cells, plan, faults, p);
    }
  }
}
