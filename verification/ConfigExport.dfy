/**
 * The export of a store (components/espos_config/src/espos_config_json.c:26-164) and what importing it does:
 * into the store it came from, and into any other store of the same schema.
 */
module ConfigExport {
  import opened Esp
  import opened ConfigStore
  import opened ConfigImport
  import Base64

  /** How to write a document: secrets shown or redacted, and the decimal that stands for a float. */
  datatype Style = Style(secrets: bool, shortest: real -> real)

  /** `value_to_json` as the text carries it: JSON has no NaN and no infinity, they are printed as null. */
  function Shown(k: Key, v: Value, style: Style): Json {
    match v
    case Bool(b) => Truth(b)
    case Int(i) => Number(Finite(i as real))
    case Num(f) => if f.Finite? then Number(Finite(style.shortest(f.x))) else Null
    case Str(s) => if k.secret && !style.secrets && s != "" then Text(SENTINEL) else Text(s)
    case Blob(b) => if k.secret && !style.secrets && b != [] then Text(SENTINEL) else Text(Base64.Encoded(b))
  }

  /** A key of a store as the export writes it. */
  function KeyJson(cells: Cells, ns: string, k: Key, style: Style): Member {
    Member(k.name, Shown(k, Effective(k.kind, Lookup(cells, Path(ns, k.name))), style))
  }

  function NamespaceJson(cells: Cells, ns: Namespace, style: Style): (r: Member)
    ensures r.name == ns.name && r.value.Object? && |r.value.members| == |ns.keys|
    ensures forall i :: 0 <= i < |ns.keys| ==> r.value.members[i] == KeyJson(cells, ns.name, ns.keys[i], style)
  {
    Member(ns.name, Object(seq(|ns.keys|, i requires 0 <= i < |ns.keys| => KeyJson(cells, ns.name, ns.keys[i], style))))
  }

  function ExportOf(cells: Cells, chosen: seq<Namespace>, style: Style): (r: seq<Member>)
    ensures |r| == |chosen| && forall i :: 0 <= i < |chosen| ==> r[i] == NamespaceJson(cells, chosen[i], style)
  {
    seq(|chosen|, i requires 0 <= i < |chosen| => NamespaceJson(cells, chosen[i], style))
  }

  /** The namespaces an export covers: all of them, or the one asked for. */
  function Chosen(schema: seq<Namespace>, only: Option<string>): Option<seq<Namespace>> {
    if only.None? then Some(schema) else
      var ns := FindNamespace(schema, only.value);
      if ns.None? then None else Some([ns.value])
  }

  predicate UniqueNames(schema: seq<Namespace>) {
    && DistinctNames(schema)
    && (forall n, i, j :: n in schema && 0 <= i < j < |n.keys| ==> n.keys[i].name != n.keys[j].name)
  }

  /** `export_ns`: every key of a namespace, appended in table order. */
  method ExportNamespace(cells: Cells, ns: Namespace, style: Style) returns (r: Json)
    ensures r == NamespaceJson(cells, ns, style).value
  {
    hide Effective, Shown;
    var members := [];
    for i := 0 to |ns.keys|
      invariant members == NamespaceJson(cells, ns, style).value.members[..i]
    {
      members := members + [KeyJson(cells, ns.name, ns.keys[i], style)];
    }
    r := Object(members);
  }

  /** `espos_config_export_json`: walk all namespaces, skipping all but the one asked for. */
  method Export(cells: Cells, schema: seq<Namespace>, only: Option<string>, style: Style) returns (err: Err, r: Json)
    requires UniqueNames(schema)
    ensures err == if Chosen(schema, only).Some? then Ok else NotFound
    ensures err == Ok ==> r == Object(ExportOf(cells, Chosen(schema, only).value, style))
    ensures only.None? ==> err == Ok && r == Object(ExportOf(cells, schema, style))
    ensures only.Some? ==> (err == Ok <==> exists n :: n in schema && n.name == only.value)
    ensures only.Some? && err == Ok ==> exists n :: n in schema && n.name == only.value && r == Object(ExportOf(cells, [n], style))
  {
    hide Effective, Shown, NamespaceJson;
    r := Null;
    if only.Some? && FindNamespace(schema, only.value).None? { return NotFound, Null; }
    var members := [];
    for i := 0 to |schema|
      invariant members == ExportOf(cells, Covered(schema[..i], only), style)
    {
      assert schema[..i + 1][..i] == schema[..i];
      if only.None? || schema[i].name == only.value {
        var o := ExportNamespace(cells, schema[i], style);
        members := members + [Member(schema[i].name, o)];
      }
    }
    assert schema[..|schema|] == schema;
    CoveredIsChosen(schema, only);
    return Ok, Object(members);
  }

  /** The namespaces the walk does not skip. */
  function Covered(schema: seq<Namespace>, only: Option<string>): seq<Namespace>
    decreases |schema|
  {
    if schema == [] then [] else
      var n := |schema| - 1;
      Covered(schema[..n], only) + if only.None? || schema[n].name == only.value then [schema[n]] else []
  }

  lemma {:induction false} CoveredIsChosen(schema: seq<Namespace>, only: Option<string>)
    requires UniqueNames(schema) && Chosen(schema, only).Some?
    ensures Covered(schema, only) == Chosen(schema, only).value
  {
    hide Covered;
    if only.None? { CoveredAll(schema); } else {
      var i := IndexOfNamespace(schema, only.value);
      FindOwnNamespace(schema, i);
      CoveredOne(schema, i);
    }
  }

  lemma {:induction false} CoveredAll(schema: seq<Namespace>)
    ensures Covered(schema, None) == schema
    decreases |schema|
  {
    if schema != [] { CoveredAll(schema[..|schema| - 1]); }
  }

  lemma {:induction false} CoveredNone(schema: seq<Namespace>, name: string)
    requires forall n :: n in schema ==> n.name != name
    ensures Covered(schema, Some(name)) == []
    decreases |schema|
  {
    if schema != [] { CoveredNone(schema[..|schema| - 1], name); }
  }

  lemma {:induction false} CoveredOne(schema: seq<Namespace>, i: nat)
    requires i < |schema| && DistinctNames(schema)
    ensures Covered(schema, Some(schema[i].name)) == [schema[i]]
    decreases |schema|
  {
    var n := |schema| - 1;
    var rest := schema[..n];
    if i < n {
      CoveredOne(rest, i);
      assert rest[i] == schema[i];
    } else {
      assert forall j :: 0 <= j < n ==> rest[j].name != schema[n].name;
      CoveredNone(rest, schema[n].name);
    }
  }

  predicate DistinctNames(schema: seq<Namespace>) {
    forall i, j :: 0 <= i < j < |schema| ==> schema[i].name != schema[j].name
  }

  lemma {:induction false} IndexOfNamespace(schema: seq<Namespace>, name: string) returns (i: nat)
    requires FindNamespace(schema, name).Some?
    ensures i < |schema| && schema[i].name == name
  {
    var ns := FindNamespace(schema, name).value;
    i :| 0 <= i < |schema| && schema[i] == ns;
  }

  // ------------------------------------------------------------------ names find their own descriptors

  lemma {:induction false} FindOwnNamespace(schema: seq<Namespace>, i: nat)
    requires i < |schema| && DistinctNames(schema)
    ensures FindNamespace(schema, schema[i].name) == Some(schema[i])
  {
    if i > 0 {
      assert schema[0].name != schema[i].name;
      assert schema[1..][i - 1] == schema[i];
      FindOwnNamespace(schema[1..], i - 1);
    }
  }

  lemma {:induction false} FindOwnKey(keys: seq<Key>, i: nat)
    requires i < |keys| && forall a, b :: 0 <= a < b < |keys| ==> keys[a].name != keys[b].name
    ensures FindKey(keys, keys[i].name) == Some(keys[i])
  {
    if i > 0 {
      assert keys[0].name != keys[i].name;
      assert keys[1..][i - 1] == keys[i];
      FindOwnKey(keys[1..], i - 1);
    }
  }

  lemma {:induction false} OwnKey(schema: seq<Namespace>, n: Namespace, j: nat)
    requires UniqueNames(schema) && n in schema && j < |n.keys|
    ensures FindNamespace(schema, n.name) == Some(n) && FindKey(n.keys, n.keys[j].name) == Some(n.keys[j])
  {
    var i :| 0 <= i < |schema| && schema[i] == n;
    FindOwnNamespace(schema, i);
    FindOwnKey(n.keys, j);
  }

  // ------------------------------------------------------------------ what an exported key asks for

  predicate ValidDefaults(schema: seq<Namespace>) {
    forall n, k :: n in schema && k in n.keys ==> Valid(k.kind, Default(k.kind))
  }

  /** The text of each exported float reads back as that float. */
  predicate FloatsSurvive(cells: Cells, schema: seq<Namespace>, style: Style, narrow: Float -> Float) {
    forall n, k :: n in schema && k in n.keys ==> FloatSurvives(Effective(k.kind, Lookup(cells, Path(n.name, k.name))), style, narrow)
  }

  predicate FloatSurvives(v: Value, style: Style, narrow: Float -> Float) {
    v.Num? && v.f.Finite? ==> narrow(Finite(style.shortest(v.f.x))) == v.f
  }

  /** A key that an import of its own export leaves alone: read-only, or written as the sentinel. */
  predicate Untouched(k: Key, v: Value, style: Style) {
    k.readOnly || (k.secret && Shown(k, v, style) == Text(SENTINEL))
  }

  /** Which keys that is: the read-only ones, and the secrets that hold something and are redacted, or hold the very text
      that stands for a redacted one. */
  lemma {:induction false} UntouchedIff(k: Key, v: Value, style: Style)
    ensures Untouched(k, v, style) <==>
      || k.readOnly
      || (k.secret && v.Str? && (v.s == "********" || (!style.secrets && v.s != "")))
      || (k.secret && v.Blob? && !style.secrets && v.bytes != [])
  {
    hide Base64.Encoded;
    if v.Blob? { NotSentinel(v.bytes); }
  }

  /** No blob's text is eight asterisks. */
  lemma {:induction false} NotSentinel(bytes: seq<byte>)
    ensures Base64.Encoded(bytes) != SENTINEL
  {
    hide Base64.Encoded, Base64.Bytes, Base64.Values;
    Base64.DecodeOfEncode(bytes);
    SentinelIsNoBase64();
  }

  lemma {:induction false} SentinelIsNoBase64()
    ensures Base64.Decoded(SENTINEL) == None
  {
    assert Base64.Stripped(SENTINEL) == SENTINEL;
    assert !Base64.IsLetter(SENTINEL[0]);
  }

  function EchoWish(k: Key, v: Value, style: Style): Wish {
    if Untouched(k, v, style) then Keep else Do(Write(v))
  }

  /** Importing what the export wrote for a value asks for that very value, or leaves the key alone. */
  lemma {:induction false} AskedOfShown(k: Key, v: Value, style: Style, narrow: Float -> Float)
    requires Valid(k.kind, v) && FloatSurvives(v, style, narrow)
    ensures Asked(k, Shown(k, v, style), narrow) == Some(EchoWish(k, v, style))
  {
    hide Base64.Decoded, Base64.Encoded;
    match v
    case Blob(b) => Base64.DecodeOfEncode(b);
    case Int(i) => assert (i as real).Floor == i;
    case _ =>
  }

  // ------------------------------------------------------------------ the items of an exported document

  lemma {:induction false} ItemsIn(ctx: Context, members: seq<Member>, it: Item)
    ensures it in Items(ctx, members) <==> exists i :: 0 <= i < |members| && it in NamespaceItems(ctx, members[i])
    decreases |members|
  {
    hide NamespaceItems;
    if members != [] {
      var n := |members| - 1;
      ItemsIn(ctx, members[..n], it);
      if i :| 0 <= i < |members| && it in NamespaceItems(ctx, members[i]) {
        if i < n { assert members[..n][i] == members[i]; }
      }
      if it in Items(ctx, members[..n]) {
        var i :| 0 <= i < n && it in NamespaceItems(ctx, members[..n][i]);
        assert members[i] == members[..n][i];
      }
    }
  }

  /** A document's source: the namespaces of a schema, as one store's export wrote them. */
  datatype Source = Source(cells: Cells, chosen: seq<Namespace>, style: Style)

  predicate Legible(src: Source, ctx: Context) {
    && UniqueNames(ctx.schema) && ValidDefaults(ctx.schema)
    && (forall n :: n in src.chosen ==> n in ctx.schema)
    && FloatsSurvive(src.cells, ctx.schema, src.style, ctx.narrow)
  }

  function ValueIn(cells: Cells, ns: string, k: Key): Value {
    Effective(k.kind, Lookup(cells, Path(ns, k.name)))
  }

  function EchoItem(src: Source, ns: string, k: Key): Item {
    Touch(Path(ns, k.name), k, EchoWish(k, ValueIn(src.cells, ns, k), src.style))
  }

  lemma {:induction false} ExportedLeaf(src: Source, ctx: Context, n: Namespace, j: nat)
    requires Legible(src, ctx) && n in src.chosen && j < |n.keys|
    ensures LeafItem(ctx, n, KeyJson(src.cells, n.name, n.keys[j], src.style)) == EchoItem(src, n.name, n.keys[j])
  {
    hide Effective, Valid, Shown, EchoWish, Asked, Default, UniqueNames;
    var k := n.keys[j];
    OwnKey(ctx.schema, n, j);
    assert k in n.keys && n in ctx.schema;
    EffectiveIsStoredIfValid(k.kind, Lookup(src.cells, Path(n.name, k.name)));
    AskedOfShown(k, ValueIn(src.cells, n.name, k), src.style, ctx.narrow);
  }

  lemma {:induction false} ExportedNamespace(src: Source, ctx: Context, n: Namespace)
    requires Legible(src, ctx) && n in src.chosen
    ensures var items := NamespaceItems(ctx, NamespaceJson(src.cells, n, src.style));
      |items| == |n.keys| && forall j :: 0 <= j < |n.keys| ==> items[j] == EchoItem(src, n.name, n.keys[j])
  {
    hide LeafItem, EchoItem, KeyJson;
    var i :| 0 <= i < |ctx.schema| && ctx.schema[i] == n;
    FindOwnNamespace(ctx.schema, i);
    forall j | 0 <= j < |n.keys|
      ensures LeafItem(ctx, n, KeyJson(src.cells, n.name, n.keys[j], src.style)) == EchoItem(src, n.name, n.keys[j])
    {
      ExportedLeaf(src, ctx, n, j);
    }
  }

  predicate Exported(src: Source, it: Item) {
    exists n, k :: n in src.chosen && k in n.keys && it == EchoItem(src, n.name, k)
  }

  /** Every leaf of an exported document is understood, and each covered key has one. */
  lemma {:induction false} ExportedItems(src: Source, ctx: Context, it: Item)
    requires Legible(src, ctx)
    ensures it in Items(ctx, ExportOf(src.cells, src.chosen, src.style)) <==> Exported(src, it)
  {
    hide EchoItem, Legible, Items, NamespaceItems, NamespaceJson;
    var members := ExportOf(src.cells, src.chosen, src.style);
    ItemsIn(ctx, members, it);
    if i :| 0 <= i < |members| && it in NamespaceItems(ctx, members[i]) {
      var n := src.chosen[i];
      ExportedNamespace(src, ctx, n);
      var j :| 0 <= j < |n.keys| && it == EchoItem(src, n.name, n.keys[j]);
      assert n.keys[j] in n.keys;
    }
    if n, k :| n in src.chosen && k in n.keys && it == EchoItem(src, n.name, k) {
      ExportedNamespace(src, ctx, n);
      var i :| 0 <= i < |src.chosen| && src.chosen[i] == n;
      var j :| 0 <= j < |n.keys| && n.keys[j] == k;
      assert NamespaceItems(ctx, members[i])[j] == it;
    }
  }

  /** If every leaf for a key says the same, so does the last. */
  lemma {:induction false} LastOfMany(items: seq<Item>, p: Path, w: Wish)
    requires forall it :: it in items && Touches(it, p) ==> it.wish == w
    ensures LastTouch(items, p) == if exists it :: it in items && Touches(it, p) then Some(w) else None
    decreases |items|
  {
    if items != [] {
      var n := |items| - 1;
      assert items[n] in items;
      LastOfMany(items[..n], p, w);
      if it :| it in items && Touches(it, p) { assert it == items[n] || it in items[..n]; }
    }
  }

  predicate Covers(chosen: seq<Namespace>, p: Path) {
    FindNamespace(chosen, p.ns).Some?
  }

  /** The document's last word on a key is its exported value, or to leave it alone. */
  lemma {:induction false} ExportedTouch(src: Source, ctx: Context, p: Path)
    requires Legible(src, ctx) && KeyAt(ctx.schema, p).Some?
    ensures var k, items := KeyAt(ctx.schema, p).value, Items(ctx, ExportOf(src.cells, src.chosen, src.style));
      LastTouch(items, p) == if Covers(src.chosen, p) then Some(EchoWish(k, ValueIn(src.cells, p.ns, k), src.style)) else None
  {
    hide EchoWish, ValueIn, Items, LastTouch, Legible, Exported, KeyAt, Covers;
    var k, items := KeyAt(ctx.schema, p).value, Items(ctx, ExportOf(src.cells, src.chosen, src.style));
    var w := EchoWish(k, ValueIn(src.cells, p.ns, k), src.style);
    forall it | it in items && Touches(it, p)
      ensures it == EchoItem(src, p.ns, k) && Covers(src.chosen, p)
    {
      ExportedItems(src, ctx, it);
      ExportedHere(src, ctx, p, it);
    }
    LastOfMany(items, p, w);
    if Covers(src.chosen, p) {
      var it := EchoItem(src, p.ns, k);
      CoveredKey(src, ctx, p);
      ExportedItems(src, ctx, it);
      assert it in items && Touches(it, p);
    }
  }

  /** A leaf that names a described key is that key's own. */
  lemma {:induction false} ExportedHere(src: Source, ctx: Context, p: Path, it: Item)
    requires Legible(src, ctx) && KeyAt(ctx.schema, p).Some? && Exported(src, it) && Touches(it, p)
    ensures it == EchoItem(src, p.ns, KeyAt(ctx.schema, p).value) && Covers(src.chosen, p)
  {
    hide EchoWish, ValueIn, UniqueNames, ValidDefaults, FloatsSurvive;
    var n, k :| n in src.chosen && k in n.keys && it == EchoItem(src, n.name, k);
    var j :| 0 <= j < |n.keys| && n.keys[j] == k;
    OwnKey(ctx.schema, n, j);
  }

  lemma {:induction false} CoveredKey(src: Source, ctx: Context, p: Path)
    requires Legible(src, ctx) && KeyAt(ctx.schema, p).Some? && Covers(src.chosen, p)
    ensures var it := EchoItem(src, p.ns, KeyAt(ctx.schema, p).value); Exported(src, it) && Touches(it, p)
  {
    hide EchoWish, ValueIn, ValidDefaults, FloatsSurvive;
    var n := FindNamespace(src.chosen, p.ns).value;
    var i :| 0 <= i < |ctx.schema| && ctx.schema[i] == n;
    FindOwnNamespace(ctx.schema, i);
    assert KeyAt(ctx.schema, p).value in n.keys;
  }

  lemma {:induction false} ExportAccepted(src: Source, ctx: Context)
    requires Legible(src, ctx)
    ensures Accepted(Items(ctx, ExportOf(src.cells, src.chosen, src.style)))
  {
    hide EchoWish, ValueIn, Items, Legible;
    var items := Items(ctx, ExportOf(src.cells, src.chosen, src.style));
    forall i | 0 <= i < |items| ensures !items[i].Bad? {
      ExportedItems(src, ctx, items[i]);
    }
  }

  // ------------------------------------------------------------------ main results

  /**
   * Restoring one store's export into any other store of the schema is accepted and, once storage took every write,
   * copies each covered key's effective value, except the keys it must leave alone.
   */
  lemma {:induction false} RestoreCopies(src: Source, ctx: Context, cells: Cells, faults: nat -> Fault, p: Path)
    requires Legible(src, ctx) && KeyAt(ctx.schema, p).Some?
    ensures var items, k := Items(ctx, ExportOf(src.cells, src.chosen, src.style)), KeyAt(ctx.schema, p).value;
      var o, exported := Run(cells, PlanOf(items), faults), ValueIn(src.cells, p.ns, k);
      var copied := Covers(src.chosen, p) && !Untouched(k, exported, src.style);
      && Accepted(items)
      && (o.err == Ok ==> ValueIn(o.cells, p.ns, k) == if copied then exported else ValueIn(cells, p.ns, k))
  {
    hide Legible, Items, PlanOf, Run, LastTouch, Effective, Untouched, Covers, ValidDefaults, ReportableSchema;
    var members := ExportOf(src.cells, src.chosen, src.style);
    ExportAccepted(src, ctx);
    LegibleSchema(src, ctx);
    if Run(cells, PlanOf(Items(ctx, members)), faults).err == Ok {
      ImportIsOverlay(ctx, members, cells, faults, p);
      ExportedTouch(src, ctx, p);
      KeyHasName(ctx.schema, p);
    }
  }

  lemma {:induction false} LegibleSchema(src: Source, ctx: Context)
    requires Legible(src, ctx)
    ensures ReportableSchema(ctx.schema)
  {
    forall n, k | n in ctx.schema && k in n.keys ensures Reportable(k.kind) {
      assert Valid(k.kind, Default(k.kind));
    }
  }

  lemma {:induction false} KeyHasName(schema: seq<Namespace>, p: Path)
    requires KeyAt(schema, p).Some?
    ensures p == Path(p.ns, KeyAt(schema, p).value.name)
  {
  }

  /** Whatever storage held and however it fails, importing a store's own export moves no effective value. */
  lemma {:induction false} OwnExportMovesNothing(src: Source, ctx: Context, faults: nat -> Fault, p: Path)
    requires Legible(src, ctx) && KeyAt(ctx.schema, p).Some?
    ensures var plan, kind := PlanOf(Items(ctx, ExportOf(src.cells, src.chosen, src.style))), KeyAt(ctx.schema, p).value.kind;
      var o := Run(src.cells, plan, faults);
      Effective(kind, Lookup(o.cells, p)) == Effective(kind, Lookup(src.cells, p)) && !Lists(plan, o.changed, p)
  {
    hide Legible, Items, PlanOf, Run, LastTouch, Effective, Untouched, Covers, ReportableSchema, Lists;
    LegibleSchema(src, ctx);
    FaultyImportIsPartial(ctx, ExportOf(src.cells, src.chosen, src.style), src.cells, faults, p);
    ExportedTouch(src, ctx, p);
    KeyHasName(ctx.schema, p);
  }

  /** Importing a store's own export, redacted or not, is accepted and reports no change. */
  lemma {:induction false} OwnExportRoundTrip(src: Source, ctx: Context, faults: nat -> Fault)
    requires Legible(src, ctx)
    ensures var items := Items(ctx, ExportOf(src.cells, src.chosen, src.style));
      Accepted(items) && Run(src.cells, PlanOf(items), faults).changed == []
  {
    hide Legible, Items, PlanOf, Run, Effective;
    var items := Items(ctx, ExportOf(src.cells, src.chosen, src.style));
    var plan := PlanOf(items);
    var o := Run(src.cells, plan, faults);
    ExportAccepted(src, ctx);
    if o.changed != [] {
      var i := o.changed[0];
      RunOrder(src.cells, plan, faults);
      ItemsOk(ctx, ExportOf(src.cells, src.chosen, src.style));
      PlanContents(ctx.schema, items);
      assert plan[i] in plan && Lists(plan, o.changed, plan[i].path);
      OwnExportMovesNothing(src, ctx, faults, plan[i].path);
      assert false;
    }
  }

  /** Two values a redacted export must not tell apart. */
  predicate Alike(k: Key, a: Value, b: Value) {
    || a == b
    || (k.secret && a.Str? && b.Str? && a.s != "" && b.s != "")
    || (k.secret && a.Blob? && b.Blob? && a.bytes != [] && b.bytes != [])
  }

  /** A redacted export is the same document for any two stores that differ only in the contents of set secrets. */
  lemma {:induction false} RedactedExportHidesSecrets(a: Cells, b: Cells, chosen: seq<Namespace>, style: Style)
    requires !style.secrets
    requires forall n, k :: n in chosen && k in n.keys ==> Alike(k, ValueIn(a, n.name, k), ValueIn(b, n.name, k))
    ensures ExportOf(a, chosen, style) == ExportOf(b, chosen, style)
  {
    hide Effective;
    forall i | 0 <= i < |chosen| ensures NamespaceJson(a, chosen[i], style) == NamespaceJson(b, chosen[i], style) {
      var n := chosen[i];
      forall j | 0 <= j < |n.keys| ensures KeyJson(a, n.name, n.keys[j], style) == KeyJson(b, n.name, n.keys[j], style) {
        assert n in chosen && n.keys[j] in n.keys;
        assert Alike(n.keys[j], ValueIn(a, n.name, n.keys[j]), ValueIn(b, n.name, n.keys[j]));
      }
    }
  }

  /**
   * The exact condition on a descriptor: whatever storage holds, the exported value is importable iff the import leaves an
   * unset key alone, or the default it reads as meets the key's own limits, or that default is no finite number, which
   * the export writes as null and the import takes for a reset. Floats count as far as their text reads back.
   */
  lemma {:induction false} ExportImportableIff(k: Key, style: Style, narrow: Float -> Float)
    requires FloatSurvives(Effective(k.kind, None), style, narrow)
    ensures (forall cell :: FloatSurvives(Effective(k.kind, cell), style, narrow) ==>
               Asked(k, Shown(k, Effective(k.kind, cell), style), narrow).Some?) <==>
            var unset := Effective(k.kind, None);
            Untouched(k, unset, style) || Valid(k.kind, unset) || (unset.Num? && !unset.f.Finite?)
  {
    hide Base64.Decoded, Base64.Encoded;
    var unset := Effective(k.kind, None);
    forall cell | FloatSurvives(Effective(k.kind, cell), style, narrow)
      ensures Effective(k.kind, cell) == unset || Asked(k, Shown(k, Effective(k.kind, cell), style), narrow).Some?
    {
      EffectiveIsStoredIfValid(k.kind, cell);
      if Effective(k.kind, cell) != unset { AskedOfShown(k, Effective(k.kind, cell), style, narrow); }
    }
    if Valid(k.kind, unset) { AskedOfShown(k, unset, style, narrow); }
    else if !Untouched(k, unset, style) && !(unset.Num? && !unset.f.Finite?) {
      InvalidShownIsRefused(k, style, narrow);
    }
  }

  lemma {:induction false} InvalidShownIsRefused(k: Key, style: Style, narrow: Float -> Float)
    requires FloatSurvives(Effective(k.kind, None), style, narrow)
    requires var unset := Effective(k.kind, None);
      !Valid(k.kind, unset) && !Untouched(k, unset, style) && (unset.Num? ==> unset.f.Finite?)
    ensures Asked(k, Shown(k, Effective(k.kind, None), style), narrow).None?
  {
    match k.kind
    case IntKind(i, _, _) => assert (i as real).Floor == i;
    case _ =>
  }

  /** A default that is no finite number is exported as null, and importing that resets the key to it. */
  lemma {:induction false} NonFiniteDefaultResets(k: Key, style: Style, narrow: Float -> Float)
    requires k.kind.FloatKind? && !k.kind.start.Finite? && !k.readOnly
    ensures Shown(k, Effective(k.kind, None), style) == Null
    ensures Asked(k, Null, narrow) == Some(Do(Reset))
    ensures ResetReports(k.kind, None) <==> k.kind.start.NaN?
  {
  }

  /** Without valid defaults the round trip fails: an unset key exports a default its own limits refuse. */
  lemma {:induction false} BadDefaultIsRefused(name: string, key: string, style: Style, narrow: Float -> Float)
    ensures var ns := Namespace(name, [Key(key, false, false, false, IntKind(5, 0, 3))]);
      !Accepted(Items(Context([ns], false, narrow), ExportOf(map[], [ns], style)))
  {
    var k := Key(key, false, false, false, IntKind(5, 0, 3));
    var ns := Namespace(name, [k]);
    var ctx := Context([ns], false, narrow);
    var m := NamespaceJson(map[], ns, style);
    assert KeyJson(map[], name, k, style) == Member(key, Number(Finite(5.0)));
    assert Decoded(k.kind, Number(Finite(5.0)), narrow) == Some(Int(5));
    assert NamespaceItems(ctx, m)[0].Bad?;
    assert ExportOf(map[], [ns], style) == [m];
    assert Items(ctx, [m]) == NamespaceItems(ctx, m) by { assert [m][..0] == []; }
  }
}
