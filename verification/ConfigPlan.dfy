/**
 * Pass 1 of the import as the code runs it: a plan table and a table of decoded buffers, kept in step while
 * duplicates are cut out in place (components/espos_config/src/espos_config_json.c:347-423).
 */
module ConfigPlan {
  import opened Esp
  import opened ConfigStore
  import opened ConfigImport
  import Base64

  /** A slot's value: held inline, or a pointer to a decoded buffer. */
  datatype Payload = Nothing | Inline(v: Value) | Buffer(ptr: nat)

  datatype Slot = Slot(path: Path, key: Key, reset: bool, payload: Payload)

  /** The all-zero slot. */
  const BLANK := Slot(Path("", ""), Key("", false, false, false, BoolKind(false)), false, Nothing)

  /** Buffers allocated and not yet freed, by address; address 0 is NULL. */
  type Heap = map<nat, seq<byte>>

  function EntryIn(s: Slot, heap: Heap): Entry {
    Entry(s.path, s.key,
          if s.reset then Reset
          else match s.payload
            case Inline(v) => Write(v)
            case Buffer(ptr) => if ptr in heap then Write(Blob(heap[ptr])) else Reset
            case Nothing => Reset)
  }

  function EntriesIn(slots: seq<Slot>, heap: Heap): (r: seq<Entry>)
    ensures |r| == |slots| && forall i :: 0 <= i < |slots| ==> r[i] == EntryIn(slots[i], heap)
  {
    seq(|slots|, i requires 0 <= i < |slots| => EntryIn(slots[i], heap))
  }

  /** The buffer table owns every allocated buffer exactly once. */
  predicate Owns(blobs: seq<nat>, heap: Heap, next: nat) {
    && next > 0
    && (forall i, j :: 0 <= i < j < |blobs| && blobs[i] != 0 ==> blobs[i] != blobs[j])
    && (forall i :: 0 <= i < |blobs| && blobs[i] != 0 ==> blobs[i] in heap)
    && (forall ptr :: ptr in heap ==> 0 < ptr < next && ptr in blobs)
  }

  /** A slot and its buffer: a blob value points at the buffer of the same index, any other value has none. */
  predicate Aligned(s: Slot, blob: nat) {
    if s.reset then blob == 0
    else match s.payload
      case Inline(_) => blob == 0
      case Buffer(ptr) => blob == ptr && ptr != 0
      case Nothing => false
  }

  /** Slots in use are aligned; the slots beyond hold no buffer and no left-over reset mark. */
  predicate Tidy(slots: seq<Slot>, blobs: seq<nat>, count: nat) {
    && count <= |slots| == |blobs|
    && (forall i :: 0 <= i < count ==> Aligned(slots[i], blobs[i]))
    && (forall i :: count <= i < |slots| ==> !slots[i].reset && blobs[i] == 0)
  }

  /** What `memmove`, the decrement and the two clears do to a table. */
  function CutAt<T>(s: seq<T>, i: nat, count: nat, blank: T): seq<T>
    requires i < count <= |s|
  {
    s[..i] + s[i + 1..count] + [blank] + s[count..]
  }

  /** `memmove` of the slots after i one place down; the last one stays where it was, too. */
  function Moved<T>(s: seq<T>, i: nat, count: nat): seq<T>
    requires i < count <= |s|
  {
    s[..i] + s[i + 1..count] + s[count - 1..]
  }

  method CloseGap<T>(a: array<T>, i: nat, count: nat)
    requires i < count <= a.Length
    modifies a
    ensures a[..] == Moved(old(a[..]), i, count)
  {
    forall k | i <= k < count - 1 { a[k] := a[k + 1]; }
  }

  lemma {:induction false} GapCleared<T>(s: seq<T>, i: nat, count: nat, blank: T)
    requires i < count <= |s|
    ensures |Moved(s, i, count)| == |s| && Moved(s, i, count)[count - 1 := blank] == CutAt(s, i, count, blank)
  {
  }

  lemma {:induction false} CutForgets(s: seq<nat>, i: nat, count: nat)
    requires i < count <= |s|
    ensures CutAt(s[i := 0], i, count, 0) == CutAt(s, i, count, 0)
  {
  }

  lemma {:induction false} DistinctCut(plan: seq<Entry>, i: nat)
    requires Distinct(plan) && i < |plan|
    ensures Distinct(plan[..i] + plan[i + 1..])
  {
  }

  /** Where a slot of the shortened table came from. */
  function Origin(a: nat, i: nat, count: nat): nat {
    if a < i || a >= count then a else a + 1
  }

  lemma {:induction false} CutOrigins(blobs: seq<nat>, i: nat, count: nat)
    requires i < count <= |blobs|
    ensures var cut := CutAt(blobs, i, count, 0);
      && |cut| == |blobs| && cut[count - 1] == 0
      && (forall a :: 0 <= a < |cut| && a != count - 1 ==> Origin(a, i, count) < |blobs| && Origin(a, i, count) != i)
      && (forall a :: 0 <= a < |cut| && a != count - 1 ==> cut[a] == blobs[Origin(a, i, count)])
      && (forall b :: 0 <= b < |blobs| && b != i ==> blobs[b] in cut)
  {
    var cut := CutAt(blobs, i, count, 0);
    forall b | 0 <= b < |blobs| && b != i ensures blobs[b] in cut {
      assert cut[if b < i || b >= count then b else b - 1] == blobs[b];
    }
  }

  lemma {:induction false} CutOwns(blobs: seq<nat>, heap: Heap, next: nat, i: nat, count: nat)
    requires Owns(blobs, heap, next) && i < count <= |blobs|
    ensures Owns(CutAt(blobs, i, count, 0), heap - {blobs[i]}, next) && (blobs[i] == 0 || blobs[i] in heap)
  {
    hide CutAt;
    var cut, left := CutAt(blobs, i, count, 0), heap - {blobs[i]};
    CutOrigins(blobs, i, count);
    forall a, b | 0 <= a < b < |cut| && cut[a] != 0 ensures cut[a] != cut[b] {
      if cut[b] != 0 {
        var a', b' := Origin(a, i, count), Origin(b, i, count);
        assert cut[a] == blobs[a'] && cut[b] == blobs[b'] && a' < b';
      }
    }
    forall a | 0 <= a < |cut| && cut[a] != 0 ensures cut[a] in left {
      assert cut[a] == blobs[Origin(a, i, count)];
    }
  }

  lemma {:induction false} CutTidy(slots: seq<Slot>, blobs: seq<nat>, i: nat, count: nat)
    requires Tidy(slots, blobs, count) && i < count
    ensures Tidy(CutAt(slots, i, count, BLANK), CutAt(blobs, i, count, 0), count - 1)
  {
    hide Aligned;
  }

  /** Freeing one slot's buffer leaves every other entry readable. */
  lemma {:induction false} CutEntries(slots: seq<Slot>, blobs: seq<nat>, heap: Heap, next: nat, i: nat, count: nat)
    requires Tidy(slots, blobs, count) && Owns(blobs, heap, next) && i < count
    ensures var all := EntriesIn(slots[..count], heap);
      EntriesIn(CutAt(slots, i, count, BLANK)[..count - 1], heap - {blobs[i]}) == all[..i] + all[i + 1..]
  {
    var left := heap - {blobs[i]};
    var cut := CutAt(slots, i, count, BLANK)[..count - 1];
    forall k | 0 <= k < count - 1
      ensures EntryIn(cut[k], left) == EntryIn(slots[if k < i then k else k + 1], heap)
    {
      var k' := if k < i then k else k + 1;
      assert cut[k] == slots[k'];
      assert Aligned(slots[k'], blobs[k']);
      assert blobs[k'] != 0 ==> blobs[k'] != blobs[i];
    }
  }

  /** A buffer put into the first free slot of the table. */
  lemma {:induction false} PutOwns(blobs: seq<nat>, heap: Heap, next: nat, i: nat, bytes: seq<byte>)
    requires Owns(blobs, heap, next) && i < |blobs| && blobs[i] == 0
    ensures Owns(blobs[i := next], heap[next := bytes], next + 1) && next != 0 && next !in heap
  {
    var more := blobs[i := next];
    assert next !in heap;
    forall ptr | ptr in heap ensures ptr in more {
      var a :| 0 <= a < |blobs| && blobs[a] == ptr;
      assert more[a] == ptr;
    }
    assert more[i] == next;
  }

  /** A new slot at the end adds its entry and disturbs no other. */
  lemma {:induction false} PutEntries(slots: seq<Slot>, blobs: seq<nat>, heap: Heap, next: nat, count: nat, s: Slot, more: Heap)
    requires Tidy(slots, blobs, count) && Owns(blobs, heap, next) && count < |slots|
    requires forall ptr :: ptr in heap ==> ptr in more && more[ptr] == heap[ptr]
    ensures EntriesIn(slots[count := s][..count + 1], more) == EntriesIn(slots[..count], heap) + [EntryIn(s, more)]
  {
    forall k | 0 <= k < count
      ensures EntryIn(slots[k], more) == EntryIn(slots[k], heap)
    {
      assert Aligned(slots[k], blobs[k]);
    }
  }

  lemma {:induction false} PlanSnoc(items: seq<Item>, it: Item)
    ensures PlanOf(items + [it]) == Planned(PlanOf(items), it)
    ensures it.Skip? ==> PlanOf(items + [it]) == PlanOf(items)
  {
    assert (items + [it])[..|items|] == items;
  }

  class Planner {
    const plan: array<Slot>
    const blobs: array<nat>
    var count: nat
    var heap: Heap
    var next: nat

    predicate Owned()
      reads this, blobs
    {
      Owns(blobs[..], heap, next)
    }

    function View(): (r: seq<Entry>)
      reads this, plan
      requires count <= plan.Length
      ensures |r| == count
    {
      EntriesIn(plan[..count], heap)
    }

    predicate Valid()
      reads this, plan, blobs
    {
      count <= plan.Length == blobs.Length && Tidy(plan[..], blobs[..], count) && Owned() && Distinct(View())
    }

    /** Two zeroed tables with room for every leaf. */
    constructor (leaves: nat)
      ensures Valid() && count == 0 && plan.Length >= leaves && fresh(plan) && fresh(blobs)
    {
      var size := if leaves == 0 then 1 else leaves;
      plan := new Slot[size](_ => BLANK);
      blobs := new nat[size](_ => 0);
      count, heap, next := 0, map[], 1;
    }

    method Free(ptr: nat)
      requires ptr == 0 || ptr in heap
      modifies this`heap
      ensures heap == old(heap) - {ptr}
    {
      heap := heap - {ptr};
    }

    /** Cut slot i out of both tables: free its buffer, close the gap, clear the slot that became free. */
    method Cut(i: nat)
      requires Valid() && i < count
      modifies this`count, this`heap, plan, blobs
      ensures Valid() && count == old(count) - 1
      ensures View() == old(View())[..i] + old(View())[i + 1..]
    {
      hide Tidy, Owns, EntriesIn, Distinct, Moved, CutAt;
      ghost var slots0, blobs0, heap0, count0 := plan[..], blobs[..], heap, count;
      CutOwns(blobs0, heap0, next, i, count0);
      CutTidy(slots0, blobs0, i, count0);
      CutEntries(slots0, blobs0, heap0, next, i, count0);
      DistinctCut(View(), i);
      Free(blobs[i]);
      blobs[i] := 0;
      CloseGap(plan, i, count);
      CloseGap(blobs, i, count);
      count := count - 1;
      blobs[count] := 0;
      plan[count] := BLANK;
      GapCleared(blobs0[i := 0], i, count0, 0);
      GapCleared(slots0, i, count0, BLANK);
      CutForgets(blobs0, i, count0);
    }

    /** A key met before in the document: its entry goes. */
    method DropDuplicate(p: Path)
      requires Valid()
      modifies this`count, this`heap, plan, blobs
      ensures Valid() && count <= old(count)
      ensures View() == Without(old(View()), p) && !Names(View(), p)
    {
      hide Tidy, Owns, EntriesIn, Without, Distinct;
      ghost var before := View();
      var i := 0;
      while i < count
        invariant i <= count && Valid() && View() == before && count == old(count)
        invariant forall k :: 0 <= k < i ==> before[k].path != p
        modifies this`count, this`heap, plan, blobs
      {
        SlotPath(plan[..count], heap, i);
        if plan[i].path == p {
          WithoutCuts(before, i);
          WithoutKeeps(before, p);
          Cut(i);
          return;
        }
        i := i + 1;
      }
      assert !Names(before, p);
      WithoutStranger(before, p);
    }


    /** A freshly decoded buffer: the table owns it and the slot points at it. */
    method KeepBuffer(bytes: seq<byte>)
      requires count < plan.Length == blobs.Length && Owned() && blobs[count] == 0
      modifies this`heap, this`next, plan, blobs
      ensures Owned() && blobs[..] == old(blobs[..])[count := old(next)] && heap == old(heap)[old(next) := bytes]
      ensures old(next) != 0 && old(next) !in old(heap)
      ensures plan[..] == old(plan[..])[count := old(plan[count]).(payload := Buffer(old(next)))]
    {
      hide Owns;
      PutOwns(blobs[..], heap, next, count, bytes);
      heap := heap[next := bytes];
      blobs[count] := next;
      plan[count] := plan[count].(payload := Buffer(next));
      next := next + 1;
    }

    /**
     * `decode_value` into the slot at `count`, then validation. A blob's buffer goes into the table before its value
     * is validated, so a refused blob still has an owner.
     */
    method DecodeValue(j: Json, narrow: Float -> Float) returns (ok: bool)
      requires count < plan.Length == blobs.Length && Owned() && blobs[count] == 0
      modifies this`heap, this`next, plan, blobs
      ensures Owned() && ok == Fits(old(plan[count]).key.kind, j, narrow)
      ensures forall ptr :: ptr in old(heap) ==> ptr in heap && heap[ptr] == old(heap)[ptr]
      ensures blobs[..] == old(blobs[..])[count := blobs[count]]
      ensures plan[..] == old(plan[..])[count := old(plan[count]).(payload := plan[count].payload)]
      ensures ok && !plan[count].reset ==> Aligned(plan[count], blobs[count])
      ensures ok && !plan[count].reset ==> EntryIn(plan[count], heap).change == Write(Decoded(plan[count].key.kind, j, narrow).value)
    {
      hide Owns, Valid, Base64.Decoded;
      var kind := plan[count].key.kind;
      var v: Option<Value>;
      if kind.BlobKind? {
        if !j.Text? { return false; }
        var bytes := DecodeBlob(j.s);
        if bytes.None? { return false; }
        KeepBuffer(bytes.value);
        v := Some(Blob(bytes.value));
      } else {
        v := Decoded(kind, j, narrow);
        if v.None? { return false; }
        plan[count] := plan[count].(payload := Inline(v.value));
      }
      ok := Validate(kind, v.value);
    }

    /** One leaf of pass 1 for a known key. */
    method AddLeaf(p: Path, k: Key, j: Json, narrow: Float -> Float) returns (ok: bool)
      requires Valid() && count < plan.Length
      modifies this, plan, blobs
      ensures Owned() && ok == Asked(k, j, narrow).Some?
      ensures ok ==> Valid() && count <= old(count) + 1
      ensures ok ==> View() == Planned(old(View()), Touch(p, k, Asked(k, j, narrow).value))
    {
      hide Tidy, Owns, EntriesIn, Without, Distinct, Names, Decoded, ConfigStore.Valid;
      DropDuplicate(p);
      if k.readOnly { return true; }
      TidyStale(plan[..], blobs[..], count, p, k);
      plan[count] := plan[count].(path := p, key := k);
      ghost var slots0, blobs0, heap0, next0 := plan[..], blobs[..], heap, next;
      if j.Null? {
        plan[count] := plan[count].(reset := true);
        assert blobs0[count := 0] == blobs0;
        Appended(slots0, blobs0, heap0, next0, count, plan[count], 0, heap0);
        count := count + 1;
        return true;
      }
      if k.secret && j == Text(SENTINEL) { return true; }
      ok := DecodeValue(j, narrow);
      if !ok { return false; }
      Appended(slots0, blobs0, heap0, next0, count, plan[count], blobs[count], heap);
      count := count + 1;
    }

    /** Pass 1 over one namespace's members, starting from the plan of `done`. */
    method AddNamespace(ctx: Context, ns: Namespace, members: seq<Member>, ghost done: seq<Item>) returns (ok: bool)
      requires Valid() && count + |members| <= plan.Length && View() == PlanOf(done)
      modifies this, plan, blobs
      ensures Owned() && ok == Accepted(LeafItems(ctx, ns, members))
      ensures ok ==> Valid() && count <= old(count) + |members| && View() == PlanOf(done + LeafItems(ctx, ns, members))
    {
      hide Tidy, Owns, EntriesIn, Distinct, PlanOf, Planned, Asked;
      ghost var items := LeafItems(ctx, ns, members);
      var j := 0;
      assert done + items[..0] == done;
      while j < |members|
        invariant j <= |members| && Accepted(items[..j])
        invariant Valid() && count <= old(count) + j && View() == PlanOf(done + items[..j])
        modifies this, plan, blobs
      {
        assert items[j] == LeafItem(ctx, ns, members[j]);
        assert done + items[..j + 1] == (done + items[..j]) + [items[j]];
        PlanSnoc(done + items[..j], items[j]);
        var k := FindKey(ns.keys, members[j].name);
        if k.None? {
          if !ctx.ignoreUnknown { return false; }
        } else {
          ok := AddLeaf(Path(ns.name, members[j].name), k.value, members[j].value, ctx.narrow);
          if !ok { return false; }
        }
        j := j + 1;
      }
      assert items[..j] == items;
      return true;
    }

    /** Pass 1 over the document. */
    method Build(ctx: Context, members: seq<Member>) returns (ok: bool)
      requires Valid() && count == 0 && Leaves(members) <= plan.Length
      modifies this, plan, blobs
      ensures Owned() && ok == Accepted(Items(ctx, members))
      ensures ok ==> Valid() && count <= Leaves(members) && View() == PlanOf(Items(ctx, members))
    {
      hide Tidy, Owns, EntriesIn, Distinct, PlanOf, LeafItems, FindNamespace, Accepted, Leaves, Items;
      var i := 0;
      EmptyPlan(ctx);
      while i < |members|
        invariant i <= |members| && Accepted(Items(ctx, members[..i]))
        invariant Valid() && count <= Leaves(members[..i]) && View() == PlanOf(Items(ctx, members[..i]))
        modifies this, plan, blobs
      {
        ghost var done := Items(ctx, members[..i]);
        ItemsStep(ctx, members, i);
        var ns := FindNamespace(ctx.schema, members[i].name);
        if ns.None? {
          if !ctx.ignoreUnknown { return false; }
          assert done + [] == done;
        } else {
          if !members[i].value.Object? { return false; }
          ok := AddNamespace(ctx, ns.value, members[i].value.members, done);
          if !ok { return false; }
        }
        i := i + 1;
      }
      assert members[..i] == members;
      return true;
    }

    /** Give every buffer back; each is freed once and none is left. */
    method FreeAll()
      requires Owned()
      modifies this`heap
      ensures heap == map[]
    {
      var i := 0;
      while i < blobs.Length
        invariant i <= blobs.Length
        invariant forall k :: i <= k < blobs.Length && blobs[k] != 0 ==> blobs[k] in heap
        invariant forall ptr :: ptr in heap ==> ptr != 0 && ptr in blobs[i..]
      {
        assert blobs[i..] == [blobs[i]] + blobs[i + 1..];
        Free(blobs[i]);
        i := i + 1;
      }
      assert heap.Keys == {};
    }
  }

  lemma {:induction false} EmptyPlan(ctx: Context)
    ensures Items(ctx, []) == [] && Accepted([]) && Leaves([]) == 0 && PlanOf([]) == []
    ensures !Accepted([Bad])
  {
    assert [Bad][0].Bad?;
  }

  /** One more namespace of the document: its items, its verdict and its share of the leaves. */
  lemma {:induction false} ItemsStep(ctx: Context, members: seq<Member>, i: nat)
    requires i < |members|
    ensures Items(ctx, members[..i + 1]) == Items(ctx, members[..i]) + NamespaceItems(ctx, members[i])
    ensures Accepted(Items(ctx, members[..i + 1])) <==> Accepted(Items(ctx, members[..i])) && Accepted(NamespaceItems(ctx, members[i]))
    ensures Accepted(Items(ctx, members)) ==> Accepted(Items(ctx, members[..i + 1]))
    ensures Leaves(members[..i + 1]) == Leaves(members[..i]) + if members[i].value.Object? then |members[i].value.members| else 0
    ensures Leaves(members[..i + 1]) <= Leaves(members)
  {
    hide NamespaceItems;
    assert members[..i + 1][..i] == members[..i];
    LeavesGrow(members, i + 1);
    ItemsGrow(ctx, members, i + 1);
    AcceptedBoth(Items(ctx, members[..i]), NamespaceItems(ctx, members[i]));
  }

  lemma {:induction false} ItemsGrow(ctx: Context, members: seq<Member>, n: nat)
    requires n <= |members|
    ensures Items(ctx, members[..n]) <= Items(ctx, members)
    decreases |members|
  {
    hide NamespaceItems;
    if n == |members| { assert members[..n] == members; }
    else {
      var m := |members| - 1;
      ItemsGrow(ctx, members[..m], n);
      assert members[..m][..n] == members[..n];
    }
  }

  predicate Fits(kind: Kind, j: Json, narrow: Float -> Float) {
    var v := Decoded(kind, j, narrow);
    v.Some? && Valid(kind, v.value)
  }

  /** The decode buffer is sized from the text, so only a malformed text fails. */
  method DecodeBlob(text: string) returns (bytes: Option<seq<byte>>)
    ensures bytes == Base64.Decoded(text)
  {
    hide Base64.Bytes, Base64.GoodPrefix, Base64.Stripped;
    var buf := new byte[(|text| / 4 + 1) * 3];
    Base64.ImportBufferSuffices(text);
    var err, n := Base64.Decode(text, buf);
    return if err == Ok then Some(buf[..n]) else None;
  }

  /** A slot beyond the count may hold a stale name, as a skipped secret leaves one. */
  lemma {:induction false} TidyStale(slots: seq<Slot>, blobs: seq<nat>, count: nat, p: Path, k: Key)
    requires Tidy(slots, blobs, count) && count < |slots|
    ensures |blobs| == |slots| && !slots[count].reset && blobs[count] == 0
    ensures Tidy(slots[count := slots[count].(path := p, key := k)], blobs, count)
  {
  }

  lemma {:induction false} TidyPut(slots: seq<Slot>, blobs: seq<nat>, count: nat, s: Slot, blob: nat)
    requires Tidy(slots, blobs, count) && count < |slots| && Aligned(s, blob)
    ensures Tidy(slots[count := s], blobs[count := blob], count + 1)
  {
  }

  /** A new last slot: the tables stay tidy, the plan grows by one entry and stays free of duplicates. */
  lemma {:induction false} Appended(slots: seq<Slot>, blobs: seq<nat>, heap: Heap, next: nat, count: nat, s: Slot, blob: nat, more: Heap)
    requires Tidy(slots, blobs, count) && Owns(blobs, heap, next) && count < |slots| == |blobs| && Aligned(s, blob)
    requires forall ptr :: ptr in heap ==> ptr in more && more[ptr] == heap[ptr]
    requires Distinct(EntriesIn(slots[..count], heap)) && !Names(EntriesIn(slots[..count], heap), s.path)
    ensures Tidy(slots[count := s], blobs[count := blob], count + 1)
    ensures EntriesIn(slots[count := s][..count + 1], more) == EntriesIn(slots[..count], heap) + [EntryIn(s, more)]
    ensures Distinct(EntriesIn(slots[..count], heap) + [EntryIn(s, more)])
  {
    hide Tidy, Owns, Distinct, Names, Aligned;
    TidyPut(slots, blobs, count, s, blob);
    PutEntries(slots, blobs, heap, next, count, s, more);
    DistinctPut(EntriesIn(slots[..count], heap), EntryIn(s, more));
  }

  lemma {:induction false} DistinctPut(plan: seq<Entry>, e: Entry)
    requires Distinct(plan) && !Names(plan, e.path)
    ensures Distinct(plan + [e])
  {
  }

  lemma {:induction false} SlotPath(slots: seq<Slot>, heap: Heap, i: nat)
    requires i < |slots|
    ensures EntriesIn(slots, heap)[i].path == slots[i].path
  {
  }
}
