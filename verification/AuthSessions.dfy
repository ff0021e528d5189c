/** The login sessions of `auth_policy.c` on true time: a least-recently-seen table of fixed size,
    and what its history says about every session id. */
module AuthSessions {
  import opened Esp

  datatype Session = Session(id: string, expires: int, seen: int)

  type Table = seq<Option<Session>>

  /** What happened to a session id, in order. */
  datatype Event =
    | Minted(id: string, at: int, ttl: nat)
    | Seen(id: string, at: int)
    | Evicted(id: string)
    | Closed(id: string)
    | KeySet

  datatype State = State(table: Table, ttl: nat, clock: int, log: seq<Event>)

  // ------------------------------------------------------------------- the operations

  function Kept(e: Option<Session>, now: int): Option<Session> {
    if e.Some? && e.value.expires <= now then None else e
  }

  /** Drop every session past its expiry. */
  function Swept(w: Table, now: int): (r: Table)
    ensures |r| == |w| && forall i :: 0 <= i < |w| ==> r[i] == Kept(w[i], now)
  {
    seq(|w|, i requires 0 <= i < |w| => Kept(w[i], now))
  }

  function FirstFree(w: Table): (i: nat)
    ensures i <= |w| && (i < |w| ==> w[i].None?) && forall j :: 0 <= j < i ==> w[j].Some?
  {
    if w == [] || w[0].None? then 0 else
      var n := FirstFree(w[1..]);
      assert forall j :: 1 <= j < 1 + n ==> w[j] == w[1..][j - 1];
      1 + n
  }

  /** The first session among `n` that was seen least recently. */
  function Oldest(w: Table, n: nat): (k: nat)
    requires 0 < n <= |w| && forall i :: 0 <= i < n ==> w[i].Some?
    ensures k < n && forall i :: 0 <= i < n ==> w[k].value.seen <= w[i].value.seen
  {
    if n == 1 then 0 else
      var k := Oldest(w, n - 1);
      if w[n - 1].value.seen < w[k].value.seen then n - 1 else k
  }

  /** A free slot if there is one, else the session idle longest makes room. */
  function SlotFor(w: Table): (k: nat)
    requires w != []
    ensures k < |w|
    ensures w[k].Some? ==> forall i :: 0 <= i < |w| ==> w[i].Some? && w[k].value.seen <= w[i].value.seen
  {
    if FirstFree(w) < |w| then FirstFree(w) else Oldest(w, |w|)
  }

  function Find(w: Table, id: string): (i: nat)
    ensures i <= |w| && (i < |w| ==> w[i].Some? && w[i].value.id == id)
    ensures forall j :: 0 <= j < i ==> !(w[j].Some? && w[j].value.id == id)
  {
    if w == [] || (w[0].Some? && w[0].value.id == id) then 0 else
      var n := Find(w[1..], id);
      assert forall j :: 1 <= j < 1 + n ==> w[j] == w[1..][j - 1];
      1 + n
  }

  function Open(s: State, now: int, id: string): State
    requires s.table != []
  {
    var w := Swept(s.table, now);
    var k := SlotFor(w);
    State(w[k := Some(Session(id, now + s.ttl, now))], s.ttl, now,
          s.log + (if w[k].Some? then [Evicted(w[k].value.id)] else []) + [Minted(id, now, s.ttl)])
  }

  /** A request with the cookie: sweep, and note that the session was seen. */
  function Touch(s: State, now: int, id: string): State {
    var w := Swept(s.table, now);
    var i := Find(w, id);
    if i < |w| then s.(clock := now, table := w[i := Some(w[i].value.(seen := now))], log := s.log + [Seen(id, now)])
    else s.(clock := now, table := w)
  }

  function Close(s: State, now: int, id: string): State {
    var w := Swept(s.table, now);
    var i := Find(w, id);
    s.(clock := now, table := if i < |w| then w[i := None] else w, log := s.log + [Closed(id)])
  }

  function SetKey(s: State): State {
    s.(table := seq(|s.table|, _ => None), log := s.log + [KeySet])
  }

  /** Is the cookie good at `now`? */
  predicate Valid(s: State, now: int, id: string) {
    Find(Swept(s.table, now), id) < |s.table|
  }

  // --------------------------------------------------------------------- the history

  /** When the latest session under `id` expires, unless something ended it. */
  function Record(log: seq<Event>, id: string): Option<int> {
    if log == [] then None else
      var e := log[|log| - 1];
      match e
      case Minted(i, at, ttl) => if i == id then Some(at + ttl) else Record(log[..|log| - 1], id)
      case Seen(_, _) => Record(log[..|log| - 1], id)
      case Evicted(i) => if i == id then None else Record(log[..|log| - 1], id)
      case Closed(i) => if i == id then None else Record(log[..|log| - 1], id)
      case KeySet => None
  }

  /** When the id was last minted or shown by a good request. */
  function LastUse(log: seq<Event>, id: string): Option<int> {
    if log == [] then None else
      var e := log[|log| - 1];
      if (e.Minted? || e.Seen?) && e.id == id then Some(e.at) else LastUse(log[..|log| - 1], id)
  }

  lemma {:induction false} LastUseAppend(log: seq<Event>, e: Event, id: string)
    ensures LastUse(log + [e], id) == if (e.Minted? || e.Seen?) && e.id == id then Some(e.at) else LastUse(log, id)
  {
    assert (log + [e])[..|log|] == log;
  }

  lemma {:induction false} RecordAppend(log: seq<Event>, e: Event, id: string)
    ensures Record(log + [e], id) ==
      match e
      case Minted(i, at, ttl) => if i == id then Some(at + ttl) else Record(log, id)
      case Seen(_, _) => Record(log, id)
      case Evicted(i) => if i == id then None else Record(log, id)
      case Closed(i) => if i == id then None else Record(log, id)
      case KeySet => None
  {
    assert (log + [e])[..|log|] == log;
  }

  ghost predicate Distinct(w: Table) {
    forall i, j :: 0 <= i < j < |w| && w[i].Some? && w[j].Some? ==> w[i].value.id != w[j].value.id
  }

  /** The table and the history agree: every slot is on record, with the time of its last use, and every record still running
      is in a slot. */
  ghost predicate Faithful(s: State) {
    && Distinct(s.table)
    && (forall i :: 0 <= i < |s.table| && s.table[i].Some? ==>
          Record(s.log, s.table[i].value.id) == Some(s.table[i].value.expires))
    && (forall i :: 0 <= i < |s.table| && s.table[i].Some? ==>
          LastUse(s.log, s.table[i].value.id) == Some(s.table[i].value.seen))
    && (forall id :: Record(s.log, id).Some? && Record(s.log, id).value > s.clock ==> Find(s.table, id) < |s.table|)
  }

  lemma {:induction false} FindIs(w: Table, id: string, i: nat)
    requires Distinct(w) && i < |w| && w[i].Some? && w[i].value.id == id
    ensures Find(w, id) == i
  {
  }

  lemma {:induction false} FindNone(w: Table, id: string)
    requires forall i :: 0 <= i < |w| && w[i].Some? ==> w[i].value.id != id
    ensures Find(w, id) == |w|
  {
  }

  lemma {:induction false} SweepFinds(w: Table, now: int, id: string)
    requires Distinct(w)
    ensures Distinct(Swept(w, now))
    ensures Find(w, id) < |w| && w[Find(w, id)].value.expires > now ==> Find(Swept(w, now), id) == Find(w, id)
    ensures Find(Swept(w, now), id) < |w| ==> Find(w, id) == Find(Swept(w, now), id)
  {
    var r := Swept(w, now);
    var i := Find(w, id);
    if i < |w| && w[i].value.expires > now { FindIs(r, id, i); }
    if Find(r, id) < |w| { FindIs(w, id, Find(r, id)); }
  }

  /** Sweeping at a later time keeps table and history in agreement. */
  lemma {:induction false} SweepFaithful(s: State, now: int)
    requires Faithful(s) && s.clock <= now
    ensures Faithful(s.(table := Swept(s.table, now), clock := now))
  {
    var w := Swept(s.table, now);
    assert Distinct(w);
    forall id | Record(s.log, id).Some? && Record(s.log, id).value > now
      ensures Find(w, id) < |w|
    {
      SweepFinds(s.table, now, id);
    }
  }

  /** A cookie is good exactly when its id was minted since the last key change, was not closed or
      evicted since, and its lifetime, fixed at the mint, has not run out. */
  lemma {:induction false} ValidMeansOnRecord(s: State, now: int, id: string)
    requires Faithful(s) && s.clock <= now
    ensures Valid(s, now, id) <==> Record(s.log, id).Some? && now < Record(s.log, id).value
  {
    SweepFinds(s.table, now, id);
    var w := Swept(s.table, now);
    if Find(w, id) < |w| { assert s.table[Find(w, id)] == w[Find(w, id)]; }
  }

  /** The record of any id after a mint that took slot `k` of the swept table. */
  lemma {:induction false} OpenRecord(s: State, now: int, id: string, x: string)
    requires s.table != []
    ensures var w := Swept(s.table, now);
      var evicted := w[SlotFor(w)];
      Record(Open(s, now, id).log, x) ==
        if x == id then Some(now + s.ttl)
        else if evicted.Some? && x == evicted.value.id then None
        else Record(s.log, x)
    ensures LastUse(Open(s, now, id).log, x) == if x == id then Some(now) else LastUse(s.log, x)
  {
    var w := Swept(s.table, now);
    var k := SlotFor(w);
    var gone := if w[k].Some? then s.log + [Evicted(w[k].value.id)] else s.log;
    assert Open(s, now, id).log == gone + [Minted(id, now, s.ttl)];
    RecordAppend(gone, Minted(id, now, s.ttl), x);
    LastUseAppend(gone, Minted(id, now, s.ttl), x);
    if w[k].Some? {
      RecordAppend(s.log, Evicted(w[k].value.id), x);
      LastUseAppend(s.log, Evicted(w[k].value.id), x);
    }
  }

  lemma {:induction false} PlacedFaithful(s: State, k: nat, new': Session, e: State)
    requires Faithful(s) && k < |s.table| && Find(s.table, new'.id) == |s.table|
    requires e.table == s.table[k := Some(new')] && e.clock == s.clock
    requires forall x ::
      (Record(e.log, x) == if x == new'.id then Some(new'.expires)
                           else if s.table[k].Some? && x == s.table[k].value.id then None
                           else Record(s.log, x))
    requires forall x :: LastUse(e.log, x) == if x == new'.id then Some(new'.seen) else LastUse(s.log, x)
    ensures Faithful(e)
  {
    hide Record, LastUse;
    forall x | Record(e.log, x).Some? && Record(e.log, x).value > s.clock
      ensures Find(e.table, x) < |e.table|
    {
      if x == new'.id {
        FindSome(e.table, x, k);
      } else {
        assert Find(s.table, x) != k;
        FindSome(e.table, x, Find(s.table, x));
      }
    }
  }

  lemma {:induction false} OpenFaithful(s: State, now: int, id: string)
    requires Faithful(s) && s.clock <= now && s.table != [] && !Valid(s, now, id)
    ensures Faithful(Open(s, now, id))
  {
    SweepFaithful(s, now);
    hide Faithful, Record, LastUse;
    var w := Swept(s.table, now);
    forall x
      ensures Record(Open(s, now, id).log, x) ==
        if x == id then Some(now + s.ttl)
        else if w[SlotFor(w)].Some? && x == w[SlotFor(w)].value.id then None
        else Record(s.log, x)
      ensures LastUse(Open(s, now, id).log, x) == if x == id then Some(now) else LastUse(s.log, x)
    {
      OpenRecord(s, now, id, x);
    }
    PlacedFaithful(s.(table := w, clock := now), SlotFor(w), Session(id, now + s.ttl, now), Open(s, now, id));
  }

  lemma {:induction false} FindSome(w: Table, id: string, i: nat)
    requires i < |w| && w[i].Some? && w[i].value.id == id
    ensures Find(w, id) < |w|
  {
  }

  lemma {:induction false} TouchFaithful(s: State, now: int, id: string)
    requires Faithful(s) && s.clock <= now
    ensures Faithful(Touch(s, now, id))
  {
    SweepFaithful(s, now);
    var w := Swept(s.table, now);
    var i := Find(w, id);
    if i < |w| {
      hide Record, LastUse;
      var e := Touch(s, now, id);
      forall x ensures Record(e.log, x) == Record(s.log, x) && LastUse(e.log, x) == if x == id then Some(now) else LastUse(s.log, x) {
        RecordAppend(s.log, Seen(id, now), x);
        LastUseAppend(s.log, Seen(id, now), x);
      }
      forall x | Record(e.log, x).Some? && Record(e.log, x).value > now
        ensures Find(e.table, x) < |e.table|
      {
        FindSome(e.table, x, Find(w, x));
      }
    }
  }

  lemma {:induction false} CloseFaithful(s: State, now: int, id: string)
    requires Faithful(s) && s.clock <= now
    ensures Faithful(Close(s, now, id))
  {
    SweepFaithful(s, now);
    var w := Swept(s.table, now);
    var i := Find(w, id);
    var e := Close(s, now, id);
    forall x ensures Record(e.log, x) == (if x == id then None else Record(s.log, x)) && LastUse(e.log, x) == LastUse(s.log, x) {
      RecordAppend(s.log, Closed(id), x);
      LastUseAppend(s.log, Closed(id), x);
    }
    forall x | Record(e.log, x).Some? && Record(e.log, x).value > now
      ensures Find(e.table, x) < |e.table|
    {
      FindSome(e.table, x, Find(w, x));
    }
  }

  lemma {:induction false} SetKeyFaithful(s: State)
    ensures Faithful(SetKey(s))
  {
    forall x ensures Record(SetKey(s).log, x).None? { RecordAppend(s.log, KeySet, x); }
  }

  /** On record and not run out. */
  predicate Running(log: seq<Event>, id: string, now: int) {
    Record(log, id).Some? && now < Record(log, id).value
  }

  predicate UsedNoLater(log: seq<Event>, a: string, b: string) {
    LastUse(log, a).Some? && LastUse(log, b).Some? && LastUse(log, a).value <= LastUse(log, b).value
  }

  /** A session makes room only when no slot is free after the sweep, and then it is the one whose last mint or good request,
      read off the history, is the longest ago of all that run; otherwise nobody is evicted. */
  lemma {:induction false} EvictsLeastRecentlySeen(s: State, now: int, id: string)
    requires Faithful(s) && s.clock <= now && s.table != []
    ensures var w := Swept(s.table, now);
      if exists i :: 0 <= i < |w| && w[i].None?
      then Open(s, now, id).log == s.log + [Minted(id, now, s.ttl)]
      else exists gone :: Running(s.log, gone, now) && Open(s, now, id).log == s.log + [Evicted(gone)] + [Minted(id, now, s.ttl)]
             && forall x :: Running(s.log, x, now) ==> UsedNoLater(s.log, gone, x)
  {
    var w := Swept(s.table, now);
    var k := SlotFor(w);
    if i :| 0 <= i < |w| && w[i].None? {
      assert FirstFree(w) <= i;
      assert s.log + [] == s.log;
    } else {
      assert w[k].Some? && w[k] == s.table[k];
      var gone := w[k].value.id;
      assert Running(s.log, gone, now);
      forall x | Running(s.log, x, now)
        ensures UsedNoLater(s.log, gone, x)
      {
        var j := Find(s.table, x);
        assert j < |w| && w[j] == s.table[j];
      }
    }
  }

  // ---------------------------------------------------------------------------- runs

  datatype Op =
    | Login(now: int, id: string)
    | Request(now: int, id: string)
    | Logout(now: int, id: string)
    | NewKey
    | NewTtl(ttl: nat)

  function Step(s: State, op: Op): State {
    match op
    case Login(now, id) => if s.table == [] then s else Open(s, now, id)
    case Request(now, id) => Touch(s, now, id)
    case Logout(now, id) => Close(s, now, id)
    case NewKey => SetKey(s)
    case NewTtl(ttl) => s.(ttl := ttl)
  }

  /** What each operation writes into the history: the history is that of the operations. */
  lemma {:induction false} StepLogs(s: State, op: Op)
    ensures match op
      case Login(now, id) =>
        if s.table == [] then Step(s, op).log == s.log
        else Step(s, op).log == s.log + [Minted(id, now, s.ttl)] || exists gone :: Step(s, op).log == s.log + [Evicted(gone)] + [Minted(id, now, s.ttl)]
      case Request(now, id) => Step(s, op).log == if Valid(s, now, id) then s.log + [Seen(id, now)] else s.log
      case Logout(now, id) => Step(s, op).log == s.log + [Closed(id)]
      case NewKey => Step(s, op).log == s.log + [KeySet]
      case NewTtl(ttl) => Step(s, op) == s.(ttl := ttl)
    ensures !op.NewTtl? ==> Step(s, op).ttl == s.ttl && |Step(s, op).table| == |s.table|
    ensures (op.Login? && s.table != []) || op.Request? || op.Logout? ==> Step(s, op).clock == op.now
  {
    if op.Login? && s.table != [] { assert s.log + [] == s.log; }
  }

  /** Time does not run backwards, and a fresh id is not one of a live session. */
  predicate Allowed(s: State, op: Op) {
    match op
    case Login(now, id) => s.clock <= now && !Valid(s, now, id)
    case Request(now, id) => s.clock <= now
    case Logout(now, id) => s.clock <= now
    case NewKey => true
    case NewTtl(_) => true
  }

  function Run(s: State, ops: seq<Op>): State
    decreases |ops|
  {
    if ops == [] then s else Run(Step(s, ops[0]), ops[1..])
  }

  predicate RunAllowed(s: State, ops: seq<Op>)
    decreases |ops|
  {
    ops == [] || (Allowed(s, ops[0]) && RunAllowed(Step(s, ops[0]), ops[1..]))
  }

  lemma {:induction false} StepFaithful(s: State, op: Op)
    requires Faithful(s) && Allowed(s, op)
    ensures Faithful(Step(s, op))
  {
    match op
    case Login(now, id) => if s.table != [] { OpenFaithful(s, now, id); }
    case Request(now, id) => TouchFaithful(s, now, id);
    case Logout(now, id) => CloseFaithful(s, now, id);
    case NewKey => SetKeyFaithful(s);
    case NewTtl(ttl) =>
  }

  /** After any run, whether a cookie is good is a matter of the history alone. */
  lemma {:induction false} HistoryDecides(s: State, ops: seq<Op>, now: int, id: string)
    requires Faithful(s) && RunAllowed(s, ops) && Run(s, ops).clock <= now
    ensures var e := Run(s, ops);
      Valid(e, now, id) <==> Record(e.log, id).Some? && now < Record(e.log, id).value
    decreases |ops|
  {
    if ops == [] {
      ValidMeansOnRecord(s, now, id);
    } else {
      hide Faithful, Step, Allowed;
      StepFaithful(s, ops[0]);
      HistoryDecides(Step(s, ops[0]), ops[1..], now, id);
    }
  }

  lemma {:induction false} EmptyIsFaithful(cap: nat, ttl: nat, clock: int)
    ensures Faithful(State(seq(cap, _ => None), ttl, clock, []))
  {
  }
}
