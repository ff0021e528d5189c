/** The condition table of `espos_health`: a fixed array searched by key, slots never freed. */
module HealthTable {
  import opened Esp

  const KEY_MAX: nat := 24
  const MSG_MAX: nat := 96

  datatype Level = Normal | Warn | Alarm

  /** A condition; `reboot` is the ESPOS_HEALTH_F_REBOOT_ON_ALARM flag. */
  datatype Cond = Cond(key: string, level: Level, message: string, reboot: bool)

  /** The first slot that holds `key`, or the length of the table. */
  function IndexOf(table: seq<Cond>, key: string): (i: nat)
    ensures i <= |table|
    ensures i < |table| ==> table[i].key == key
    ensures forall j :: 0 <= j < i ==> table[j].key != key
  {
    if table == [] || table[0].key == key then 0 else
      var rest := IndexOf(table[1..], key);
      assert forall j :: 1 <= j < 1 + rest ==> table[j] == table[1..][j - 1];
      1 + rest
  }

  function Entry(table: seq<Cond>, key: string): Option<Cond> {
    var i := IndexOf(table, key);
    if i < |table| then Some(table[i]) else None
  }

  predicate Raised(table: seq<Cond>, key: string) {
    Entry(table, key).Some? && Entry(table, key).value.level != Normal
  }

  predicate WellFormed(c: Cond) {
    0 < |c.key| < KEY_MAX && |c.message| < MSG_MAX
  }

  /** A report for a new key needs a free slot. */
  predicate Fits(table: seq<Cond>, max: nat, key: string) {
    Entry(table, key).Some? || |table| < max
  }

  /** The table after a well-formed report. */
  function Reported(table: seq<Cond>, max: nat, c: Cond): seq<Cond> {
    var i := IndexOf(table, c.key);
    if i < |table| then table[i := c]
    else if |table| < max then table + [c]
    else table
  }

  /** One attempt to take the table lock: what other tasks reported since the last one, and
      whether the lock was granted before its 200 ms ran out. */
  datatype Turn = Turn(granted: bool, others: seq<Cond>)

  /** The table after a list of reports; ill-formed ones are refused. */
  function Absorbed(table: seq<Cond>, max: nat, reports: seq<Cond>): seq<Cond>
    decreases |reports|
  {
    if reports == [] then table
    else Absorbed(if WellFormed(reports[0]) then Reported(table, max, reports[0]) else table, max, reports[1..])
  }

  lemma {:induction false} AbsorbedSize(table: seq<Cond>, max: nat, reports: seq<Cond>)
    ensures |table| <= |Absorbed(table, max, reports)| <= |table| + |reports|
    decreases |reports|
  {
    if reports != [] { AbsorbedSize(if WellFormed(reports[0]) then Reported(table, max, reports[0]) else table, max, reports[1..]); }
  }

  lemma {:induction false} IndexIs(table: seq<Cond>, key: string, i: nat)
    requires i <= |table| && (i < |table| ==> table[i].key == key)
    requires forall j :: 0 <= j < i ==> table[j].key != key
    ensures IndexOf(table, key) == i
  {
  }

  /** A report changes the entry of its own key and no other. */
  lemma {:induction false} ReportedEntry(table: seq<Cond>, max: nat, c: Cond, key: string)
    ensures Entry(Reported(table, max, c), key) ==
      if key == c.key && Fits(table, max, key) then Some(c) else Entry(table, key)
    ensures |table| <= |Reported(table, max, c)|
  {
    var r := Reported(table, max, c);
    var k := IndexOf(table, key);
    if k == |table| && |r| > |table| {
      IndexIs(r, key, if key == c.key then k else |r|);
    } else {
      IndexIs(r, key, k);
    }
  }
}
