/** The watchdog policy of `health_policy.c`: memory rules, stalled tasks and the strikes that end
    in a restart. */
module HealthPolicy {
  import opened Esp
  import opened ModClock
  import opened HealthTable

  const WATCHED_MAX: nat := 8

  datatype Heap = Heap(totalFree: u32, totalMin: u32, internalFree: u32, internalMin: u32, largestBlock: u32)

  /** Thresholds in KB, 0 = off; `strikes` is at least 1 once initialised. */
  datatype Config = Config(strikes: u32, heapWarn: u32, internalWarn: u32, internalAlarm: u32,
                           blockAlarm: u32, troughWarn: u32)

  /** A threshold in bytes, as the 32-bit product computes it. */
  function Bytes(kb: u32): u32 {
    kb * 1024 % TWO32
  }

  predicate Below(free: u32, kb: u32) {
    kb != 0 && free < Bytes(kb)
  }

  // ---------------------------------------------------------------------- memory rules

  /** The lowMemory condition. The message names the threshold, never the reading. */
  function Memory(cfg: Config, h: Heap): Cond {
    if Below(h.internalFree, cfg.internalAlarm) then
      Cond("lowMemory", Alarm, "internal RAM exhausted (below " + Decimal(cfg.internalAlarm) + " KB free)", true)
    else if Below(h.largestBlock, cfg.blockAlarm) then
      var low := Below(h.internalFree, cfg.internalWarn) || h.internalFree < Bytes(cfg.blockAlarm);
      Cond("lowMemory", Alarm, "internal RAM " + (if low then "low" else "fragmented") +
           " (largest block below " + Decimal(cfg.blockAlarm) + " KB)", true)
    else if Below(h.internalFree, cfg.internalWarn) then
      Cond("lowMemory", Warn, "internal RAM low (below " + Decimal(cfg.internalWarn) + " KB free)", false)
    else if Below(h.totalFree, cfg.heapWarn) then
      Cond("lowMemory", Warn, "heap low (below " + Decimal(cfg.heapWarn) + " KB free)", false)
    else Cond("lowMemory", Normal, "", false)
  }

  function Trough(cfg: Config, h: Heap): Cond {
    if Below(h.internalMin, cfg.troughWarn) then
      Cond("memoryTrough", Warn, "internal RAM low-water mark below " + Decimal(cfg.troughWarn) + " KB since boot", false)
    else Cond("memoryTrough", Normal, "", false)
  }

  function Decimal(n: nat): string {
    if n < 10 then ['0' + n as char] else Decimal(n / 10) + ['0' + (n % 10) as char]
  }

  predicate Fatal(c: Cond) {
    c.level == Alarm && c.reboot
  }

  /** Only exhausted or fragmented internal RAM is fatal; a warning or a trough never is, and two
      readings that break the same thresholds raise the very same report. */
  lemma {:induction false} MemoryIsFatalOnlyOnAlarm(cfg: Config, h: Heap, g: Heap)
    ensures Fatal(Memory(cfg, h)) <==>
      Below(h.internalFree, cfg.internalAlarm) || Below(h.largestBlock, cfg.blockAlarm)
    ensures Memory(cfg, h).reboot <==> Memory(cfg, h).level == Alarm
    ensures !Fatal(Trough(cfg, h)) && Trough(cfg, h).level != Alarm
    ensures (Below(h.internalFree, cfg.internalAlarm) <==> Below(g.internalFree, cfg.internalAlarm)) &&
            (Below(h.largestBlock, cfg.blockAlarm) <==> Below(g.largestBlock, cfg.blockAlarm)) &&
            (Below(h.internalFree, cfg.internalWarn) <==> Below(g.internalFree, cfg.internalWarn)) &&
            (Below(h.totalFree, cfg.heapWarn) <==> Below(g.totalFree, cfg.heapWarn)) &&
            (h.internalFree < Bytes(cfg.blockAlarm) <==> g.internalFree < Bytes(cfg.blockAlarm)) ==>
      Memory(cfg, h) == Memory(cfg, g)
  {
  }

  /** Both levels by their thresholds: alarm below either alarm floor, else warning below either warning floor; a floor of
      0 KB is off, and the product is taken in 32 bits. The trough warns below its own floor and does nothing else. */
  lemma {:induction false} MemoryLevels(cfg: Config, h: Heap)
    ensures var alarm := (cfg.internalAlarm != 0 && h.internalFree < cfg.internalAlarm * 1024 % 0x1_0000_0000)
                      || (cfg.blockAlarm != 0 && h.largestBlock < cfg.blockAlarm * 1024 % 0x1_0000_0000);
            var warn := (cfg.internalWarn != 0 && h.internalFree < cfg.internalWarn * 1024 % 0x1_0000_0000)
                     || (cfg.heapWarn != 0 && h.totalFree < cfg.heapWarn * 1024 % 0x1_0000_0000);
      && Memory(cfg, h).level == (if alarm then Alarm else if warn then Warn else Normal)
      && Memory(cfg, h).key == "lowMemory" && (Memory(cfg, h).message == "" <==> !alarm && !warn)
    ensures Trough(cfg, h).level ==
      if cfg.troughWarn != 0 && h.internalMin < cfg.troughWarn * 1024 % 0x1_0000_0000 then Warn else Normal
    ensures Trough(cfg, h).key == "memoryTrough" && !Trough(cfg, h).reboot
  {
    hide Decimal;
  }

  // ----------------------------------------------------------------------- the strikes

  /** Consecutive fatal ticks, and whether a restart was requested; further ticks do nothing. */
  datatype Strikes = Strikes(count: nat, restarting: bool)

  function Strike(s: Strikes, need: nat, fatal: bool): Strikes {
    if s.restarting then s
    else if !fatal then Strikes(0, false)
    else Strikes(s.count + 1, s.count + 1 >= need)
  }

  /** Does this tick request the restart? */
  predicate Restarts(s: Strikes, need: nat, fatal: bool) {
    !s.restarting && Strike(s, need, fatal).restarting
  }

  function After(need: nat, ticks: seq<bool>): Strikes {
    if ticks == [] then Strikes(0, false)
    else Strike(After(need, ticks[..|ticks| - 1]), need, ticks[|ticks| - 1])
  }

  /** Tick `k` ends `need` fatal ticks in a row. */
  predicate EndsStreak(need: nat, ticks: seq<bool>, k: nat) {
    k < |ticks| && need <= k + 1 && forall i :: k + 1 - need <= i <= k ==> ticks[i]
  }

  /** The fatal ticks at the very end. */
  function Trailing(ticks: seq<bool>): nat {
    if ticks == [] || !ticks[|ticks| - 1] then 0 else 1 + Trailing(ticks[..|ticks| - 1])
  }

  lemma {:induction false} TrailingIs(ticks: seq<bool>, n: nat)
    ensures Trailing(ticks) >= n <==> n <= |ticks| && forall i :: |ticks| - n <= i < |ticks| ==> ticks[i]
    decreases |ticks|
  {
    if ticks != [] && n > 0 {
      var rest := ticks[..|ticks| - 1];
      TrailingIs(rest, n - 1);
    }
  }

  lemma {:induction false} AfterIs(need: nat, ticks: seq<bool>)
    requires need >= 1
    ensures var s := After(need, ticks);
      && (s.restarting <==> exists k :: EndsStreak(need, ticks, k))
      && (!s.restarting ==> s.count == Trailing(ticks))
    decreases |ticks|
  {
    if ticks != [] {
      var rest := ticks[..|ticks| - 1];
      AfterIs(need, rest);
      var s := After(need, rest);
      forall k: nat | k < |rest| ensures EndsStreak(need, ticks, k) <==> EndsStreak(need, rest, k) {
      }
      TrailingIs(ticks, need);
      if EndsStreak(need, ticks, |rest|) {
        assert Trailing(ticks) >= need;
      }
      assert EndsStreak(need, ticks, |rest|) <==> Trailing(ticks) >= need;
      if k :| EndsStreak(need, rest, k) { assert EndsStreak(need, ticks, k); }
    }
  }

  /** Over any run of ticks the restart is requested exactly at the first tick that ends `need`
      fatal ticks in a row, so at most once. */
  lemma {:induction false} RestartsAtFirstStreak(need: nat, ticks: seq<bool>, k: nat)
    requires need >= 1 && k < |ticks|
    ensures Restarts(After(need, ticks[..k]), need, ticks[k]) <==>
      EndsStreak(need, ticks, k) && forall j :: 0 <= j < k ==> !EndsStreak(need, ticks, j)
  {
    var past := ticks[..k];
    var now := ticks[..k + 1];
    assert now[..|now| - 1] == past && now[|now| - 1] == ticks[k];
    AfterIs(need, past);
    AfterIs(need, now);
    forall j: nat | j < k ensures EndsStreak(need, ticks, j) <==> EndsStreak(need, past, j) {
    }
    forall j: nat | j <= k ensures EndsStreak(need, ticks, j) <==> EndsStreak(need, now, j) {
    }
    if Restarts(After(need, past), need, ticks[k]) {
      var j :| EndsStreak(need, now, j);
      assert EndsStreak(need, ticks, j);
    }
    if EndsStreak(need, ticks, k) {
      assert EndsStreak(need, now, k);
    }
  }

  // ------------------------------------------------------------------- fatal conditions

  datatype Turns = Turns(memory: Turn, trough: Turn, stalled: Turn, fatal: Turn)

  function Landed(table: seq<Cond>, max: nat, c: Cond, turn: Turn): seq<Cond> {
    var h := Absorbed(table, max, turn.others);
    if turn.granted then Reported(h, max, c) else h
  }

  /** The first condition that asks for a reboot, `espos_health_fatal_alarm`. */
  function FatalIn(table: seq<Cond>): Option<Cond> {
    if table == [] then None else if Fatal(table[0]) then Some(table[0]) else FatalIn(table[1..])
  }

  ghost predicate NoneFatal(table: seq<Cond>) {
    forall i :: 0 <= i < |table| ==> !Fatal(table[i])
  }

  lemma {:induction false} FatalInIs(table: seq<Cond>)
    ensures FatalIn(table).None? <==> NoneFatal(table)
    ensures FatalIn(table).Some? ==>
      exists i :: 0 <= i < |table| && table[i] == FatalIn(table).value && Fatal(table[i]) && NoneFatal(table[..i])
    decreases |table|
  {
    if table != [] {
      FatalInIs(table[1..]);
      if Fatal(table[0]) {
        assert NoneFatal(table[..0]);
      } else if FatalIn(table[1..]).Some? {
        var i :| 0 <= i < |table| - 1 && table[1..][i] == FatalIn(table).value && Fatal(table[1..][i]) && NoneFatal(table[1..][..i]);
        var before, past := table[..i + 1], table[1..][..i];
        assert before == [table[0]] + past;
        assert table[i + 1] == FatalIn(table).value && NoneFatal(before);
      }
    }
  }

  lemma {:induction false} AbsorbedStaysHarmless(table: seq<Cond>, max: nat, others: seq<Cond>)
    requires NoneFatal(table) && NoneFatal(others)
    ensures NoneFatal(Absorbed(table, max, others))
    decreases |others|
  {
    if others != [] {
      AbsorbedStaysHarmless(if WellFormed(others[0]) then Reported(table, max, others[0]) else table, max, others[1..]);
    }
  }

  lemma {:induction false} LandedStaysHarmless(table: seq<Cond>, max: nat, c: Cond, turn: Turn)
    requires NoneFatal(table) && NoneFatal(turn.others) && !Fatal(c)
    ensures NoneFatal(Landed(table, max, c, turn))
  {
    AbsorbedStaysHarmless(table, max, turn.others);
  }

  /** The table a tick's fatal check reads. */
  function TickTable(table: seq<Cond>, max: nat, cfg: Config, h: Heap, stalled: Option<Cond>, t: Turns): seq<Cond> {
    var a := Landed(table, max, Memory(cfg, h), t.memory);
    var b := Landed(a, max, Trough(cfg, h), t.trough);
    var c := if stalled.Some? then Landed(b, max, stalled.value, t.stalled) else b;
    Absorbed(c, max, t.fatal.others)
  }

  /** What the tick strikes for: nothing when the lock times out. */
  function TickFatal(table: seq<Cond>, max: nat, cfg: Config, h: Heap, stalled: Option<Cond>, t: Turns): Option<Cond> {
    if t.fatal.granted then FatalIn(TickTable(table, max, cfg, h, stalled, t)) else None
  }

  predicate Silent(others: seq<Cond>, key: string) {
    forall i :: 0 <= i < |others| ==> others[i].key != key
  }

  lemma {:induction false} AbsorbedEntry(table: seq<Cond>, max: nat, others: seq<Cond>, key: string)
    ensures Silent(others, key) ==> Entry(Absorbed(table, max, others), key) == Entry(table, key)
    ensures Entry(table, key).Some? ==> Entry(Absorbed(table, max, others), key).Some?
    decreases |others|
  {
    hide Entry;
    if others != [] {
      ReportedEntry(table, max, others[0], key);
      AbsorbedEntry(if WellFormed(others[0]) then Reported(table, max, others[0]) else table, max, others[1..], key);
    }
  }

  /** The key is in the table, or this many reports leave room for it. */
  predicate Room(table: seq<Cond>, max: nat, key: string, reports: nat) {
    Entry(table, key).Some? || |table| + reports < max
  }

  lemma {:induction false} LandedEntry(table: seq<Cond>, max: nat, c: Cond, turn: Turn, key: string, later: nat)
    ensures key == c.key && turn.granted && Room(table, max, key, |turn.others|) ==> Entry(Landed(table, max, c, turn), key) == Some(c)
    ensures key != c.key && Silent(turn.others, key) ==> Entry(Landed(table, max, c, turn), key) == Entry(table, key)
    ensures Room(table, max, key, |turn.others| + 1 + later) ==> Room(Landed(table, max, c, turn), max, key, later)
  {
    hide Entry;
    AbsorbedEntry(table, max, turn.others, key);
    AbsorbedSize(table, max, turn.others);
    ReportedEntry(Absorbed(table, max, turn.others), max, c, key);
  }

  /** How many reports other tasks make during a tick. */
  function Busy(t: Turns): nat {
    |t.memory.others| + |t.trough.others| + |t.stalled.others| + |t.fatal.others|
  }

  /** A tick leaves its findings in the table: each of its reports that got the lock stands there, unless the table was full
      or another task reported the same key after it; a key that nobody reports keeps its entry. */
  lemma {:induction false} TickLeaves(table: seq<Cond>, max: nat, cfg: Config, h: Heap, stalled: Option<Cond>, t: Turns, key: string)
    requires Room(table, max, key, Busy(t) + 3) && Silent(t.fatal.others, key) && (stalled.Some? ==> stalled.value.key == "taskStalled")
    requires key != "taskStalled" && stalled.Some? ==> Silent(t.stalled.others, key)
    ensures var r := Entry(TickTable(table, max, cfg, h, stalled, t), key);
      && (key == "lowMemory" && t.memory.granted && Silent(t.trough.others, key) ==> r == Some(Memory(cfg, h)))
      && (key == "memoryTrough" && t.trough.granted ==> r == Some(Trough(cfg, h)))
      && (key == "taskStalled" && stalled.Some? && t.stalled.granted ==> r == stalled)
      && (key !in {"lowMemory", "memoryTrough", "taskStalled"} && Silent(t.memory.others, key) && Silent(t.trough.others, key) ==>
          r == Entry(table, key))
  {
    hide Entry, Landed, Absorbed, Silent, Memory, Trough;
    assert Memory(cfg, h).key == "lowMemory" && Trough(cfg, h).key == "memoryTrough" by { MemoryLevels(cfg, h); }
    var a := Landed(table, max, Memory(cfg, h), t.memory);
    var later := |t.trough.others| + |t.stalled.others| + |t.fatal.others|;
    LandedEntry(table, max, Memory(cfg, h), t.memory, key, later + 2);
    var b := Landed(a, max, Trough(cfg, h), t.trough);
    LandedEntry(a, max, Trough(cfg, h), t.trough, key, |t.stalled.others| + |t.fatal.others| + 1);
    if stalled.Some? { LandedEntry(b, max, stalled.value, t.stalled, key, |t.fatal.others|); }
    AbsorbedEntry(if stalled.Some? then Landed(b, max, stalled.value, t.stalled) else b, max, t.fatal.others, key);
  }

  /** A flagged alarm that stands in the table is found by a check that gets the lock. */
  lemma {:induction false} StandingAlarmIsFound(table: seq<Cond>, key: string)
    requires Entry(table, key).Some? && Fatal(Entry(table, key).value)
    ensures FatalIn(table).Some?
  {
    FatalInIs(table);
    assert !NoneFatal(table) by { assert Fatal(table[IndexOf(table, key)]); }
  }

  /** Warnings, troughs and drills alone never strike: while no condition in the table and no report
      of another task is a flagged alarm, memory is above its alarm floors and no task is
      stalled, a tick finds nothing fatal. */
  lemma {:induction false} HarmlessTickIsNoStrike(table: seq<Cond>, max: nat, cfg: Config, h: Heap, stalled: Option<Cond>, t: Turns)
    requires NoneFatal(table) && NoneFatal(t.memory.others) && NoneFatal(t.trough.others)
    requires NoneFatal(t.stalled.others) && NoneFatal(t.fatal.others)
    requires !Fatal(Memory(cfg, h)) && (stalled.Some? ==> !Fatal(stalled.value))
    ensures TickFatal(table, max, cfg, h, stalled, t).None?
  {
    HarmlessTickTable(table, max, cfg, h, stalled, t);
    FatalInIs(TickTable(table, max, cfg, h, stalled, t));
  }

  lemma {:induction false} HarmlessTickTable(table: seq<Cond>, max: nat, cfg: Config, h: Heap, stalled: Option<Cond>, t: Turns)
    requires NoneFatal(table) && NoneFatal(t.memory.others) && NoneFatal(t.trough.others)
    requires NoneFatal(t.stalled.others) && NoneFatal(t.fatal.others)
    requires !Fatal(Memory(cfg, h)) && (stalled.Some? ==> !Fatal(stalled.value))
    ensures NoneFatal(TickTable(table, max, cfg, h, stalled, t))
  {
    hide Memory, Trough, Landed, Absorbed, FatalIn;
    MemoryIsFatalOnlyOnAlarm(cfg, h, h);
    var a := Landed(table, max, Memory(cfg, h), t.memory);
    LandedStaysHarmless(table, max, Memory(cfg, h), t.memory);
    var b := Landed(a, max, Trough(cfg, h), t.trough);
    LandedStaysHarmless(a, max, Trough(cfg, h), t.trough);
    if stalled.Some? { LandedStaysHarmless(b, max, stalled.value, t.stalled); }
    AbsorbedStaysHarmless(if stalled.Some? then Landed(b, max, stalled.value, t.stalled) else b, max, t.fatal.others);
  }

  // -------------------------------------------------------------------- watched tasks

  /** A watched task with the true time of its last kick; id 0 marks a free slot. */
  datatype Task = Task(id: nat, name: string, timeout: u32, kicked: int)

  /** The silence the code reads off its counter: nothing for a stamp newer than the sample. */
  function Silence(t: int, kicked: int): nat {
    var behind := (t - kicked) % TWO32;
    if behind < TWO31 then behind else 0
  }

  predicate Over(w: Task, t: int) {
    w.id != 0 && Silence(t, w.kicked) > w.timeout
  }

  /** A kick within the timeout is never taken for a stall, whether or not the clock wrapped and
      even if it landed after the sample. A longer silence shows exactly while its length,
      modulo the turn of the clock, is above the timeout and below half a turn. */
  lemma {:induction false} StallShowsIff(w: Task, t: int)
    requires w.id != 0 && -TWO31 <= t - w.kicked
    ensures t - w.kicked <= w.timeout ==> !Over(w, t)
    ensures t - w.kicked > w.timeout ==> (Over(w, t) <==> w.timeout < (t - w.kicked) % TWO32 < TWO31)
    ensures w.timeout < t - w.kicked < TWO31 ==> Over(w, t)
  {
  }

  /** A task silent for half a turn of the clock counts as freshly kicked. */
  lemma {:induction false} LongSilenceIsMissed(w: Task, t: int)
    requires w.id != 0 && t - w.kicked == TWO31
    ensures !Over(w, t)
  {
  }

  /** The task silent longest beyond its own limit, the last of equals; -1 if there is none. */
  function Worst(tasks: seq<Task>, t: int, n: nat): (r: int)
    requires n <= |tasks|
    ensures -1 <= r < n
  {
    if n == 0 then -1 else
      var w := Worst(tasks, t, n - 1);
      if Over(tasks[n - 1], t) && (w < 0 || Silence(t, tasks[n - 1].kicked) >= Silence(t, tasks[w].kicked)) then n - 1 else w
  }

  lemma {:induction false} WorstIs(tasks: seq<Task>, t: int, n: nat)
    requires n <= |tasks|
    ensures var w := Worst(tasks, t, n);
      && (w < 0 <==> forall i :: 0 <= i < n ==> !Over(tasks[i], t))
      && (w >= 0 ==> Over(tasks[w], t) && forall i :: 0 <= i < n && Over(tasks[i], t) ==>
            Silence(t, tasks[i].kicked) < Silence(t, tasks[w].kicked) || (Silence(t, tasks[i].kicked) == Silence(t, tasks[w].kicked) && i <= w))
    decreases n
  {
    hide Silence;
    if n > 0 { WorstIs(tasks, t, n - 1); }
  }

  function StalledReport(tasks: seq<Task>, t: int): Cond {
    var w := Worst(tasks, t, |tasks|);
    if w < 0 then Cond("taskStalled", Normal, "", true)
    else Cond("taskStalled", Alarm, tasks[w].name + " silent for " + Decimal(Silence(t, tasks[w].kicked) / 1000) +
              " s (limit " + Decimal(tasks[w].timeout / 1000) + " s)", true)
  }

  /** The report is fatal exactly when some task is over its limit, and clears the condition otherwise; it names a task that
      is silent longest of those. */
  lemma {:induction false} StalledIsFatalIff(tasks: seq<Task>, t: int)
    ensures Fatal(StalledReport(tasks, t)) <==> exists i :: 0 <= i < |tasks| && Over(tasks[i], t)
    ensures StalledReport(tasks, t).key == "taskStalled" && (StalledReport(tasks, t).level == Normal || Fatal(StalledReport(tasks, t)))
    ensures Fatal(StalledReport(tasks, t)) ==> exists w ::
      && 0 <= w < |tasks| && Over(tasks[w], t) && tasks[w].name + " silent for " <= StalledReport(tasks, t).message
      && forall i :: 0 <= i < |tasks| && Over(tasks[i], t) ==> Silence(t, tasks[i].kicked) <= Silence(t, tasks[w].kicked)
  {
    hide Over, Silence, Decimal;
    WorstIs(tasks, t, |tasks|);
    var w := Worst(tasks, t, |tasks|);
    if w >= 0 {
      assert tasks[w].name + " silent for " <= StalledReport(tasks, t).message;
    }
  }

  // ---------------------------------------------------------------------- one tick

  datatype Record = Record(key: string, message: string, minFree: u32, minInternal: u32, largestBlock: u32,
                           uptime: u32, unixMs: nat)

  datatype Action = Report(cond: Cond) | StoreRecord(rec: Record) | Restart

  /** What a tick samples, and what happens around its locks. */
  datatype Sample = Sample(t: int, heap: Heap, uptime: u32, unixMs: nat, turns: Turns)

  /** The policy: its watched tasks, whether it ever watched one, and its strikes. */
  datatype State = State(tasks: seq<Task>, ever: bool, strikes: Strikes)

  function Stalled(s: State, t: int): Option<Cond> {
    if s.ever then Some(StalledReport(s.tasks, t)) else None
  }

  /** The flagged alarm a tick finds, were it to look. */
  function Finds(s: State, cfg: Config, max: nat, table: seq<Cond>, i: Sample): Option<Cond> {
    TickFatal(table, max, cfg, i.heap, Stalled(s, i.t), i.turns)
  }

  function Ticked(s: State, cfg: Config, max: nat, table: seq<Cond>, i: Sample): State {
    s.(strikes := Strike(s.strikes, cfg.strikes, Finds(s, cfg, max, table, i).Some?))
  }

  function TableAfter(s: State, cfg: Config, max: nat, table: seq<Cond>, i: Sample): seq<Cond> {
    if s.strikes.restarting then table else TickTable(table, max, cfg, i.heap, Stalled(s, i.t), i.turns)
  }

  /** Every report of a tick; once a restart is asked for, none. */
  function ReportsOf(s: State, cfg: Config, i: Sample): seq<Action> {
    if s.strikes.restarting then [] else
      [Report(Memory(cfg, i.heap)), Report(Trough(cfg, i.heap))] +
      (if s.ever then [Report(StalledReport(s.tasks, i.t))] else [])
  }

  function RecordOf(c: Cond, i: Sample): Record {
    Record(c.key, Clip(c.message, 63), i.heap.totalMin, i.heap.internalMin, i.heap.largestBlock, i.uptime, i.unixMs)
  }

  function Actions(s: State, cfg: Config, max: nat, table: seq<Cond>, i: Sample): seq<Action> {
    var c := Finds(s, cfg, max, table, i);
    ReportsOf(s, cfg, i) +
    if c.Some? && Restarts(s.strikes, cfg.strikes, true) then [StoreRecord(RecordOf(c.value, i)), Restart] else []
  }

  // -------------------------------------------------------------- watching and kicking

  function TaskAt(tasks: seq<Task>, id: nat): (i: nat)
    ensures i <= |tasks| && (i < |tasks| ==> tasks[i].id == id)
    ensures forall j :: 0 <= j < i ==> tasks[j].id != id
  {
    if tasks == [] || tasks[0].id == id then 0 else
      var rest := TaskAt(tasks[1..], id);
      assert forall j :: 1 <= j < 1 + rest ==> tasks[j] == tasks[1..][j - 1];
      1 + rest
  }

  lemma {:induction false} TaskAtIs(tasks: seq<Task>, id: nat, i: nat)
    requires i <= |tasks| && (i < |tasks| ==> tasks[i].id == id) && forall j :: 0 <= j < i ==> tasks[j].id != id
    ensures TaskAt(tasks, id) == i
  {
  }

  function Kicked(s: State, id: nat, t: int): State {
    var i := TaskAt(s.tasks, id);
    if id == 0 || i == |s.tasks| then s else s.(tasks := s.tasks[i := s.tasks[i].(kicked := t)])
  }

  /** The slot a task is watched in: its own, else a free one. */
  function SlotFor(s: State, id: nat): nat {
    if TaskAt(s.tasks, id) < |s.tasks| then TaskAt(s.tasks, id) else TaskAt(s.tasks, 0)
  }

  function WatchErr(s: State, id: nat, name: string): Err {
    if id == 0 || name == "" then InvalidArg else if SlotFor(s, id) == |s.tasks| then NoMem else Ok
  }

  function WatchedAfter(s: State, id: nat, name: string, timeout: u32, t: int): State {
    if WatchErr(s, id, name) != Ok then s
    else State(s.tasks[SlotFor(s, id) := Task(id, Clip(name, 15), timeout, t)], true, s.strikes)
  }

  function UnwatchedAfter(s: State, id: nat): State {
    var i := TaskAt(s.tasks, id);
    if id == 0 || i == |s.tasks| then s else s.(tasks := s.tasks[i := s.tasks[i].(id := 0)])
  }

  /** Each task is watched at most once. */
  predicate Single(tasks: seq<Task>) {
    forall i, j :: 0 <= i < j < |tasks| && tasks[i].id != 0 ==> tasks[i].id != tasks[j].id
  }

  function Lookup(tasks: seq<Task>, id: nat): Option<Task> {
    if TaskAt(tasks, id) < |tasks| then Some(tasks[TaskAt(tasks, id)]) else None
  }

  lemma {:induction false} LookupAfter(tasks: seq<Task>, i: nat, w: Task, id: nat)
    requires Single(tasks) && i < |tasks| && id != 0
    requires w.id != 0 ==> TaskAt(tasks, w.id) == i || (tasks[i].id == 0 && TaskAt(tasks, w.id) == |tasks|)
    ensures Single(tasks[i := w])
    ensures Lookup(tasks[i := w], id) ==
            if id == w.id then Some(w) else if id == tasks[i].id then None else Lookup(tasks, id)
  {
    var after := tasks[i := w];
    var k := TaskAt(tasks, id);
    if id == w.id { TaskAtIs(after, id, i); }
    else if id == tasks[i].id { TaskAtIs(after, id, |tasks|); }
    else { TaskAtIs(after, id, k); }
  }

  /** A task can be watched if it is one, has a name, and is watched already or finds a free slot; a refused call changes
      nothing, and no call touches the strikes. */
  lemma {:induction false} WatchOkIff(s: State, id: nat, name: string, timeout: u32, t: int)
    ensures WatchErr(s, id, name) == InvalidArg <==> id == 0 || name == ""
    ensures WatchErr(s, id, name) == Ok <==> id != 0 && name != "" && exists i :: 0 <= i < |s.tasks| && s.tasks[i].id in {id, 0}
    ensures WatchErr(s, id, name) in {Ok, InvalidArg, NoMem}
    ensures var r := WatchedAfter(s, id, name, timeout, t);
      if WatchErr(s, id, name) == Ok then r.ever && r.strikes == s.strikes else r == s
    ensures Kicked(s, id, t).ever == s.ever == UnwatchedAfter(s, id).ever
    ensures Kicked(s, id, t).strikes == s.strikes == UnwatchedAfter(s, id).strikes
  {
    hide TaskAt;
    if id != 0 && name != "" && SlotFor(s, id) < |s.tasks| { assert s.tasks[SlotFor(s, id)].id in {id, 0}; }
  }

  /** Watching enters the task once, kicked now; kicking moves its stamp; unwatching forgets it.
      No other task is touched. */
  lemma {:induction false} WatchKickUnwatch(s: State, id: nat, name: string, timeout: u32, t: int, other: nat)
    requires Single(s.tasks) && id != 0 && other != 0
    ensures WatchErr(s, id, name) == Ok ==>
      && Single(WatchedAfter(s, id, name, timeout, t).tasks)
      && Lookup(WatchedAfter(s, id, name, timeout, t).tasks, other) ==
         (if other == id then Some(Task(id, Clip(name, 15), timeout, t)) else Lookup(s.tasks, other))
    ensures Single(Kicked(s, id, t).tasks)
    ensures Lookup(Kicked(s, id, t).tasks, other) ==
      if other == id && Lookup(s.tasks, id).Some? then Some(Lookup(s.tasks, id).value.(kicked := t)) else Lookup(s.tasks, other)
    ensures Single(UnwatchedAfter(s, id).tasks)
    ensures Lookup(UnwatchedAfter(s, id).tasks, other) == if other == id then None else Lookup(s.tasks, other)
  {
    hide TaskAt, Single;
    var i := TaskAt(s.tasks, id);
    if WatchErr(s, id, name) == Ok { LookupAfter(s.tasks, SlotFor(s, id), Task(id, Clip(name, 15), timeout, t), other); }
    if i < |s.tasks| {
      LookupAfter(s.tasks, i, s.tasks[i].(kicked := t), other);
      LookupAfter(s.tasks, i, s.tasks[i].(id := 0), other);
    }
  }

  // ------------------------------------------------------------------ the code itself

  datatype Watched = Watched(task: nat, name: string, timeout: u32, lastKick: u32)

  function Encode(w: Task): Watched {
    Watched(w.id, w.name, w.timeout, Wrap(w.kicked))
  }

  class Policy {
    const cfg: Config
    const max: nat
    var strikes: nat
    var restarting: bool
    const watched: array<Watched>
    var everWatched: bool
    ghost var tasks: seq<Task>

    ghost predicate Valid()
      reads this, watched
    {
      && cfg.strikes >= 1 && watched.Length == WATCHED_MAX == |tasks|
      && (forall i :: 0 <= i < watched.Length ==> watched[i] == Encode(tasks[i]))
      && (!restarting ==> strikes < cfg.strikes)
    }

    ghost function View(): State
      reads this
    {
      State(tasks, everWatched, Strikes(strikes, restarting))
    }

    constructor (cfg: Config, max: nat)
      ensures Valid() && fresh(watched) && this.max == max
      ensures View() == State(seq(WATCHED_MAX, _ => Task(0, "", 0, 0)), false, Strikes(0, false))
      ensures this.cfg == if cfg.strikes == 0 then cfg.(strikes := 1) else cfg
    {
      this.cfg := if cfg.strikes == 0 then cfg.(strikes := 1) else cfg;
      this.max := max;
      strikes, restarting, everWatched := 0, false, false;
      watched := new Watched[WATCHED_MAX](_ => Watched(0, "", 0, 0));
      tasks := seq(WATCHED_MAX, _ => Task(0, "", 0, 0));
    }

    /** The loop over the watched tasks, on the 32-bit counter. */
    method CheckTasks(now: u32, ghost t: int) returns (c: Cond)
      requires Valid() && now == Wrap(t)
      ensures c == StalledReport(tasks, t)
    {
      hide Decimal, Wrap, SignedDiff;
      var stalled, age := -1, 0;
      for i := 0 to watched.Length
        invariant stalled == Worst(tasks, t, i)
        invariant age == if stalled < 0 then 0 else Silence(t, tasks[stalled].kicked)
      {
        var w := watched[i];
        SilenceIs(t, tasks[i].kicked);
        var delta := SignedDiff(now, w.lastKick);
        var silent := if delta < 0 then 0 else delta;
        if w.task != 0 && silent > w.timeout && silent >= age { stalled, age := i, silent; }
      }
      c := if stalled < 0 then Cond("taskStalled", Normal, "", true)
           else Cond("taskStalled", Alarm, watched[stalled].name + " silent for " + Decimal(age / 1000) +
                     " s (limit " + Decimal(watched[stalled].timeout / 1000) + " s)", true);
    }

    /** First flagged alarm in the table. */
    method FindFatal(table: seq<Cond>) returns (c: Option<Cond>)
      ensures c == FatalIn(table)
    {
      for i := 0 to |table|
        invariant FatalIn(table) == FatalIn(table[i..])
      {
        if Fatal(table[i]) { return Some(table[i]); }
        assert table[i..][1..] == table[i + 1..];
      }
      return None;
    }

    /** One tick: report memory, trough and stalled tasks, then let the table decide. The record is
        stored before the restart is requested, and after that ticks do nothing. */
    method Tick(i: Sample, now: u32, table: seq<Cond>) returns (count: nat, actions: seq<Action>, after: seq<Cond>)
      requires Valid() && now == Wrap(i.t)
      modifies this`strikes, this`restarting
      ensures Valid() && count == strikes && View() == Ticked(old(View()), cfg, max, table, i)
      ensures actions == Actions(old(View()), cfg, max, table, i)
      ensures after == TableAfter(old(View()), cfg, max, table, i)
    {
      hide Memory, Trough, Decimal, Landed, Absorbed, FatalIn, StalledReport;
      if restarting { return strikes, [], table; }
      after := Landed(table, max, Memory(cfg, i.heap), i.turns.memory);
      after := Landed(after, max, Trough(cfg, i.heap), i.turns.trough);
      actions := [Report(Memory(cfg, i.heap)), Report(Trough(cfg, i.heap))];
      if everWatched {
        var c := CheckTasks(now, i.t);
        after := Landed(after, max, c, i.turns.stalled);
        actions := actions + [Report(c)];
      }
      after := Absorbed(after, max, i.turns.fatal.others);
      var fatal := None;
      if i.turns.fatal.granted { fatal := FindFatal(after); }
      if fatal.None? {
        strikes := 0;
        return 0, actions + [], after;
      }
      strikes := strikes + 1;
      if strikes < cfg.strikes { return strikes, actions + [], after; }
      var rec := Record(fatal.value.key, Clip(fatal.value.message, 63), i.heap.totalMin, i.heap.internalMin,
                        i.heap.largestBlock, i.uptime, i.unixMs);
      restarting := true;
      actions := actions + [StoreRecord(rec), Restart];
      return strikes, actions, after;
    }

    method FindTask(task: nat) returns (i: nat)
      requires Valid()
      ensures i == TaskAt(tasks, task)
    {
      i := 0;
      while i < watched.Length && watched[i].task != task
        invariant i <= watched.Length && forall j :: 0 <= j < i ==> tasks[j].id != task
      {
        i := i + 1;
      }
      TaskAtIs(tasks, task, i);
    }

    /** Stamp a watched task alive; unknown tasks are ignored. */
    method Kick(task: nat, now: u32, ghost t: int)
      requires Valid() && now == Wrap(t)
      modifies watched, this`tasks
      ensures Valid() && View() == Kicked(old(View()), task, t)
    {
      if task == 0 { return; }
      var i := FindTask(task);
      if i < watched.Length {
        watched[i] := watched[i].(lastKick := now);
        tasks := tasks[i := tasks[i].(kicked := t)];
      }
    }

    /** Register a task, or update it; the registration counts as a kick. */
    method Watch(task: nat, name: string, timeout: u32, now: u32, ghost t: int) returns (err: Err)
      requires Valid() && now == Wrap(t)
      modifies watched, this`tasks, this`everWatched
      ensures Valid() && err == WatchErr(old(View()), task, name)
      ensures View() == WatchedAfter(old(View()), task, name, timeout, t)
    {
      if task == 0 || name == "" { return InvalidArg; }
      var i := FindTask(task);
      if i == watched.Length {
        i := FindTask(0);
        if i == watched.Length { return NoMem; }
      }
      watched[i] := Watched(task, Clip(name, 15), timeout, now);
      tasks := tasks[i := Task(task, Clip(name, 15), timeout, t)];
      everWatched := true;
      return Ok;
    }

    method Unwatch(task: nat) returns (err: Err)
      requires Valid()
      modifies watched, this`tasks
      ensures Valid() && View() == UnwatchedAfter(old(View()), task)
      ensures err == if task != 0 && TaskAt(old(tasks), task) < |old(tasks)| then Ok else NotFound
    {
      if task == 0 { return NotFound; }
      var i := FindTask(task);
      if i == watched.Length { return NotFound; }
      watched[i] := watched[i].(task := 0);
      tasks := tasks[i := tasks[i].(id := 0)];
      return Ok;
    }
  }

  lemma {:induction false} SilenceIs(t: int, kicked: int)
    ensures var delta := SignedDiff(Wrap(t), Wrap(kicked)); Silence(t, kicked) == if delta < 0 then 0 else delta
  {
    WrapOfDiff(t, kicked);
  }
}
