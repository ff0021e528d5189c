/** The drill protocol: one synthetic `test.*` condition raised for a bounded time, under an
    adversary that decides every lock timeout and every report of the other tasks. */
module HealthDrill {
  import opened Esp
  import opened ModClock
  import opened HealthTable

  const TTL_MAX: nat := 300_000

  predicate IsDrill(key: string) {
    "test." <= key && |key| > 5
  }

  /** The turns of one `espos_health_report_test` call, named after what the lock is for. */
  datatype TestTurns = TestTurns(entry: bool, flushRead: Turn, flushReport: Turn, flushRelease: Turn,
                                 claim: Turn, report: Turn, rollback: Turn, clear: Turn, release: Turn)

  /** The turns of one `espos_health_test_expire` call. */
  datatype ExpireTurns = ExpireTurns(entry: bool, flushRead: Turn, flushReport: Turn, flushRelease: Turn,
                                     check: Turn, report: Turn, forget: Turn)

  /** The reports of other tasks: drill keys belong to the protocol alone. */
  function Foreign(reports: seq<Cond>): seq<Cond> {
    if reports == [] then []
    else (if IsDrill(reports[0].key) then [] else [reports[0]]) + Foreign(reports[1..])
  }

  function Others(table: seq<Cond>, max: nat, reports: seq<Cond>): seq<Cond> {
    Absorbed(table, max, Foreign(reports))
  }

  lemma {:induction false} OthersStep(table: seq<Cond>, max: nat, reports: seq<Cond>)
    requires reports != []
    ensures var c := reports[0];
      Others(table, max, reports) ==
      Others(if IsDrill(c.key) || !WellFormed(c) then table else Reported(table, max, c), max, reports[1..])
  {
    var c := reports[0];
    if !IsDrill(c.key) { assert Foreign(reports)[1..] == Foreign(reports[1..]); }
    else { assert Foreign(reports) == Foreign(reports[1..]); }
  }

  lemma {:induction false} OthersKeepDrills(table: seq<Cond>, max: nat, reports: seq<Cond>, key: string)
    requires IsDrill(key)
    ensures Entry(Others(table, max, reports), key) == Entry(table, key)
    decreases |reports|
  {
    hide Others, IsDrill;
    if reports == [] {
      NoOthers(table, max);
    } else {
      var c := reports[0];
      OthersStep(table, max, reports);
      ReportedEntry(table, max, c, key);
      OthersKeepDrills(if IsDrill(c.key) || !WellFormed(c) then table else Reported(table, max, c),
                       max, reports[1..], key);
    }
  }

  lemma {:induction false} NoOthers(table: seq<Cond>, max: nat)
    ensures Others(table, max, []) == table
  {
  }

  /** The drill conditions the table holds. */
  ghost function Drills(table: seq<Cond>): map<string, Cond> {
    map k | k in (set i | 0 <= i < |table| :: table[i].key) && IsDrill(k) :: Entry(table, k).value
  }

  lemma {:induction false} DrillsAre(table: seq<Cond>, k: string)
    ensures k in Drills(table) <==> IsDrill(k) && Entry(table, k).Some?
    ensures k in Drills(table) ==> Entry(table, k) == Some(Drills(table)[k])
  {
  }

  lemma {:induction false} BlankIsNoDrill(table: seq<Cond>)
    ensures "" !in Drills(table) && !IsDrill("")
  {
    DrillsAre(table, "");
  }

  lemma {:induction false} OthersKeepAllDrills(table: seq<Cond>, max: nat, reports: seq<Cond>)
    ensures Drills(Others(table, max, reports)) == Drills(table)
  {
    var after := Others(table, max, reports);
    forall k | IsDrill(k)
      ensures Entry(after, k) == Entry(table, k)
    {
      OthersKeepDrills(table, max, reports, k);
    }
    forall k
      ensures k in Drills(after) <==> k in Drills(table)
      ensures k in Drills(table) ==> Drills(after)[k] == Drills(table)[k]
    {
      DrillsAre(after, k);
      DrillsAre(table, k);
    }
  }

  lemma {:induction false} DrillReported(table: seq<Cond>, max: nat, c: Cond)
    requires IsDrill(c.key) && Fits(table, max, c.key)
    ensures Drills(Reported(table, max, c)) == Drills(table)[c.key := c]
  {
    var after := Reported(table, max, c);
    forall k
      ensures k in Drills(after) <==> k in Drills(table) || k == c.key
      ensures k in Drills(after) ==> Drills(after)[k] == if k == c.key then c else Drills(table)[k]
    {
      ReportedEntry(table, max, c, k);
      DrillsAre(after, k);
      DrillsAre(table, k);
    }
  }

  /** Every raised drill is called `a` or `b`. */
  ghost predicate Names(drills: map<string, Cond>, a: string, b: string) {
    forall k :: k in drills && drills[k].level != Normal ==> k == a || k == b
  }

  ghost predicate NoneRaised(drills: map<string, Cond>) {
    forall k :: k in drills ==> drills[k].level == Normal
  }

  function Cleared(key: string): Cond {
    Cond(key, Normal, "", false)
  }

  // ------------------------------------------------------------ what each call computes

  /** The drill bookkeeping beside the condition table. */
  datatype State = State(table: seq<Cond>, testKey: string, testDeadline: u32, testArmed: bool, pendingClear: string)

  datatype Reply = Reply(end: State, err: Err)

  datatype Pass = Pass(end: State, yes: bool)

  /** Waiting for the lock lets the other tasks report. */
  function Heard(s: State, max: nat, turn: Turn): State {
    s.(table := Others(s.table, max, turn.others))
  }

  function Report(s: State, max: nat, c: Cond, turn: Turn): Reply {
    var h := Heard(s, max, turn);
    if !turn.granted then Reply(h, Timeout)
    else Reply(h.(table := Reported(h.table, max, c)), if Fits(h.table, max, c.key) then Ok else NoMem)
  }

  /** Retry an outstanding clear; yes when nothing is outstanding. */
  function Flush(s: State, max: nat, read: Turn, report: Turn, release: Turn): Pass {
    var h := Heard(s, max, read);
    if !read.granted then Pass(h, false)
    else if h.pendingClear == "" then Pass(h, true)
    else
      var r := Report(h, max, Cleared(h.pendingClear), report);
      if r.err != Ok then Pass(r.end, false)
      else
        var f := Heard(r.end, max, release);
        if release.granted then Pass(f.(pendingClear := ""), true) else Pass(f, false)
  }

  function TestArgs(key: string, level: Level, message: string, ttl: nat): Err {
    if !IsDrill(key) then InvalidArg
    else if level != Normal && (ttl == 0 || ttl > TTL_MAX) then InvalidArg
    else if |key| >= KEY_MAX || |message| >= MSG_MAX then InvalidSize
    else Ok
  }

  /** Arm or disarm before reporting; a different running drill is claimed for clearing. */
  function Claim(s: State, key: string, level: Level, ttl: nat, now: u32): State {
    var c := if s.testArmed && s.testKey != key then s.(pendingClear := s.testKey) else s;
    if level != Normal then c.(testKey := key, testDeadline := (now + ttl) % TWO32, testArmed := true)
    else if c.testKey == key then c.(testKey := "", testArmed := false)
    else c
  }

  function Superseded(s: State, key: string): string {
    if s.testArmed && s.testKey != key then s.testKey else ""
  }

  function Rollback(failed: State, saved: State, previous: string): State {
    failed.(testKey := saved.testKey, testDeadline := saved.testDeadline, testArmed := saved.testArmed,
            pendingClear := if previous != "" && failed.pendingClear == previous then "" else failed.pendingClear)
  }

  function ClearPrevious(s: State, max: nat, previous: string, clear: Turn, release: Turn): State {
    var r := Report(s, max, Cleared(previous), clear);
    if r.err != Ok then r.end else
      var f := Heard(r.end, max, release);
      if release.granted && f.pendingClear == previous then f.(pendingClear := "") else f
  }

  /** A drill transition with nothing outstanding: claim, report, then clear what was superseded. */
  function Transition(s: State, max: nat, c: Cond, ttl: nat, now: u32, t: TestTurns): Reply {
    var h := Heard(s, max, t.claim);
    if !t.claim.granted then Reply(h, Timeout) else
      var previous := Superseded(h, c.key);
      var r := Report(Claim(h, c.key, c.level, ttl, now), max, c, t.report);
      if r.err != Ok then
        var f := Heard(r.end, max, t.rollback);
        Reply(if t.rollback.granted then Rollback(f, h, previous) else f, r.err)
      else if previous != "" then Reply(ClearPrevious(r.end, max, previous, t.clear, t.release), Ok)
      else r
  }

  function ReportTest(s: State, max: nat, key: string, level: Level, message: string, ttl: nat, now: u32, t: TestTurns): Reply {
    if TestArgs(key, level, message, ttl) != Ok then Reply(s, TestArgs(key, level, message, ttl))
    else if !t.entry then Reply(s, Timeout)
    else
      var f := Flush(s, max, t.flushRead, t.flushReport, t.flushRelease);
      if !f.yes then Reply(f.end, Timeout)
      else Transition(f.end, max, Cond(key, level, message, false), ttl, now, t)
  }

  function Expire(s: State, max: nat, now: u32, t: ExpireTurns): Pass {
    if !t.entry then Pass(s, false) else
      var f := Flush(s, max, t.flushRead, t.flushReport, t.flushRelease).end;
      var h := Heard(f, max, t.check);
      if !t.check.granted || !h.testArmed || !Reached(now, h.testDeadline) then Pass(h, false) else
        var r := Report(h, max, Cleared(h.testKey), t.report);
        if r.err != Ok then Pass(r.end, false) else
          var g := Heard(r.end, max, t.forget);
          Pass(if t.forget.granted then g.(testKey := "", testArmed := false) else g, true)
  }

  // ------------------------------------------------------------------------ invariants

  /** The bookkeeping is well formed, and no drill entry carries the reboot flag. */
  ghost predicate Valid(s: State) {
    && s.testArmed == (s.testKey != "")
    && (s.testKey != "" ==> IsDrill(s.testKey) && |s.testKey| < KEY_MAX)
    && (s.pendingClear != "" ==> IsDrill(s.pendingClear) && |s.pendingClear| < KEY_MAX)
    && forall k :: k in Drills(s.table) ==> !Drills(s.table)[k].reboot
  }

  /** Every drill key still raised is named by the armed key or by the pending clear. */
  ghost predicate Tracked(s: State) {
    Names(Drills(s.table), s.testKey, s.pendingClear)
  }

  lemma {:induction false} HeardKeeps(s: State, max: nat, turn: Turn)
    ensures Drills(Heard(s, max, turn).table) == Drills(s.table)
  {
    OthersKeepAllDrills(s.table, max, turn.others);
  }

  /** A report of a drill key touches that key alone, and only when it answers Ok. */
  lemma {:induction false} ReportEffect(s: State, max: nat, c: Cond, turn: Turn)
    requires IsDrill(c.key)
    ensures var r := Report(s, max, c, turn);
      && r.end == s.(table := r.end.table)
      && Drills(r.end.table) == (if r.err == Ok then Drills(s.table)[c.key := c] else Drills(s.table))
      && (turn.granted && c.key in Drills(s.table) ==> r.err == Ok)
  {
    var h := Heard(s, max, turn);
    HeardKeeps(s, max, turn);
    DrillsAre(h.table, c.key);
    if Fits(h.table, max, c.key) {
      DrillReported(h.table, max, c);
    } else {
      assert Reported(h.table, max, c) == h.table;
    }
  }

  /** What a retry of the outstanding clear can leave behind. */
  ghost predicate Flushed(s: State, p: Pass, read: Turn, report: Turn) {
    var d, e := Drills(s.table), Drills(p.end.table);
    && p.end == s.(table := p.end.table, pendingClear := p.end.pendingClear)
    && (p.end.pendingClear == s.pendingClear || p.end.pendingClear == "")
    && (p.yes ==> p.end.pendingClear == "")
    && (e == d || (s.pendingClear != "" && e == d[s.pendingClear := Cleared(s.pendingClear)]))
    && (s.pendingClear != "" && p.end.pendingClear == "" ==> e == d[s.pendingClear := Cleared(s.pendingClear)])
    && (s.pendingClear != "" && s.pendingClear in d && read.granted && report.granted ==>
          e == d[s.pendingClear := Cleared(s.pendingClear)])
  }

  lemma {:induction false} FlushEffect(s: State, max: nat, read: Turn, report: Turn, release: Turn)
    requires s.pendingClear != "" ==> IsDrill(s.pendingClear)
    ensures Flushed(s, Flush(s, max, read, report, release), read, report)
  {
    hide Drills, Others, Reported, Report, Fits, IsDrill;
    HeardKeeps(s, max, read);
    var h := Heard(s, max, read);
    if read.granted && h.pendingClear != "" {
      ReportEffect(h, max, Cleared(h.pendingClear), report);
      HeardKeeps(Report(h, max, Cleared(h.pendingClear), report).end, max, release);
    }
  }

  lemma {:induction false} FlushKeepsTracking(s: State, p: Pass, read: Turn, report: Turn)
    requires Valid(s) && Tracked(s) && Flushed(s, p, read, report)
    ensures Valid(p.end) && Tracked(p.end)
    ensures read.granted && report.granted ==> Names(Drills(p.end.table), s.testKey, s.testKey)
  {
    hide Drills, IsDrill;
    BlankIsNoDrill(s.table);
  }

  /** An explicit clear of the running drill whose report and rollback both time out. */
  predicate ClearLost(s: State, c: Cond, t: TestTurns) {
    && c.level == Normal && t.claim.granted && s.testArmed && s.testKey == c.key && Raised(s.table, c.key)
    && !t.report.granted && !t.rollback.granted
  }

  lemma {:induction false} ClearPreviousEffect(s: State, max: nat, previous: string, clear: Turn, release: Turn)
    requires previous != "" && previous == s.pendingClear && IsDrill(previous)
    ensures var e := ClearPrevious(s, max, previous, clear, release);
      && e == s.(table := e.table, pendingClear := e.pendingClear)
      && (e.pendingClear == previous || e.pendingClear == "")
      && var gone := Drills(s.table)[previous := Cleared(previous)];
      && (Drills(e.table) == gone || (Drills(e.table) == Drills(s.table) && e.pendingClear == previous))
      && (clear.granted && previous in Drills(s.table) ==>
            Drills(e.table) == gone && (release.granted ==> e.pendingClear == ""))
  {
    hide Drills, Others, Reported, Report, Fits, IsDrill;
    ReportEffect(s, max, Cleared(previous), clear);
    HeardKeeps(Report(s, max, Cleared(previous), clear).end, max, release);
  }

  // -------------------------------------------------------------------- the transition

  /** The two ways a transition can end. */
  ghost predicate TransitionEnds(s: State, c: Cond, ttl: nat, now: u32, t: TestTurns, r: Reply) {
    var previous := Superseded(s, c.key);
    var d, e := Drills(s.table), Drills(r.end.table);
    if r.err == Ok then
      && r.end == Claim(s, c.key, c.level, ttl, now).(table := r.end.table, pendingClear := r.end.pendingClear)
      && (r.end.pendingClear == "" || (r.end.pendingClear == previous && previous != ""))
      && (e == d[c.key := c] || (previous != "" && e == d[c.key := c][previous := Cleared(previous)]))
      && (previous != "" && r.end.pendingClear == "" ==> e == d[c.key := c][previous := Cleared(previous)])
      && (previous != "" && t.clear.granted && previous in d ==>
            e == d[c.key := c][previous := Cleared(previous)] && (t.release.granted ==> r.end.pendingClear == ""))
    else
      && e == d
      && (r.end == s.(table := r.end.table) ||
          (t.claim.granted && !t.rollback.granted &&
           r.end == Claim(s, c.key, c.level, ttl, now).(table := r.end.table)))
      && (t.rollback.granted || !t.claim.granted ==> r.end == s.(table := r.end.table))
      && (t.claim.granted && !t.rollback.granted ==>
            r.end == Claim(s, c.key, c.level, ttl, now).(table := r.end.table))
      && (t.claim.granted && t.report.granted ==> c.key !in d)
  }

  lemma {:induction false} TransitionEffect(s: State, max: nat, c: Cond, ttl: nat, now: u32, t: TestTurns)
    requires Valid(s) && s.pendingClear == "" && IsDrill(c.key)
    ensures TransitionEnds(s, c, ttl, now, t, Transition(s, max, c, ttl, now, t))
  {
    hide Drills, Others, Reported, Report, Fits, IsDrill, ClearPrevious;
    HeardKeeps(s, max, t.claim);
    var h := Heard(s, max, t.claim);
    if t.claim.granted {
      var claimed := Claim(h, c.key, c.level, ttl, now);
      ReportEffect(claimed, max, c, t.report);
      var r := Report(claimed, max, c, t.report);
      if r.err != Ok {
        HeardKeeps(r.end, max, t.rollback);
      } else if Superseded(h, c.key) != "" {
        ClearPreviousEffect(r.end, max, Superseded(h, c.key), t.clear, t.release);
      }
    }
  }

  lemma {:induction false} TransitionTracks(s: State, c: Cond, ttl: nat, now: u32, t: TestTurns, r: Reply)
    requires Valid(s) && Tracked(s) && s.pendingClear == "" && IsDrill(c.key) && |c.key| < KEY_MAX && !c.reboot
    requires TransitionEnds(s, c, ttl, now, t, r)
    ensures Valid(r.end) && (Tracked(r.end) <==> !(r.err != Ok && ClearLost(s, c, t)))
  {
    BlankIsNoDrill(s.table);
    DrillsAre(s.table, c.key);
    hide Drills, Others, IsDrill, Entry;
  }

  // --------------------------------------------------------------------- whole calls

  /** The one schedule that loses a drill, read off the state before the call and its turns. */
  predicate LosesClear(s: State, max: nat, key: string, level: Level, message: string, ttl: nat, t: TestTurns) {
    && TestArgs(key, level, message, ttl) == Ok && t.entry
    && var f := Flush(s, max, t.flushRead, t.flushReport, t.flushRelease);
       f.yes && ClearLost(f.end, Cond(key, level, message, false), t)
  }

  /** Whatever the locks do, a drill call keeps every raised drill tracked, except on exactly that schedule. */
  lemma {:induction false} DrillCallTracks(s: State, max: nat, key: string, level: Level, message: string, ttl: nat, now: u32, t: TestTurns)
    requires Valid(s) && Tracked(s)
    ensures var r := ReportTest(s, max, key, level, message, ttl, now, t);
      Valid(r.end) && (Tracked(r.end) <==> !LosesClear(s, max, key, level, message, ttl, t))
  {
    hide Drills, Others, IsDrill, Entry, Flush, Transition;
    if TestArgs(key, level, message, ttl) == Ok && t.entry {
      var f := Flush(s, max, t.flushRead, t.flushReport, t.flushRelease);
      FlushEffect(s, max, t.flushRead, t.flushReport, t.flushRelease);
      FlushKeepsTracking(s, f, t.flushRead, t.flushReport);
      if f.yes {
        var c := Cond(key, level, message, false);
        TransitionEffect(f.end, max, c, ttl, now, t);
        TransitionTracks(f.end, c, ttl, now, t, Transition(f.end, max, c, ttl, now, t));
        if ClearLost(f.end, c, t) { LostMeansTimeout(f.end, max, c, ttl, now, t); }
      }
    }
  }

  /** Which calls are refused outright, changing nothing: a key that is not "test." and more, a raise for no time or for
      over 5 minutes, a key or message too long for its buffer. */
  lemma {:induction false} DrillCallRefused(s: State, max: nat, key: string, level: Level, message: string, ttl: nat, now: u32, t: TestTurns)
    ensures var r := ReportTest(s, max, key, level, message, ttl, now, t);
      var named := |key| > 5 && key[..5] == "test.";
      var timed := level == Normal || 1 <= ttl <= 300_000;
      && (r.err == InvalidArg <==> !named || !timed)
      && (r.err == InvalidSize <==> named && timed && (|key| >= 24 || |message| >= 96))
      && (r.err in {InvalidArg, InvalidSize} ==> r.end == s)
  {
    hide Flush, Transition;
    assert |key| > 5 ==> ("test." <= key <==> key[..5] == "test.");
    TransitionErr(Flush(s, max, t.flushRead, t.flushReport, t.flushRelease).end, max, Cond(key, level, message, false), ttl, now, t);
  }

  lemma {:induction false} TransitionErr(s: State, max: nat, c: Cond, ttl: nat, now: u32, t: TestTurns)
    ensures Transition(s, max, c, ttl, now, t).err in {Ok, Timeout, NoMem}
  {
  }

  lemma {:induction false} HeardSize(s: State, max: nat, turn: Turn)
    ensures |Heard(s, max, turn).table| <= |s.table| + |turn.others|
  {
    AbsorbedSize(s.table, max, Foreign(turn.others));
    ForeignSize(turn.others);
  }

  lemma {:induction false} ForeignSize(reports: seq<Cond>)
    ensures |Foreign(reports)| <= |reports|
  {
    if reports != [] { ForeignSize(reports[1..]); }
  }

  /** The lock is never lost on the way to the report, and other tasks leave room for it. */
  predicate GoesAhead(s: State, max: nat, t: TestTurns) {
    && t.entry && t.flushRead.granted && t.flushReport.granted && t.flushRelease.granted && t.claim.granted && t.report.granted
    && |s.table| + |t.flushRead.others| + |t.flushReport.others| + |t.flushRelease.others| + |t.claim.others| +
       |t.report.others| + 1 < max
  }

  lemma {:induction false} ReportGoes(s: State, max: nat, c: Cond, turn: Turn)
    requires turn.granted && |s.table| + |turn.others| < max
    ensures var r := Report(s, max, c, turn); r.err == Ok && |r.end.table| <= |s.table| + |turn.others| + 1
  {
    HeardSize(s, max, turn);
  }

  lemma {:induction false} FlushGoes(s: State, max: nat, read: Turn, report: Turn, release: Turn)
    requires read.granted && report.granted && release.granted
    requires |s.table| + |read.others| + |report.others| < max
    ensures var p := Flush(s, max, read, report, release);
      p.yes && |p.end.table| <= |s.table| + |read.others| + |report.others| + 1 + |release.others|
  {
    hide Heard, Report;
    HeardSize(s, max, read);
    var h := Heard(s, max, read);
    assert h.pendingClear == s.pendingClear by { HeardFields(s, max, read); }
    ReportGoes(h, max, Cleared(h.pendingClear), report);
    HeardSize(Report(h, max, Cleared(h.pendingClear), report).end, max, release);
  }

  lemma {:induction false} HeardFields(s: State, max: nat, turn: Turn)
    ensures Heard(s, max, turn) == s.(table := Heard(s, max, turn).table)
  {
  }

  lemma {:induction false} TransitionGoes(s: State, max: nat, c: Cond, ttl: nat, now: u32, t: TestTurns)
    requires t.claim.granted && t.report.granted && |s.table| + |t.claim.others| + |t.report.others| < max
    ensures Transition(s, max, c, ttl, now, t).err == Ok
  {
    hide Heard, Report, ClearPrevious;
    HeardSize(s, max, t.claim);
    var h := Heard(s, max, t.claim);
    ReportGoes(Claim(h, c.key, c.level, ttl, now), max, c, t.report);
  }

  /** Such a call is refused for nothing but its arguments, and leaves no clear outstanding if it also gets the locks to
      clear the drill it took over from. */
  lemma {:induction false} DrillCallGoesThrough(s: State, max: nat, key: string, level: Level, message: string, ttl: nat, now: u32, t: TestTurns)
    requires Valid(s) && GoesAhead(s, max, t)
    ensures var r := ReportTest(s, max, key, level, message, ttl, now, t);
      && r.err == TestArgs(key, level, message, ttl)
      && (r.err == Ok && t.clear.granted && t.release.granted && (s.testArmed ==> s.testKey in Drills(s.table)) ==>
          r.end.pendingClear == "")
  {
    hide Drills, Others, IsDrill, Flush, Transition;
    var c := Cond(key, level, message, false);
    if TestArgs(key, level, message, ttl) == Ok {
      FlushGoes(s, max, t.flushRead, t.flushReport, t.flushRelease);
      FlushEffect(s, max, t.flushRead, t.flushReport, t.flushRelease);
      FlushKeepsValid(s, max, t.flushRead, t.flushReport, t.flushRelease);
      var f := Flush(s, max, t.flushRead, t.flushReport, t.flushRelease).end;
      TransitionGoes(f, max, c, ttl, now, t);
      TransitionEffect(f, max, c, ttl, now, t);
    }
  }

  lemma {:induction false} LostMeansTimeout(s: State, max: nat, c: Cond, ttl: nat, now: u32, t: TestTurns)
    requires ClearLost(s, c, t)
    ensures Transition(s, max, c, ttl, now, t).err == Timeout
  {
  }

  /** A drill call that answers Ok did what it says: the key reads as asked, without the reboot
      flag; a raise is armed for its ttl; a superseded drill is cleared, or named for clearing. */
  lemma {:induction false} DrillCallDelivers(s: State, max: nat, key: string, level: Level, message: string, ttl: nat, now: u32, t: TestTurns)
    requires Valid(s)
    requires ReportTest(s, max, key, level, message, ttl, now, t).err == Ok
    ensures var e := ReportTest(s, max, key, level, message, ttl, now, t).end;
      && Valid(e) && e.pendingClear != key
      && key in Drills(e.table) && Drills(e.table)[key] == Cond(key, level, message, false)
      && (level != Normal ==> e.testArmed && e.testKey == key && e.testDeadline == (now + ttl) % TWO32)
      && (level == Normal && s.testKey == key ==> !e.testArmed)
      && (s.testArmed && s.testKey != key && s.testKey in Drills(e.table) ==>
            Drills(e.table)[s.testKey].level == Normal || e.pendingClear == s.testKey)
      && (forall k :: k in Drills(s.table) && k != key && k != s.testKey && k != s.pendingClear ==>
            k in Drills(e.table) && Drills(e.table)[k] == Drills(s.table)[k])
  {
    hide Drills, Others, IsDrill, Entry, Flush, Transition;
    FlushEffect(s, max, t.flushRead, t.flushReport, t.flushRelease);
    var f := Flush(s, max, t.flushRead, t.flushReport, t.flushRelease).end;
    FlushKeepsValid(s, max, t.flushRead, t.flushReport, t.flushRelease);
    TransitionEffect(f, max, Cond(key, level, message, false), ttl, now, t);
    BlankIsNoDrill(s.table);
  }

  lemma {:induction false} FlushKeepsValid(s: State, max: nat, read: Turn, report: Turn, release: Turn)
    requires Valid(s)
    ensures Valid(Flush(s, max, read, report, release).end)
  {
    hide Drills, Others, IsDrill, Flush;
    FlushEffect(s, max, read, report, release);
  }

  /** A refused or failed drill call raises and clears nothing beyond the outstanding clear, and
      when its rollback gets the lock the running drill keeps its key and its deadline. */
  lemma {:induction false} DrillCallFailsClean(s: State, max: nat, key: string, level: Level, message: string, ttl: nat, now: u32, t: TestTurns)
    requires Valid(s)
    requires ReportTest(s, max, key, level, message, ttl, now, t).err != Ok
    ensures var e := ReportTest(s, max, key, level, message, ttl, now, t).end;
      && (Drills(e.table) == Drills(s.table) ||
          (s.pendingClear != "" && Drills(e.table) == Drills(s.table)[s.pendingClear := Cleared(s.pendingClear)]))
      && (t.rollback.granted ==>
            e == s.(table := e.table, pendingClear := e.pendingClear) && e.pendingClear in {"", s.pendingClear})
  {
    hide Drills, Others, IsDrill, Entry, Flush, Transition;
    if TestArgs(key, level, message, ttl) == Ok && t.entry {
      FlushEffect(s, max, t.flushRead, t.flushReport, t.flushRelease);
      var f := Flush(s, max, t.flushRead, t.flushReport, t.flushRelease);
      FlushKeepsValid(s, max, t.flushRead, t.flushReport, t.flushRelease);
      if f.yes { TransitionEffect(f.end, max, Cond(key, level, message, false), ttl, now, t); }
    }
  }

  /** At true time `now` the code takes a deadline for reached. */
  predicate Passed(due: int, now: int) {
    (now - due) % TWO32 < TWO31
  }

  /** An expiry pass never loses a drill, touches only the due drill and the outstanding clear,
      and without a timeout it leaves no drill raised at all once the deadline has passed, less
      than half a turn of the clock ago. */
  lemma {:induction false} ExpiryClears(s: State, max: nat, due: int, now: int, t: ExpireTurns)
    requires Valid(s) && Tracked(s) && s.testDeadline == Wrap(due)
    ensures var p := Expire(s, max, Wrap(now), t);
      && Valid(p.end) && Tracked(p.end)
      && (p.yes ==> s.testArmed && Passed(due, now) && s.testKey in Drills(p.end.table)
                    && Drills(p.end.table)[s.testKey] == Cleared(s.testKey))
      && (!Passed(due, now) ==> p.end.testKey == s.testKey && p.end.testArmed == s.testArmed)
      && (p.yes && t.forget.granted ==> !p.end.testArmed)
      && (Unhindered(t) && s.testArmed && Passed(due, now) && s.testKey in Drills(s.table) ==> p.yes)
      && (Unhindered(t) && (s.testArmed ==> Passed(due, now)) ==> NoneRaised(Drills(p.end.table)))
  {
    hide Drills, Others, IsDrill, Entry, Flush, Report, Reached, Wrap;
    BlankIsNoDrill(s.table);
    ReachedExactly(now, due);
    if t.entry {
      var f := Flush(s, max, t.flushRead, t.flushReport, t.flushRelease);
      FlushEffect(s, max, t.flushRead, t.flushReport, t.flushRelease);
      FlushKeepsTracking(s, f, t.flushRead, t.flushReport);
      HeardKeeps(f.end, max, t.check);
      var h := Heard(f.end, max, t.check);
      BlankIsNoDrill(h.table);
      if t.check.granted && h.testArmed && Reached(Wrap(now), h.testDeadline) {
        ReportEffect(h, max, Cleared(h.testKey), t.report);
        HeardKeeps(Report(h, max, Cleared(h.testKey), t.report).end, max, t.forget);
      }
    }
  }

  // ------------------------------------------------------------ a drill cut short

  /** The call got as far as its claim, and lost the lock it would have rolled back under. */
  predicate KeepsClaim(s: State, max: nat, key: string, level: Level, message: string, ttl: nat, t: TestTurns) {
    && TestArgs(key, level, message, ttl) == Ok && t.entry && Flush(s, max, t.flushRead, t.flushReport, t.flushRelease).yes
    && t.claim.granted && !t.rollback.granted
  }

  /** What a failed call over a running drill leaves: its bookkeeping as it was, or its claim; and no drill touched but the
      one whose clear was outstanding. */
  lemma {:induction false} FailedCallLeaves(s: State, max: nat, key: string, level: Level, message: string, ttl: nat, now: u32, t: TestTurns)
    requires Valid(s) && s.testArmed && s.pendingClear != s.testKey
    requires ReportTest(s, max, key, level, message, ttl, now, t).err != Ok
    ensures var e := ReportTest(s, max, key, level, message, ttl, now, t).end;
      var kept := KeepsClaim(s, max, key, level, message, ttl, t);
      && s.testKey != "" && Valid(e)
      && (Drills(e.table) == Drills(s.table) ||
          (s.pendingClear != "" && Drills(e.table) == Drills(s.table)[s.pendingClear := Cleared(s.pendingClear)]))
      && e == (if kept then Claim(s, key, level, ttl, now) else s).(table := e.table, pendingClear := e.pendingClear)
      && (if kept then e.pendingClear == (if key == s.testKey then "" else s.testKey) else e.pendingClear in {"", s.pendingClear})
      && (e.pendingClear == s.testKey <==> kept && key != s.testKey)
  {
    hide Drills, Others, IsDrill, Entry, Flush, Transition;
    BlankIsNoDrill(s.table);
    if TestArgs(key, level, message, ttl) == Ok && t.entry {
      FlushEffect(s, max, t.flushRead, t.flushReport, t.flushRelease);
      FlushKeepsValid(s, max, t.flushRead, t.flushReport, t.flushRelease);
      var f := Flush(s, max, t.flushRead, t.flushReport, t.flushRelease);
      if f.yes { TransitionEffect(f.end, max, Cond(key, level, message, false), ttl, now, t); }
    }
  }

  predicate Unhindered(t: ExpireTurns) {
    t.entry && t.flushRead.granted && t.flushReport.granted && t.check.granted && t.report.granted
  }

  /** What an expiry pass that gets its locks does to one raised drill. */
  lemma {:induction false} UnhinderedExpiry(s: State, max: nat, now: u32, t: ExpireTurns, k: string)
    requires Valid(s) && Unhindered(t) && k in Drills(s.table) && Drills(s.table)[k].level != Normal
    ensures var d := Drills(Expire(s, max, now, t).end.table);
      k in d && (d[k].level == Normal <==> k == s.pendingClear || (k == s.testKey && Reached(now, s.testDeadline)))
  {
    hide Drills, Others, IsDrill, Entry, Flush, Report, Reached;
    BlankIsNoDrill(s.table);
    var f := Flush(s, max, t.flushRead, t.flushReport, t.flushRelease);
    FlushEffect(s, max, t.flushRead, t.flushReport, t.flushRelease);
    HeardKeeps(f.end, max, t.check);
    var h := Heard(f.end, max, t.check);
    if h.testArmed && Reached(now, h.testDeadline) {
      ReportEffect(h, max, Cleared(h.testKey), t.report);
      HeardKeeps(Report(h, max, Cleared(h.testKey), t.report).end, max, t.forget);
    }
  }

  /** After a call that raised a drill at true time `at`, an expiry pass that gets its locks ends it
      exactly if its ttl has run out, less than half a turn of the clock ago, modulo whole turns. */
  lemma {:induction false} RaisedDrillEndsIff(s: State, max: nat, key: string, level: Level, message: string, ttl: nat, at: int, t: TestTurns,
                                              later: int, x: ExpireTurns)
    requires Valid(s) && level != Normal && ReportTest(s, max, key, level, message, ttl, Wrap(at), t).err == Ok
    requires Unhindered(x)
    ensures var e := ReportTest(s, max, key, level, message, ttl, Wrap(at), t).end;
      var d := Drills(Expire(e, max, Wrap(later), x).end.table);
      key in d && (d[key].level == Normal <==> Passed(at + ttl, later))
  {
    hide Drills, IsDrill, ReportTest, Expire, Reached, Wrap, Valid;
    DrillCallDelivers(s, max, key, level, message, ttl, Wrap(at), t);
    UnhinderedExpiry(ReportTest(s, max, key, level, message, ttl, Wrap(at), t).end, max, Wrap(later), x, key);
    WrapOfSum(at, ttl);
    ReachedExactly(later, at + ttl);
  }

  /** Exactly when, after a failed call at true time `at`, an expiry pass that gets its locks ends the drill that was
      running with deadline `due`: if the call rolled back or never claimed, once that deadline has passed; if it lost its
      rollback, at once when it named another key, and when it raised the same key once its own deadline has passed. */
  lemma {:induction false} CutShortIff(s: State, max: nat, key: string, level: Level, message: string, ttl: nat, at: int, t: TestTurns,
                                       due: int, later: int, x: ExpireTurns)
    requires Valid(s) && s.testArmed && s.pendingClear != s.testKey && s.testDeadline == Wrap(due)
    requires s.testKey in Drills(s.table) && Drills(s.table)[s.testKey].level != Normal
    requires ReportTest(s, max, key, level, message, ttl, Wrap(at), t).err != Ok
    requires Unhindered(x)
    ensures var e := ReportTest(s, max, key, level, message, ttl, Wrap(at), t).end;
      var d := Drills(Expire(e, max, Wrap(later), x).end.table);
      s.testKey in d &&
      (d[s.testKey].level == Normal <==>
       if KeepsClaim(s, max, key, level, message, ttl, t)
       then key != s.testKey || (level != Normal && Passed(at + ttl, later))
       else Passed(due, later))
  {
    hide Drills, IsDrill, ReportTest, Expire, Reached, TestArgs, Valid, KeepsClaim, Wrap;
    FailedCallLeaves(s, max, key, level, message, ttl, Wrap(at), t);
    var e := ReportTest(s, max, key, level, message, ttl, Wrap(at), t).end;
    UnhinderedExpiry(e, max, Wrap(later), x, s.testKey);
    WrapOfSum(at, ttl);
    ReachedExactly(later, at + ttl);
    ReachedExactly(later, due);
  }

  // ---------------------------------------------------------------------------- runs

  /** A caller's drill request, or a pass of the expiry timer. */
  datatype Call =
    | Test(key: string, level: Level, message: string, ttl: nat, now: u32, turns: TestTurns)
    | Expiry(now: u32, expiryTurns: ExpireTurns)

  function Step(s: State, max: nat, c: Call): State {
    match c
    case Test(key, level, message, ttl, now, turns) => ReportTest(s, max, key, level, message, ttl, now, turns).end
    case Expiry(now, turns) => Expire(s, max, now, turns).end
  }

  function RunCalls(s: State, max: nat, calls: seq<Call>): State
    decreases |calls|
  {
    if calls == [] then s else RunCalls(Step(s, max, calls[0]), max, calls[1..])
  }

  /** No call of the run is a lost clear. */
  predicate NoClearLost(s: State, max: nat, calls: seq<Call>)
    decreases |calls|
  {
    calls == [] ||
    ((calls[0].Test? ==>
        !LosesClear(s, max, calls[0].key, calls[0].level, calls[0].message, calls[0].ttl, calls[0].turns))
     && NoClearLost(Step(s, max, calls[0]), max, calls[1..]))
  }

  /** Over any run of drill calls and expiry passes in which no clear is lost, whenever the drill
      lock is free every raised drill is tracked, and at most two are raised. */
  lemma {:induction false} RunsStayTracked(s: State, max: nat, calls: seq<Call>)
    requires Valid(s) && Tracked(s) && NoClearLost(s, max, calls)
    ensures var e := RunCalls(s, max, calls);
      Valid(e) && Tracked(e) && |set k | k in Drills(e.table) && Drills(e.table)[k].level != Normal| <= 2
    decreases |calls|
  {
    hide Drills, IsDrill, ReportTest, Expire, LosesClear, Valid;
    if calls == [] {
      AtMostTwoRaised(Drills(s.table), s.testKey, s.pendingClear);
    } else {
      match calls[0] {
        case Test(key, level, message, ttl, now, turns) =>
          DrillCallTracks(s, max, key, level, message, ttl, now, turns);
        case Expiry(now, turns) =>
          ExpiryClears(s, max, s.testDeadline, now, turns);
      }
      RunsStayTracked(Step(s, max, calls[0]), max, calls[1..]);
    }
  }

  lemma {:induction false} AtMostTwoRaised(drills: map<string, Cond>, a: string, b: string)
    requires Names(drills, a, b)
    ensures |set k | k in drills && drills[k].level != Normal| <= 2
  {
    var up := set k | k in drills && drills[k].level != Normal;
    assert up <= {a, b};
    assert {a, b} == up + ({a, b} - up);
  }

  // ---------------------------------------------------------------- the bad schedules

  function Quiet(): Turn {
    Turn(true, [])
  }

  function TimedOut(): TestTurns {
    TestTurns(true, Quiet(), Quiet(), Quiet(), Quiet(), Turn(false, []), Turn(false, []), Quiet(), Quiet())
  }

  /** A drill raised and armed, as a first call leaves it. */
  function Running(): State {
    State([Cond("test.a", Alarm, "", false)], "test.a", 300_000, true, "")
  }

  lemma {:induction false} RunningIsReachable()
    ensures ReportTest(State([], "", 0, false, ""), 4, "test.a", Alarm, "", 300_000, 0,
                       TimedOut().(report := Quiet())) == Reply(Running(), Ok)
  {
  }

  lemma {:induction false} RunningDrills()
    ensures Drills(Running().table) == map["test.a" := Cond("test.a", Alarm, "", false)]
    ensures Valid(Running()) && Tracked(Running())
  {
    assert Running().table[0].key == "test.a";
    assert forall k :: k in Drills(Running().table) ==> k == "test.a";
    DrillsAre(Running().table, "test.a");
  }

  /** Clearing the running drill with report and rollback timed out: still raised, named by nothing. */
  lemma {:induction false} LostClear()
    ensures var e := ReportTest(Running(), 4, "test.a", Normal, "", 0, 1, TimedOut()).end;
      LosesClear(Running(), 4, "test.a", Normal, "", 0, TimedOut()) && Valid(e) && !Tracked(e)
  {
    RunningDrills();
    DrillsAre(Running().table, "test.a");
    DrillCallTracks(Running(), 4, "test.a", Normal, "", 0, 1, TimedOut());
  }

  /** A raise over the running drill with report and rollback timed out claims that drill for
      clearing, so an expiry pass 300 s before its deadline ends it. */
  lemma {:induction false} RunningDrillCutShort()
    ensures var e := ReportTest(Running(), 4, "test.b", Alarm, "", 300_000, 1, TimedOut()).end;
      && e.pendingClear == "test.a" && Raised(e.table, "test.a")
      && var x := Expire(e, 4, 2, ExpireTurns(true, Quiet(), Quiet(), Quiet(), Quiet(), Quiet(), Quiet()));
         !x.yes && x.end.table == [Cleared("test.a")]
  {
    var e := ReportTest(Running(), 4, "test.b", Alarm, "", 300_000, 1, TimedOut()).end;
    assert e == State(Running().table, "test.b", 300_001, true, "test.a");
    assert Reported(e.table, 4, Cleared("test.a")) == [Cleared("test.a")];
  }

  /** An expiry pass that gets every lock, but comes half a turn of the clock after the deadline, ends nothing. */
  lemma {:induction false} LatePassMissesDrill(late: int)
    requires TWO31 <= late < TWO32
    ensures var x := ExpireTurns(true, Quiet(), Quiet(), Quiet(), Quiet(), Quiet(), Quiet());
      Unhindered(x) && Expire(Running(), 4, Wrap(300_000 + late), x) == Pass(Running(), false) && Raised(Running().table, "test.a")
  {
    ReachedExactly(300_000 + late, 300_000);
    assert Wrap(300_000) == 300_000;
    assert Running().table[0].key == "test.a";
  }

  // ------------------------------------------------------------------ the code itself

  class Health {
    const max: nat
    var table: seq<Cond>
    var testKey: string
    var testDeadline: u32
    var testArmed: bool
    var pendingClear: string

    ghost function View(): State
      reads this
    {
      State(table, testKey, testDeadline, testArmed, pendingClear)
    }

    constructor (max: nat)
      ensures this.max == max && View() == State([], "", 0, false, "")
    {
      this.max := max;
      table, testKey, testDeadline, testArmed, pendingClear := [], "", 0, false, "";
    }

    /** Wait for the table lock while other tasks use it. */
    method Take(turn: Turn) returns (granted: bool)
      modifies this`table
      ensures View() == Heard(old(View()), max, turn) && granted == turn.granted
    {
      hide Others, IsDrill, WellFormed;
      var i := 0;
      ghost var start := table;
      while i < |turn.others|
        invariant i <= |turn.others|
        invariant Others(start, max, turn.others) == Others(table, max, turn.others[i..])
      {
        var c := turn.others[i];
        OthersStep(table, max, turn.others[i..]);
        assert turn.others[i..][1..] == turn.others[i + 1..];
        if !IsDrill(c.key) && WellFormed(c) { table := Reported(table, max, c); }
        i := i + 1;
      }
      assert turn.others[i..] == [];
      NoOthers(table, max);
      granted := turn.granted;
    }

    /** `espos_health_report_ex`. `changed` says whether the sinks hear of it. */
    method ReportEx(c: Cond, turn: Turn) returns (err: Err, changed: bool)
      modifies this`table
      ensures !WellFormed(c) ==> View() == old(View()) && err == (if c.key == "" then InvalidArg else InvalidSize)
      ensures WellFormed(c) ==>
        var r := Report(old(View()), max, c, turn); View() == r.end && err == r.err
      ensures changed <==>
        (err == Ok && var e := Entry(Others(old(table), max, turn.others), c.key);
         !(e.Some? && e.value.level == c.level && e.value.message == c.message))
    {
      if c.key == "" { return InvalidArg, false; }
      if |c.key| >= KEY_MAX || |c.message| >= MSG_MAX { return InvalidSize, false; }
      var granted := Take(turn);
      if !granted { return Timeout, false; }
      var i := 0;
      while i < |table| && table[i].key != c.key
        invariant i <= |table| && forall j :: 0 <= j < i ==> table[j].key != c.key
      {
        i := i + 1;
      }
      IndexIs(table, c.key, i);
      if i == |table| {
        if |table| >= max { return NoMem, false; }
        table := table + [c];
      } else if table[i].level == c.level && table[i].message == c.message {
        table := table[i := table[i].(reboot := c.reboot)];
        return Ok, false;
      } else {
        table := table[i := c];
      }
      return Ok, true;
    }

    method FlushPendingClear(read: Turn, report: Turn, release: Turn) returns (clear: bool)
      requires pendingClear != "" ==> |pendingClear| < KEY_MAX
      modifies this`table, this`pendingClear
      ensures Pass(View(), clear) == Flush(old(View()), max, read, report, release)
    {
      hide Others, Reported, Fits;
      var granted := Take(read);
      if !granted { return false; }
      var due := pendingClear;
      if due == "" { return true; }
      var err, _ := ReportEx(Cleared(due), report);
      if err != Ok { return false; }
      granted := Take(release);
      if !granted { return false; }
      if pendingClear == due { pendingClear := ""; }
      return true;
    }

    method DoTransition(key: string, level: Level, message: string, ttl: nat, now: u32, t: TestTurns) returns (err: Err)
      requires Valid(View()) && TestArgs(key, level, message, ttl) == Ok
      modifies this`table, this`testKey, this`testDeadline, this`testArmed, this`pendingClear
      ensures Reply(View(), err) == Transition(old(View()), max, Cond(key, level, message, false), ttl, now, t)
    {
      hide Others, Reported, Fits, Drills, ClearPrevious, Report, Entry;
      var granted := Take(t.claim);
      if !granted { return Timeout; }
      var previous := "";
      if testArmed && testKey != key {
        previous := testKey;
        pendingClear := previous;
      }
      var savedKey, savedDeadline, savedArmed := testKey, testDeadline, testArmed;
      var raising := level != Normal;
      if raising {
        testKey, testDeadline, testArmed := key, (now + ttl) % TWO32, true;
      } else if testKey == key {
        testArmed, testKey := false, "";
      }

      var changed;
      err, changed := ReportEx(Cond(key, level, message, false), t.report);
      if err != Ok {
        granted := Take(t.rollback);
        if granted {
          testKey, testDeadline, testArmed := savedKey, savedDeadline, savedArmed;
          if previous != "" && pendingClear == previous { pendingClear := ""; }
        }
        return err;
      }
      if previous != "" { ClearSuperseded(previous, t.clear, t.release); }
      return Ok;
    }

    /** The drill a new one took over from: cleared, and the claim on it released. */
    method ClearSuperseded(previous: string, clear: Turn, release: Turn)
      requires 0 < |previous| < KEY_MAX
      modifies this`table, this`pendingClear
      ensures View() == ClearPrevious(old(View()), max, previous, clear, release)
    {
      hide Others, Reported, Fits;
      var e, _ := ReportEx(Cleared(previous), clear);
      if e == Ok {
        var granted := Take(release);
        if granted && pendingClear == previous { pendingClear := ""; }
      }
    }

    method ReportTestCondition(key: string, level: Level, message: string, ttl: nat, now: u32, t: TestTurns)
      returns (err: Err)
      requires Valid(View())
      modifies this`table, this`testKey, this`testDeadline, this`testArmed, this`pendingClear
      ensures Reply(View(), err) == ReportTest(old(View()), max, key, level, message, ttl, now, t)
    {
      hide Others, Reported, Fits, Drills, Flush, Transition;
      if !IsDrill(key) { return InvalidArg; }
      if level != Normal && (ttl == 0 || ttl > TTL_MAX) { return InvalidArg; }
      if |key| >= KEY_MAX || |message| >= MSG_MAX { return InvalidSize; }
      if !t.entry { return Timeout; }
      FlushKeepsValid(View(), max, t.flushRead, t.flushReport, t.flushRelease);
      var flushed := FlushPendingClear(t.flushRead, t.flushReport, t.flushRelease);
      if !flushed { return Timeout; }
      err := DoTransition(key, level, message, ttl, now, t);
    }

    method ExpireTest(now: u32, t: ExpireTurns) returns (expired: bool)
      requires Valid(View())
      modifies this`table, this`testKey, this`testArmed, this`pendingClear
      ensures Pass(View(), expired) == Expire(old(View()), max, now, t)
    {
      hide Others, Reported, Fits, Drills, Flush, Reached;
      if !t.entry { return false; }
      FlushKeepsValid(View(), max, t.flushRead, t.flushReport, t.flushRelease);
      var _ := FlushPendingClear(t.flushRead, t.flushReport, t.flushRelease);
      var granted := Take(t.check);
      if !granted { return false; }
      var due := "";
      if testArmed && Reached(now, testDeadline) { due := testKey; }
      if due == "" { return false; }
      var err, _ := ReportEx(Cleared(due), t.report);
      if err != Ok { return false; }
      granted := Take(t.forget);
      if granted && testArmed && testKey == due { testArmed, testKey := false, ""; }
      return true;
    }
  }
}
