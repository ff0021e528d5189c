/** Whole runs of the watchdog policy: ticks interleaved with kicks, other tasks' reports and
    drills, and when such a run restarts the device. */
module HealthRuns {
  import opened Esp
  import opened ModClock
  import opened HealthTable
  import opened HealthPolicy
  import D = HealthDrill

  /** What happens next: a tick, a change to the watched tasks, a drill call or expiry pass, or
      reports of other tasks. */
  datatype Event =
    | Tick(sample: Sample)
    | Kick(id: nat, at: int)
    | Watch(task: nat, name: string, timeout: u32, since: int)
    | Unwatch(gone: nat)
    | Drill(call: D.Call)
    | Others(reports: seq<Cond>)

  /** The policy and the board it looks at, with the drill bookkeeping. */
  datatype World = World(policy: State, board: D.State)

  function Step(w: World, cfg: Config, max: nat, e: Event): World {
    match e
    case Tick(i) =>
      World(Ticked(w.policy, cfg, max, w.board.table, i),
            w.board.(table := TableAfter(w.policy, cfg, max, w.board.table, i)))
    case Kick(id, t) => w.(policy := Kicked(w.policy, id, t))
    case Watch(id, name, timeout, t) => w.(policy := WatchedAfter(w.policy, id, name, timeout, t))
    case Unwatch(id) => w.(policy := UnwatchedAfter(w.policy, id))
    case Drill(call) => w.(board := D.Step(w.board, max, call))
    case Others(reports) => w.(board := w.board.(table := D.Others(w.board.table, max, reports)))
  }

  function Run(w: World, cfg: Config, max: nat, es: seq<Event>): World
    decreases |es|
  {
    if es == [] then w else
      var n := |es| - 1;
      Step(Run(w, cfg, max, es[..n]), cfg, max, es[n])
  }

  /** Did this tick find a flagged alarm? */
  function Flag(w: World, cfg: Config, max: nat, i: Sample): bool {
    Finds(w.policy, cfg, max, w.board.table, i).Some?
  }

  /** The ticks of a run, by what each found. */
  function Flags(w: World, cfg: Config, max: nat, es: seq<Event>): seq<bool>
    decreases |es|
  {
    if es == [] then [] else
      var n := |es| - 1;
      Flags(w, cfg, max, es[..n]) + if es[n].Tick? then [Flag(Run(w, cfg, max, es[..n]), cfg, max, es[n].sample)] else []
  }

  function DeedsOf(w: World, cfg: Config, max: nat, e: Event): seq<seq<Action>> {
    if e.Tick? then [Actions(w.policy, cfg, max, w.board.table, e.sample)] else []
  }

  /** The ticks of a run, by what each did. */
  function Deeds(w: World, cfg: Config, max: nat, es: seq<Event>): seq<seq<Action>>
    decreases |es|
  {
    if es == [] then [] else
      var n := |es| - 1;
      Deeds(w, cfg, max, es[..n]) + DeedsOf(Run(w, cfg, max, es[..n]), cfg, max, es[n])
  }

  /** A tick asks for a restart, with its record stored just before, or does neither. */
  predicate Restarting(deeds: seq<Action>) {
    |deeds| >= 2 && deeds[|deeds| - 1] == Restart && deeds[|deeds| - 2].StoreRecord?
  }

  predicate Calm(deeds: seq<Action>) {
    forall i :: 0 <= i < |deeds| ==> deeds[i].Report?
  }

  /** A tick restarts or only reports, by its strikes and its flag. Unless a restart is under way it reports memory, trough
      and, once a task was watched, stalled tasks; the record it stores is of the alarm it found and of what it sampled. */
  lemma {:induction false} TickDeeds(w: World, cfg: Config, max: nat, i: Sample)
    ensures var deeds := Actions(w.policy, cfg, max, w.board.table, i);
      if Restarts(w.policy.strikes, cfg.strikes, Flag(w, cfg, max, i))
      then Restarting(deeds) && Calm(deeds[..|deeds| - 2]) &&
           var rec, c := deeds[|deeds| - 2].rec, Finds(w.policy, cfg, max, w.board.table, i).value;
           && rec.key == c.key && rec.message == c.message[..if |c.message| < 63 then |c.message| else 63]
           && rec.minFree == i.heap.totalMin && rec.minInternal == i.heap.internalMin && rec.largestBlock == i.heap.largestBlock
           && rec.uptime == i.uptime && rec.unixMs == i.unixMs
      else Calm(deeds)
    ensures var deeds := Actions(w.policy, cfg, max, w.board.table, i);
      if w.policy.strikes.restarting then deeds == []
      else |deeds| >= 2 && deeds[0] == Report(Memory(cfg, i.heap)) && deeds[1] == Report(Trough(cfg, i.heap)) &&
           (w.policy.ever <==> |deeds| > 2 && deeds[2] == Report(StalledReport(w.policy.tasks, i.t)))
  {
    hide Finds, Memory, Trough, StalledReport;
    var deeds := Actions(w.policy, cfg, max, w.board.table, i);
    var reports := ReportsOf(w.policy, cfg, i);
    assert Calm(reports);
    if Restarts(w.policy.strikes, cfg.strikes, Flag(w, cfg, max, i)) { assert deeds[..|deeds| - 2] == reports; }
  }

  lemma {:induction false} StrikesFollow(w: World, cfg: Config, max: nat, e: Event)
    ensures Step(w, cfg, max, e).policy.strikes ==
      if e.Tick? then Strike(w.policy.strikes, cfg.strikes, Flag(w, cfg, max, e.sample)) else w.policy.strikes
  {
  }

  /** The strikes after a run are those its flags add up to. */
  lemma {:induction false} StrikesAreAfter(w: World, cfg: Config, max: nat, es: seq<Event>)
    requires w.policy.strikes == Strikes(0, false)
    ensures Run(w, cfg, max, es).policy.strikes == After(cfg.strikes, Flags(w, cfg, max, es))
    decreases |es|
  {
    hide Step, Strike, Flag;
    if es != [] {
      var n := |es| - 1;
      StrikesAreAfter(w, cfg, max, es[..n]);
      StrikesFollow(Run(w, cfg, max, es[..n]), cfg, max, es[n]);
      var past, all := Flags(w, cfg, max, es[..n]), Flags(w, cfg, max, es);
      if es[n].Tick? { assert all[..|all| - 1] == past; } else { assert all == past; }
    }
  }

  /** The deeds of a tick that started with these strikes and found, or did not find, an alarm. */
  predicate Answers(s: Strikes, need: nat, flag: bool, deeds: seq<Action>) {
    if Restarts(s, need, flag) then Restarting(deeds) && Calm(deeds[..|deeds| - 2]) else Calm(deeds)
  }

  /** Each tick of a run acts on the strikes of the ticks before it. */
  lemma {:induction false} DeedsFollowFlags(w: World, cfg: Config, max: nat, es: seq<Event>, k: nat)
    requires w.policy.strikes == Strikes(0, false)
    ensures |Deeds(w, cfg, max, es)| == |Flags(w, cfg, max, es)|
    ensures k < |Flags(w, cfg, max, es)| ==>
      Answers(After(cfg.strikes, Flags(w, cfg, max, es)[..k]), cfg.strikes, Flags(w, cfg, max, es)[k], Deeds(w, cfg, max, es)[k])
    decreases |es|
  {
    hide Actions, After, Flag, Answers, Step;
    if es != [] {
      var n := |es| - 1;
      var past := Flags(w, cfg, max, es[..n]);
      DeedsFollowFlags(w, cfg, max, es[..n], k);
      if k < |past| {
        assert Flags(w, cfg, max, es)[..k] == past[..k];
      } else if es[n].Tick? && k == |past| {
        StrikesAreAfter(w, cfg, max, es[..n]);
        TickAnswers(Run(w, cfg, max, es[..n]), cfg, max, es[n].sample);
        assert Flags(w, cfg, max, es)[..k] == past;
      }
    }
  }

  lemma {:induction false} TickAnswers(w: World, cfg: Config, max: nat, i: Sample)
    ensures Answers(w.policy.strikes, cfg.strikes, Flag(w, cfg, max, i), Actions(w.policy, cfg, max, w.board.table, i))
  {
    hide Actions, Flag;
    TickDeeds(w, cfg, max, i);
  }

  // ---------------------------------------------------------------- what the table held

  /** The table that this tick's fatal check is about holds a flagged alarm. */
  ghost predicate Alarmed(w: World, cfg: Config, max: nat, i: Sample) {
    !NoneFatal(TickTable(w.board.table, max, cfg, i.heap, Stalled(w.policy, i.t), i.turns))
  }

  /** A tick finds an alarm exactly if the table holds one and the check gets the lock. */
  lemma {:induction false} FlagIff(w: World, cfg: Config, max: nat, i: Sample)
    ensures Flag(w, cfg, max, i) <==> Alarmed(w, cfg, max, i) && i.turns.fatal.granted
  {
    FatalInIs(TickTable(w.board.table, max, cfg, i.heap, Stalled(w.policy, i.t), i.turns));
  }

  /** Internal RAM below an alarm floor, or a watched task over its limit, is found by the very tick that samples it, if the
      report and the check get the lock, the table has room and no other task overwrites the report meanwhile. */
  lemma {:induction false} AlarmIsFoundAtOnce(w: World, cfg: Config, max: nat, i: Sample, key: string)
    requires
      || (key == "lowMemory" && i.turns.memory.granted && Fatal(Memory(cfg, i.heap)) &&
          Silent(i.turns.trough.others, key) && Silent(i.turns.stalled.others, key))
      || (key == "taskStalled" && i.turns.stalled.granted && w.policy.ever &&
          exists k :: 0 <= k < |w.policy.tasks| && Over(w.policy.tasks[k], i.t))
    requires Room(w.board.table, max, key, Busy(i.turns) + 3) && Silent(i.turns.fatal.others, key) && i.turns.fatal.granted
    ensures Flag(w, cfg, max, i)
  {
    hide Memory, Trough, Landed, Absorbed, StalledReport, Over, FatalIn, Entry;
    StalledIsFatalIff(w.policy.tasks, i.t);
    TickLeaves(w.board.table, max, cfg, i.heap, Stalled(w.policy, i.t), i.turns, key);
    StandingAlarmIsFound(TickTable(w.board.table, max, cfg, i.heap, Stalled(w.policy, i.t), i.turns), key);
  }

  /** The ticks of a run, by whether the table held a flagged alarm. */
  ghost function Alarms(w: World, cfg: Config, max: nat, es: seq<Event>): seq<bool>
    decreases |es|
  {
    if es == [] then [] else
      var n := |es| - 1;
      Alarms(w, cfg, max, es[..n]) + if es[n].Tick? then [Alarmed(Run(w, cfg, max, es[..n]), cfg, max, es[n].sample)] else []
  }

  /** The ticks of a run, by whether the fatal check got the lock. */
  function Looks(es: seq<Event>): seq<bool>
    decreases |es|
  {
    if es == [] then [] else
      var n := |es| - 1;
      Looks(es[..n]) + if es[n].Tick? then [es[n].sample.turns.fatal.granted] else []
  }

  lemma {:induction false} FlagsAre(w: World, cfg: Config, max: nat, es: seq<Event>)
    ensures |Flags(w, cfg, max, es)| == |Alarms(w, cfg, max, es)| == |Looks(es)|
    ensures forall k :: 0 <= k < |Looks(es)| ==> (Flags(w, cfg, max, es)[k] <==> Alarms(w, cfg, max, es)[k] && Looks(es)[k])
    decreases |es|
  {
    hide Flag, Alarmed, Step;
    if es != [] {
      var n := |es| - 1;
      FlagsAre(w, cfg, max, es[..n]);
      if es[n].Tick? { FlagIff(Run(w, cfg, max, es[..n]), cfg, max, es[n].sample); }
    }
  }

  /** Tick k ends `need` ticks in a row with an alarm in the table and the lock granted to look at it. */
  predicate SeenStreak(need: nat, alarms: seq<bool>, looks: seq<bool>, k: nat) {
    k < |alarms| == |looks| && need <= k + 1 && forall i :: k + 1 - need <= i <= k ==> alarms[i] && looks[i]
  }

  /**
   * Over every run of ticks, kicks, drills and reports, the device stores a record and restarts at the first tick that
   * ends `strikes` consecutive ticks with a flagged alarm in the table and a fatal check that got its lock, and at no
   * other tick.
   */
  lemma {:induction false} RestartsOnceAtFirstStreak(w: World, cfg: Config, max: nat, es: seq<Event>, k: nat)
    requires cfg.strikes >= 1 && w.policy.strikes == Strikes(0, false) && k < |Looks(es)|
    ensures |Deeds(w, cfg, max, es)| == |Looks(es)|
    ensures var alarms, looks, deeds := Alarms(w, cfg, max, es), Looks(es), Deeds(w, cfg, max, es)[k];
      if SeenStreak(cfg.strikes, alarms, looks, k) && forall j: nat :: j < k ==> !SeenStreak(cfg.strikes, alarms, looks, j)
      then Restarting(deeds) && Calm(deeds[..|deeds| - 2])
      else Calm(deeds)
  {
    hide Flags, Deeds, Alarms, Looks, Restarts, Calm, Restarting;
    var flags := Flags(w, cfg, max, es);
    FlagsAre(w, cfg, max, es);
    DeedsFollowFlags(w, cfg, max, es, k);
    RestartsAtFirstStreak(cfg.strikes, flags, k);
    forall j: nat ensures SeenStreak(cfg.strikes, Alarms(w, cfg, max, es), Looks(es), j) <==> EndsStreak(cfg.strikes, flags, j) {}
  }

  /** Whatever the table holds: while no two fatal checks in a row get their lock, nothing restarts a device that wants two
      strikes or more. */
  lemma {:induction false} MissedLooksShield(w: World, cfg: Config, max: nat, es: seq<Event>, k: nat)
    requires cfg.strikes >= 2 && w.policy.strikes == Strikes(0, false) && k < |Looks(es)|
    requires forall j :: 0 < j < |Looks(es)| ==> !(Looks(es)[j - 1] && Looks(es)[j])
    ensures |Deeds(w, cfg, max, es)| == |Looks(es)| && Calm(Deeds(w, cfg, max, es)[k])
  {
    hide Flags, Deeds, Alarms, Looks, Calm, Restarting;
    RestartsOnceAtFirstStreak(w, cfg, max, es, k);
    assert k > 0 ==> !(Looks(es)[k - 1] && Looks(es)[k]);
    assert !SeenStreak(cfg.strikes, Alarms(w, cfg, max, es), Looks(es), k);
  }

  // ------------------------------------------------------- an alarm that never restarts

  const BUS := Cond("bus", Alarm, "", true)

  /** Two strikes wanted, no memory rule, and a fatal condition in the table from the start. */
  function Failing(): World {
    World(State([], false, Strikes(0, false)), D.State([BUS], "", 0, false, ""))
  }

  function TwoStrikes(): Config {
    Config(2, 0, 0, 0, 0, 0)
  }

  /** n ticks; every second fatal check times out. */
  function EverySecond(n: nat): (es: seq<Event>)
    ensures |es| == n
  {
    seq(n, i => Tick(Look(i)))
  }

  /** The policy's own reports leave another key's entry alone. */
  lemma {:induction false} TickKeepsBus(table: seq<Cond>, max: nat, looks: bool)
    requires Entry(table, "bus") == Some(BUS)
    ensures var quiet := Turn(true, []);
      var after := TickTable(table, max, TwoStrikes(), Heap(0, 0, 0, 0, 0), None, Turns(quiet, quiet, quiet, Turn(looks, [])));
      Entry(after, "bus") == Some(BUS) && !NoneFatal(after)
  {
    var cfg, h := TwoStrikes(), Heap(0, 0, 0, 0, 0);
    var a := Reported(table, max, Memory(cfg, h));
    var b := Reported(a, max, Trough(cfg, h));
    ReportedEntry(table, max, Memory(cfg, h), "bus");
    ReportedEntry(a, max, Trough(cfg, h), "bus");
    assert Memory(cfg, h).key == "lowMemory" && Trough(cfg, h).key == "memoryTrough";
    assert Fatal(b[IndexOf(b, "bus")]);
  }

  function Look(i: int): Sample {
    var quiet := Turn(true, []);
    Sample(i, Heap(0, 0, 0, 0, 0), 0, 0, Turns(quiet, quiet, quiet, Turn(i % 2 == 0, [])))
  }

  ghost predicate BusDown(w: World) {
    Entry(w.board.table, "bus") == Some(BUS) && !w.policy.ever
  }

  lemma {:induction false} BusStaysDown(w: World, max: nat, i: nat)
    requires BusDown(w)
    ensures BusDown(Step(w, TwoStrikes(), max, Tick(Look(i)))) && Alarmed(w, TwoStrikes(), max, Look(i))
  {
    hide TickTable, NoneFatal, Finds;
    TickKeepsBus(w.board.table, max, i % 2 == 0);
  }

  lemma {:induction false} OneMoreTick(n: nat)
    ensures if n == 0 then EverySecond(n) == [] else EverySecond(n)[..n - 1] == EverySecond(n - 1) && EverySecond(n)[n - 1] == Tick(Look(n - 1))
    ensures BusDown(Failing())
  {
    assert IndexOf([BUS], "bus") == 0;
  }

  lemma {:induction false} BusIsDown(n: nat, max: nat)
    ensures var w, cfg, es := Failing(), TwoStrikes(), EverySecond(n);
      && BusDown(Run(w, cfg, max, es)) && |Alarms(w, cfg, max, es)| == |Looks(es)| == n
      && (forall k :: 0 <= k < n ==> Alarms(w, cfg, max, es)[k] && Looks(es)[k] == (k % 2 == 0))
  {
    hide Step, Alarmed, BusDown, Failing, TwoStrikes, EverySecond;
    var w, cfg, es := Failing(), TwoStrikes(), EverySecond(n);
    OneMoreTick(n);
    if n > 0 {
      BusIsDown(n - 1, max);
      BusStaysDown(Run(w, cfg, max, es[..n - 1]), max, n - 1);
    }
  }

  /** The failing input, of any length: an alarm in the table at every tick, every second look timed out, and no restart. */
  lemma {:induction false} StandingAlarmNeverRestarts(n: nat, max: nat, k: nat)
    requires k < n
    ensures var w, cfg, es := Failing(), TwoStrikes(), EverySecond(n);
      && |Alarms(w, cfg, max, es)| == |Deeds(w, cfg, max, es)| == n
      && Alarms(w, cfg, max, es)[k] && Calm(Deeds(w, cfg, max, es)[k])
  {
    hide Alarms, Looks, Deeds, Calm, EverySecond;
    BusIsDown(n, max);
    MissedLooksShield(Failing(), TwoStrikes(), max, EverySecond(n), k);
  }

  // ------------------------------------------------------------------------ drills alone

  ghost predicate HarmlessTurn(t: Turn) {
    NoneFatal(t.others)
  }

  ghost predicate HarmlessCall(c: D.Call) {
    match c
    case Test(_, _, _, _, _, t) =>
      && HarmlessTurn(t.flushRead) && HarmlessTurn(t.flushReport) && HarmlessTurn(t.flushRelease) && HarmlessTurn(t.claim)
      && HarmlessTurn(t.report) && HarmlessTurn(t.rollback) && HarmlessTurn(t.clear) && HarmlessTurn(t.release)
    case Expiry(_, t) =>
      && HarmlessTurn(t.flushRead) && HarmlessTurn(t.flushReport) && HarmlessTurn(t.flushRelease)
      && HarmlessTurn(t.check) && HarmlessTurn(t.report) && HarmlessTurn(t.forget)
  }

  /** No report of another task is a flagged alarm, memory is above its alarm floors and no watched
      task is over its limit. Drills may be raised at any level. */
  ghost predicate HarmlessEvent(w: World, cfg: Config, e: Event) {
    match e
    case Tick(i) =>
      && HarmlessTurn(i.turns.memory) && HarmlessTurn(i.turns.trough) && HarmlessTurn(i.turns.stalled)
      && HarmlessTurn(i.turns.fatal) && !Fatal(Memory(cfg, i.heap))
      && forall k :: 0 <= k < |w.policy.tasks| ==> !Over(w.policy.tasks[k], i.t)
    case Drill(call) => HarmlessCall(call)
    case Others(reports) => NoneFatal(reports)
    case _ => true
  }

  ghost predicate HarmlessRun(w: World, cfg: Config, max: nat, es: seq<Event>)
    decreases |es|
  {
    es == [] ||
    (HarmlessRun(w, cfg, max, es[..|es| - 1]) && HarmlessEvent(Run(w, cfg, max, es[..|es| - 1]), cfg, es[|es| - 1]))
  }

  lemma {:induction false} ForeignStaysHarmless(reports: seq<Cond>)
    requires NoneFatal(reports)
    ensures NoneFatal(D.Foreign(reports))
  {
    if reports != [] { ForeignStaysHarmless(reports[1..]); }
  }

  lemma {:induction false} OthersStayHarmless(table: seq<Cond>, max: nat, reports: seq<Cond>)
    requires NoneFatal(table) && NoneFatal(reports)
    ensures NoneFatal(D.Others(table, max, reports))
  {
    ForeignStaysHarmless(reports);
    AbsorbedStaysHarmless(table, max, D.Foreign(reports));
  }

  lemma {:induction false} HeardStaysHarmless(s: D.State, max: nat, t: Turn)
    requires NoneFatal(s.table) && HarmlessTurn(t)
    ensures NoneFatal(D.Heard(s, max, t).table)
  {
    OthersStayHarmless(s.table, max, t.others);
  }

  lemma {:induction false} ReportStaysHarmless(s: D.State, max: nat, c: Cond, t: Turn)
    requires NoneFatal(s.table) && HarmlessTurn(t) && !Fatal(c)
    ensures NoneFatal(D.Report(s, max, c, t).end.table)
  {
    HeardStaysHarmless(s, max, t);
  }

  lemma {:induction false} FlushStaysHarmless(s: D.State, max: nat, read: Turn, report: Turn, release: Turn)
    requires NoneFatal(s.table) && HarmlessTurn(read) && HarmlessTurn(report) && HarmlessTurn(release)
    ensures NoneFatal(D.Flush(s, max, read, report, release).end.table)
  {
    hide D.Report, NoneFatal;
    HeardStaysHarmless(s, max, read);
    var h := D.Heard(s, max, read);
    ReportStaysHarmless(h, max, D.Cleared(h.pendingClear), report);
    HeardStaysHarmless(D.Report(h, max, D.Cleared(h.pendingClear), report).end, max, release);
  }

  lemma {:induction false} TransitionStaysHarmless(s: D.State, max: nat, c: Cond, ttl: nat, now: u32, t: D.TestTurns)
    requires NoneFatal(s.table) && !Fatal(c)
    requires HarmlessTurn(t.claim) && HarmlessTurn(t.report) && HarmlessTurn(t.rollback)
    requires HarmlessTurn(t.clear) && HarmlessTurn(t.release)
    ensures NoneFatal(D.Transition(s, max, c, ttl, now, t).end.table)
  {
    hide D.Report, D.Others, NoneFatal;
    HeardStaysHarmless(s, max, t.claim);
    var h := D.Heard(s, max, t.claim);
    var claimed := D.Claim(h, c.key, c.level, ttl, now);
    ReportStaysHarmless(claimed, max, c, t.report);
    var r := D.Report(claimed, max, c, t.report).end;
    HeardStaysHarmless(r, max, t.rollback);
    var previous := D.Superseded(h, c.key);
    ReportStaysHarmless(r, max, D.Cleared(previous), t.clear);
    HeardStaysHarmless(D.Report(r, max, D.Cleared(previous), t.clear).end, max, t.release);
  }

  /** A drill call or expiry pass leaves no flagged alarm behind, whatever it raises and whichever
      of its locks time out. */
  lemma {:induction false} DrillStaysHarmless(s: D.State, max: nat, call: D.Call)
    requires NoneFatal(s.table) && HarmlessCall(call)
    ensures NoneFatal(D.Step(s, max, call).table)
  {
    hide D.Report, D.Others, D.Flush, D.Transition, NoneFatal;
    match call
    case Test(key, level, message, ttl, now, t) =>
      FlushStaysHarmless(s, max, t.flushRead, t.flushReport, t.flushRelease);
      var f := D.Flush(s, max, t.flushRead, t.flushReport, t.flushRelease).end;
      TransitionStaysHarmless(f, max, Cond(key, level, message, false), ttl, now, t);
    case Expiry(now, t) =>
      FlushStaysHarmless(s, max, t.flushRead, t.flushReport, t.flushRelease);
      var f := D.Flush(s, max, t.flushRead, t.flushReport, t.flushRelease).end;
      HeardStaysHarmless(f, max, t.check);
      var h := D.Heard(f, max, t.check);
      ReportStaysHarmless(h, max, D.Cleared(h.testKey), t.report);
      HeardStaysHarmless(D.Report(h, max, D.Cleared(h.testKey), t.report).end, max, t.forget);
  }

  lemma {:induction false} HarmlessStep(w: World, cfg: Config, max: nat, e: Event)
    requires NoneFatal(w.board.table) && HarmlessEvent(w, cfg, e)
    ensures NoneFatal(Step(w, cfg, max, e).board.table)
    ensures e.Tick? ==> !Flag(w, cfg, max, e.sample)
  {
    hide NoneFatal, Memory, Trough, StalledReport, TickFatal, TickTable, D.Step, Over;
    match e
    case Tick(i) =>
      StalledIsFatalIff(w.policy.tasks, i.t);
      HarmlessTickTable(w.board.table, max, cfg, i.heap, Stalled(w.policy, i.t), i.turns);
      HarmlessTickIsNoStrike(w.board.table, max, cfg, i.heap, Stalled(w.policy, i.t), i.turns);
    case Drill(call) => DrillStaysHarmless(w.board, max, call);
    case Others(reports) => OthersStayHarmless(w.board.table, max, reports);
    case _ =>
  }

  lemma {:induction false} HarmlessFlags(w: World, cfg: Config, max: nat, es: seq<Event>)
    requires NoneFatal(w.board.table) && HarmlessRun(w, cfg, max, es)
    ensures NoneFatal(Run(w, cfg, max, es).board.table) && forall k :: 0 <= k < |Flags(w, cfg, max, es)| ==> !Flags(w, cfg, max, es)[k]
    decreases |es|
  {
    hide NoneFatal, HarmlessEvent, Step, Flag;
    if es != [] {
      var n := |es| - 1;
      HarmlessFlags(w, cfg, max, es[..n]);
      HarmlessStep(Run(w, cfg, max, es[..n]), cfg, max, es[n]);
    }
  }

  /** The table's alarms are all drills, each key once. */
  ghost predicate OnlyDrillAlarms(table: seq<Cond>) {
    forall i :: 0 <= i < |table| && table[i].level == Alarm ==> D.IsDrill(table[i].key) && IndexOf(table, table[i].key) == i
  }

  /** A valid drill board with no other alarm holds nothing fatal. */
  lemma {:induction false} DrillBoardIsHarmless(s: D.State)
    requires D.Valid(s) && OnlyDrillAlarms(s.table)
    ensures NoneFatal(s.table)
  {
    forall i | 0 <= i < |s.table| ensures !Fatal(s.table[i]) {
      if s.table[i].level == Alarm { D.DrillsAre(s.table, s.table[i].key); }
    }
  }

  /** Warnings, troughs and drills alone never restart the device, over any run. */
  lemma {:induction false} DrillsNeverRestart(w: World, cfg: Config, max: nat, es: seq<Event>, k: nat)
    requires cfg.strikes >= 1 && w.policy.strikes == Strikes(0, false)
    requires D.Valid(w.board) && OnlyDrillAlarms(w.board.table) && HarmlessRun(w, cfg, max, es)
    requires k < |Deeds(w, cfg, max, es)|
    ensures Calm(Deeds(w, cfg, max, es)[k])
  {
    hide Flags, Deeds, Alarms, Looks, HarmlessRun, Calm, Restarting, D.Valid, OnlyDrillAlarms;
    DrillBoardIsHarmless(w.board);
    DeedsFollowFlags(w, cfg, max, es, k);
    FlagsAre(w, cfg, max, es);
    HarmlessFlags(w, cfg, max, es);
    RestartsOnceAtFirstStreak(w, cfg, max, es, k);
    assert !SeenStreak(cfg.strikes, Alarms(w, cfg, max, es), Looks(es), k);
  }

  // ------------------------------------------------------------------ the code itself

  /** The policy object through a run, with the board behind its ports. */
  method Execute(p: Policy, start: D.State, es: seq<Event>) returns (board: D.State, deeds: seq<seq<Action>>)
    requires p.Valid()
    modifies p, p.watched
    ensures p.Valid()
    ensures World(p.View(), board) == Run(World(old(p.View()), start), p.cfg, p.max, es)
    ensures deeds == Deeds(World(old(p.View()), start), p.cfg, p.max, es)
  {
    hide Step, DeedsOf, Policy.Valid;
    board, deeds := start, [];
    ghost var first := World(p.View(), start);
    for i := 0 to |es|
      invariant p.Valid() && World(p.View(), board) == Run(first, p.cfg, p.max, es[..i]) && deeds == Deeds(first, p.cfg, p.max, es[..i])
    {
      assert es[..i + 1][..i] == es[..i];
      var done, after := Perform(p, board, es[i]);
      board, deeds := after, deeds + done;
    }
    assert es[..|es|] == es;
  }

  /** One event on the objects; `done` holds a tick's actions. */
  method Perform(p: Policy, board: D.State, e: Event) returns (done: seq<seq<Action>>, after: D.State)
    requires p.Valid()
    modifies p, p.watched
    ensures p.Valid() && World(p.View(), after) == Step(World(old(p.View()), board), p.cfg, p.max, e)
    ensures done == DeedsOf(World(old(p.View()), board), p.cfg, p.max, e)
  {
    hide Policy.Valid, Ticked, Actions, TableAfter, Kicked, WatchedAfter, UnwatchedAfter, D.Step, D.Others, WatchErr;
    done, after := [], board;
    match e {
      case Tick(i) =>
        var _, actions, table := p.Tick(i, Wrap(i.t), board.table);
        done, after := [actions], board.(table := table);
      case Kick(id, t) => p.Kick(id, Wrap(t), t);
      case Watch(id, name, timeout, t) => var _ := p.Watch(id, name, timeout, Wrap(t), t);
      case Unwatch(id) => var _ := p.Unwatch(id);
      case Drill(call) => after := D.Step(board, p.max, call);
      case Others(reports) => after := board.(table := D.Others(board.table, p.max, reports));
    }
  }
}
