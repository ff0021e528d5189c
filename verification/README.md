# espOS engines, modelled and proved

A Dafny 4.11 model of the engines in the espOS firmware whose correctness is not visible from one function:
the timer scheduler, the BLE frame queue and init-write chain, the health table with its drills, replay and restart
policy, the configuration store with import, export and migrations, Base64, the HTTP authentication policy, and the
topological sort that orders component uploads.

`dafny verify dfyconfig.toml` checks the whole project. No lemma relies on automatic induction.

How each engine is modelled:

- **Clocks.** Counters are 32-bit words (`ModClock`). Results about time are stated on true, unbounded time, and say exactly
  when a modular comparison agrees with it.
- **Locks, faults, callbacks.** Each lock wait, storage write, send and timer callback is a parameter chosen by an
  adversary: a lock may time out and other tasks may run first, a write may fail with or without landing, a callback is
  an arbitrary script of scheduler calls.
- **State changed in place** is a class (`Scheduler`, `Health`, `Policy`, `FrameQueue`, `Gateway`, `Session`, `Planner`,
  `Store`, `Namespace`, `Sorter`) whose methods are proved equal to a function on values; what the firmware promises is then
  proved about that function for every input and every run.

| files | engine |
|---|---|
| `Esp`, `ModClock` | result codes, the wrapping clock |
| `IdealSched`, `SchedSweep`, `SchedRuns`, `SchedClock`, `SchedLaws`, `Scheduler` | timer scheduler: ideal machine on true time, sweep order, runs, deadlines as a 32-bit clock sees them, what adds, cancels and sweeps leave, the slot table |
| `HealthTable`, `HealthDrill`, `HealthReplay`, `HealthPolicy`, `HealthRuns` | condition table, drills, replay, strikes and watched tasks, whole runs of all of them |
| `FrameQueue`, `Gateway`, `InitChain`, `BleUuid` | ring, producers and drain, init writes, hex and UUID codecs |
| `ConfigStore`, `ConfigImport`, `ConfigPlan`, `ConfigDevice`, `ConfigExport`, `Migration`, `MigrationRuns`, `MigrationRetry` | store, meaning of an import, its in-place plan, both passes, export, migrations |
| `Base64` | encoder and streaming decoder |
| `AuthThrottle`, `AuthSessions`, `AuthOrigin`, `AuthPolicy` | throttle, session table, origin, decision |
| `RegistryOrder` | upload order |

## Where the code and its description differ

- Equal deadlines run in slot order. The header says insertion order (components/espos_flow/include/espos_sched.h:126-128).
  The two agree exactly when, among the due slots with one deadline, the lower slot holds the older timer:
  `SchedRuns.InsertionOrderIff`. A reused slot breaks it: `SchedRuns.SlotOrderIsNotInsertionOrder`.
- A due timer is missed exactly while its lateness, modulo 2^32 ms, is 2^31 ms or more: `SchedClock.LateTimerIsMissed`.
- A drill clear whose report and rollback both time out leaves a raised drill that nothing names: `HealthDrill.LostClear`.
  `HealthDrill.DrillCallTracks` shows it is the only such schedule.
- The comment at components/espos_health/src/espos_health.c:414-416 rules out that a failed call cuts a running drill short.
  It does exactly when its rollback times out after the claim and it named another key, raising or clearing, or raised
  the same key with a deadline that comes earlier: `HealthDrill.CutShortIff`, with an input in
  `HealthDrill.RunningDrillCutShort`.
- The fan-out after a report gives up silently when its lock times out, and the sink stays behind:
  `HealthReplay.LostFanOutLeavesSinkBehind`, with the exact condition in `HealthReplay.FateDecides`.
- An expiry pass that comes 2^31 ms after a drill's deadline, because every earlier one was refused its locks, ends nothing:
  `HealthDrill.LatePassMissesDrill`. `HealthDrill.RaisedDrillEndsIff` gives the exact condition.
- A fatal check that times out counts as a clean tick and takes the strikes back to 0, so an alarm that stands in the table for
  good may never restart the device: `HealthRuns.StandingAlarmNeverRestarts`, with the exact condition in
  `HealthRuns.RestartsOnceAtFirstStreak`.
- A watched task silent for 2^31 ms counts as freshly kicked: `HealthPolicy.LongSilenceIsMissed`, `HealthPolicy.StallShowsIff`.
- A connected event that finds the session lock busy pins the session in init, because the watchdog never fires for a chain
  without a deadline: `InitChain.LostLockPinsSession`. `InitChain.FinishesIff` and `InitChain.InFullIff` give the exact
  conditions. After such an event a completed write of the server can start the chain at its second write:
  `InitChain.ServerWriteStartsChain`.
- `InitChain.AtMostOnceIff` is a condition on robustness: a completion accepted before the connected event would make a write
  go out twice. The GATT client learns the characteristics, and reports the connection, in one callback
  (components/espos_ble/src/ble_gattc.c:335-345), so it delivers no completion earlier.
- A session ttl above 2^31 s counts as expired at the mint: `AuthPolicy.ExpiryReadsTrueIff`. The setting is capped far below.
- A session that nobody swept for 2^31 s after its expiry reads as live again: `AuthPolicy.SessionRevives`. `AuthPolicy.ExpiryReads`
  gives the exact condition for every instant.
- A lockout that nobody checks for 2^31 s refuses the right key: `AuthThrottle.StaleLockoutRefuses`, with the exact condition
  in `AuthThrottle.RightKeyOnly`.
- A reset of a key whose default is longer than its own limit, or a NaN, reports a change that did not happen;
  `ConfigStore.ResetReportsTruthIff` gives the exact condition. Descriptors registered at run time are not checked for it
  (components/espos_config/src/espos_config.c:1019-1063).
- An export may be refused by the import of the same device if a default breaks its own limits:
  `ConfigExport.BadDefaultIsRefused`, with the exact condition in `ConfigExport.ExportImportableIff`.
- A migration step may succeed twice, when its stamp write is lost: `MigrationRetry.LostStampRunsTwice`, with the exact condition in
  `MigrationRetry.SucceedsAgainIff`.

## Model

| member | source | states |
|---|---|---|
| `ModClock.DiffIsTrue` | components/espos_flow/include/espos_sched.h:143-151 | the signed 32-bit difference of two wrapped times is their true distance whenever that is below 2^31 |
| `ModClock.ReachedExactly` | components/espos_flow/include/espos_sched.h:143-151 | the wrapping comparison agrees with true order exactly within half the clock range |
| `IdealSched.HandleOf` | components/espos_flow/src/espos_sched.c:21-23 | a handle is never 0 and splits back into slot and generation |
| `IdealSched.OpsEffect` | components/espos_flow/src/espos_sched.c:44-93 | any callback script, during a sweep, only marks occupied slots cancelled and only fills free ones with newcomers |
| `IdealSched.SweepShrinks` | components/espos_flow/src/espos_sched.c:112-171 | every round of a sweep removes a slot from the set of used, unswept, old slots whatever its callback did: sweeps terminate |
| `SchedSweep.PickIsLeast` | components/espos_flow/src/espos_sched.c:119-130 | the inner loop finds the least (deadline, slot) among the eligible |
| `SchedSweep.SweepRunsWhatWasDue` | components/espos_flow/src/espos_sched.c:112-171 | for any callbacks a sweep runs, in (deadline, slot) order and once each, exactly the timers due at entry that no earlier callback cancelled, and no timer added meanwhile |
| `SchedRuns.NextDueIsLeast` | components/espos_flow/src/espos_sched.c:132-155 | a periodic timer's next deadline is the least member of its own series after now |
| `SchedRuns.RunKeepsSound` | components/espos_flow/src/espos_sched.c:36-171 | over every run deadlines stay within the delay bound, marks are gone between sweeps, serials only grow and no two slots in use share one |
| `SchedRuns.HandleNamesItsTimer` | components/espos_flow/src/espos_sched.c:71-79 | with fewer than 65535 further adds a handle resolves iff the timer it was issued for is live |
| `SchedRuns.CancelFindsItsTimer` | components/espos_flow/src/espos_sched.c:81-93 | the same after any run of events |
| `SchedRuns.CallbackHandleFindsItsTimer` | components/espos_flow/src/espos_sched.c:81-93 | the same for a handle issued inside a callback |
| `SchedRuns.ReusedIsReachable` | components/espos_flow/src/espos_sched.c:36-93 | two adds, a cancel and an add lead to a later timer in an earlier slot |
| `SchedRuns.InsertionOrderIff` | components/espos_flow/include/espos_sched.h:123-137 | from any idle state, whatever the callbacks do, equal deadlines run in insertion order iff among the due slots with one deadline the lower slot holds the older timer |
| `SchedRuns.SlotOrderIsNotInsertionOrder` | components/espos_flow/include/espos_sched.h:123-137 | the failing input: in that state the later-added of two equal deadlines runs first |
| `SchedClock.SeenIsTrueIff` | components/espos_flow/include/espos_sched.h:143-151 | the 32-bit clock takes a deadline for itself iff it is less than 2^31 ms ago and no further ahead than that |
| `SchedClock.NeverLateIsIdeal` | components/espos_flow/src/espos_sched.c:112-171 | a run with no live timer 2^31 ms late at its sweeps is the ideal run on true time |
| `SchedClock.CancelFindsItsTimerSeen` | components/espos_flow/src/espos_sched.c:71-93 | handles name their timers in 32-bit runs of any lateness |
| `SchedClock.CallbackHandleFindsItsTimerSeen` | components/espos_flow/src/espos_sched.c:71-93 | also those issued inside a callback |
| `SchedClock.SweepRunsIff` | components/espos_flow/src/espos_sched.c:112-171 | a sweep whose callbacks do nothing runs a live timer iff its lateness modulo 2^32 is below 2^31 |
| `SchedClock.LateTimerIsMissed` | components/espos_flow/src/espos_sched.c:112-171 | a due timer is missed by the 32-bit sweep, and run by the ideal one, iff its lateness modulo 2^32 is 2^31 or more |
| `SchedLaws.AddLeaves` | components/espos_flow/src/espos_sched.c:36-68 | a timer is added iff delay and period are below 2^31 ms and a slot is free; it is live, due one delay from now whatever its period, carries the next serial, and no other slot changes |
| `SchedLaws.CancelLeaves` | components/espos_flow/src/espos_sched.c:81-93 | a cancel ends exactly the slot its handle names; between sweeps that slot is free at once, inside one it stays taken; any other handle changes nothing |
| `SchedLaws.SweepEnds` | components/espos_flow/src/espos_sched.c:112-171 | what a sweep, at any point of it and whatever its callbacks do, makes of each slot that was in use |
| `SchedLaws.SweepLeaves` | components/espos_flow/src/espos_sched.c:112-171 | for every idle state and script: a one-shot that ran is live in no slot; a periodic timer that ran uncancelled keeps serial, callback and period and is due at the least due + k * period after the sweep; a cancelled one is gone; a live one that neither ran nor was stopped is unchanged |
| `SchedLaws.LiveAfterFire` | components/espos_flow/src/espos_sched.c:112-171 | what is live after a sweep was live before and did not end in it, or was added in it |
| `SchedLaws.SpentStays` | components/espos_flow/src/espos_sched.c:36-171 | a serial no live timer carries stays so through every event, and no event runs it |
| `SchedLaws.OneShotIsSpent` | components/espos_flow/src/espos_sched.c:132-171 | a one-shot that an event runs is spent after it, and the event runs it once |
| `SchedLaws.SpentNeverRuns` | components/espos_flow/src/espos_sched.c:36-171 | over any later run of the 32-bit scheduler a spent serial never runs |
| `SchedLaws.OneShotRunsOnce` | components/espos_flow/src/espos_sched.c:36-171 | over whole runs of the 32-bit scheduler, of any lateness and with any callbacks, a one-shot runs at most once |
| `Scheduler.RearmIsNextDue` | components/espos_flow/src/espos_sched.c:132-155 | the 32-bit re-arming equals the ideal next deadline, and its skip stays below 2^32 |
| `Scheduler.SourceFollowsAdds` | components/espos_flow/src/espos_sched.c:50-62 | the generation source, which skips 0, counts adds modulo 65535 |
| `Scheduler.FireRunsIffDue` | components/espos_flow/src/espos_sched.c:112-171 | a sweep runs something iff some live timer is due |
| `Scheduler.Scheduler.constructor` | components/espos_flow/src/espos_sched.c:25-34 | an empty table coupled to an empty ideal scheduler |
| `Scheduler.Scheduler.Add` | components/espos_flow/src/espos_sched.c:36-68 | refines the ideal add; error cases; the handle names serial and slot |
| `Scheduler.Scheduler.Cancel` | components/espos_flow/src/espos_sched.c:81-93 | refines the ideal cancel; OK iff the handle resolves |
| `Scheduler.Scheduler.NextDueIn` | components/espos_flow/src/espos_sched.c:95-110 | the exact distance to the earliest live deadline as the clock sees it, 0 iff a sweep would run something, UINT32_MAX iff nothing is pending; on true time if no timer is 2^31 ms late |
| `Scheduler.Scheduler.PickSlot` | components/espos_flow/src/espos_sched.c:119-130 | the modular pick is the ideal pick |
| `Scheduler.Scheduler.RetireSlot` | components/espos_flow/src/espos_sched.c:132-155 | retire or re-arm, as the ideal scheduler does |
| `Scheduler.Scheduler.RunCallback` | components/espos_flow/src/espos_sched.c:157-159 | a callback's calls, re-entry refused, refine the ideal script |
| `Scheduler.Scheduler.UnwindSlots` | components/espos_flow/src/espos_sched.c:161-171 | marks cleared and spent slots freed |
| `Scheduler.Scheduler.SweepSlots` | components/espos_flow/src/espos_sched.c:118-159 | the loop ends, by the set of slots still to run, in the ideal sweep's state with its list of runs |
| `Scheduler.Scheduler.FireDue` | components/espos_flow/src/espos_sched.c:112-171 | a whole sweep is the ideal sweep of the deadlines as the clock sees them, whatever the lateness; re-entry is refused |
| `Scheduler.Scheduler.Execute` | components/espos_flow/src/espos_sched.c:36-171 | every run has the trace of the ideal scheduler on seen deadlines, and of the one on true time if no live timer is 2^31 ms late at a sweep |
| `HealthTable.ReportedEntry` | components/espos_health/src/espos_health.c:110-166 | a report changes its own key's entry and no other |
| `HealthDrill.OthersKeepDrills` | components/espos_health/src/espos_health.c:110-166 | other tasks' reports leave every drill as it is |
| `HealthDrill.FlushEffect` | components/espos_health/src/espos_health.c:296-316 | what the flush of an outstanding clear does to drills and tracking, for every lock schedule |
| `HealthDrill.TransitionEffect` | components/espos_health/src/espos_health.c:347-448 | the same for the raise or clear itself |
| `HealthDrill.TransitionTracks` | components/espos_health/src/espos_health.c:347-448 | the transition keeps raised drills named unless a clear is lost |
| `HealthDrill.DrillCallTracks` | components/espos_health/src/espos_health.c:318-448 | after a drill call every raised drill is named, iff the call is not the one losing schedule |
| `HealthDrill.DrillCallRefused` | components/espos_health/src/espos_health.c:318-346 | a call is refused, with nothing changed, iff its key is not `test.` and more, a raise lasts 0 ms or over 300000 ms, or key or message exceed their buffers; which error |
| `HealthDrill.DrillCallGoesThrough` | components/espos_health/src/espos_health.c:318-448 | a call that gets its locks and finds room in the table is refused for nothing else, and leaves no clear outstanding if it can also clear the drill it took over from |
| `HealthDrill.DrillCallDelivers` | components/espos_health/src/espos_health.c:318-448 | an OK call reads back as asked, armed for its ttl, the superseded drill cleared or named |
| `HealthDrill.DrillCallFailsClean` | components/espos_health/src/espos_health.c:318-448 | a failed call raises nothing, and with its rollback leaves the running drill and deadline |
| `HealthDrill.ExpiryClears` | components/espos_health/src/espos_health.c:450-502 | an expiry pass keeps tracking, and one that gets its locks leaves no drill raised if the true time since the deadline, modulo 2^32 ms, is below 2^31 ms; it answers yes then, and a yes with the last lock disarms |
| `HealthDrill.RaisedDrillEndsIff` | components/espos_health/src/espos_health.c:318-502 | after an OK raise at true time t, a pass at u that gets its locks ends the drill iff (u - t - ttl) modulo 2^32 is below 2^31 |
| `HealthDrill.LatePassMissesDrill` | components/espos_health/src/espos_health.c:450-502 | the failing input: a pass that gets every lock 2^31 ms after the deadline ends nothing |
| `HealthDrill.RunsStayTracked` | components/espos_health/src/espos_health.c:296-502 | over every run without a lost clear raised drills are named and at most two |
| `HealthDrill.AtMostTwoRaised` | components/espos_health/src/espos_health.c:296-502 | two names bound the raised drills by two |
| `HealthDrill.RunningIsReachable` | components/espos_health/src/espos_health.c:318-448 | the state of the counterexamples is what a first drill call leaves |
| `HealthDrill.LostClear` | components/espos_health/src/espos_health.c:404-432 | the losing schedule loses a drill |
| `HealthDrill.FailedCallLeaves` | components/espos_health/src/espos_health.c:404-432 | a failed call over a running drill leaves its bookkeeping as it was, or its claim, and touches no drill but one whose clear was outstanding; it leaves the drill named for clearing iff it named another key, got its claim and lost its rollback |
| `HealthDrill.CutShortIff` | components/espos_health/src/espos_health.c:407-502 | on true time, after a failed call, a pass that gets its locks ends the drill that was running iff: without a kept claim, its deadline has passed; with one, the call named another key, or raised the same key and its own deadline has passed |
| `HealthDrill.RunningDrillCutShort` | components/espos_health/src/espos_health.c:407-432 | the failing input: a failed raise makes the next pass end the running drill 300 s early |
| `HealthDrill.Health.ReportEx` | components/espos_health/src/espos_health.c:110-166 | error codes, table update, and sinks told iff state or message changed |
| `HealthDrill.Health.FlushPendingClear` | components/espos_health/src/espos_health.c:296-316 | equals the flush function |
| `HealthDrill.Health.DoTransition` | components/espos_health/src/espos_health.c:347-448 | equals the transition function |
| `HealthDrill.Health.ReportTestCondition` | components/espos_health/src/espos_health.c:318-448 | equals the drill call the lemmas are about |
| `HealthDrill.Health.ExpireTest` | components/espos_health/src/espos_health.c:450-502 | equals the expiry pass the lemmas are about |
| `HealthReplay.MovesKeep` | components/espos_health/src/espos_health.c:90-166 | reports and fan-outs never undo what the sink has caught |
| `HealthReplay.ReplayOne` | components/espos_health/src/espos_health.c:211-236 | one condition settles only when the sink has its newest word or a fan-out carries it, A-B-A changes included |
| `HealthReplay.Replay` | components/espos_health/src/espos_health.c:201-238 | in every interleaving OK means caught up if no fan-out gave up meanwhile; undisturbed it sends the table |
| `HealthReplay.Converges` | components/espos_health/src/espos_health.c:90-238 | after such a replay and any later reports whose fan-outs get through, the last word the sink has is the one in the table |
| `HealthReplay.FateDecides` | components/espos_health/src/espos_health.c:90-166 | with fan-outs that may give up, the sink ends with the word in the table iff the last change delivered carries the word of the last change made |
| `HealthReplay.LostAndBack` | components/espos_health/src/espos_health.c:90-103 | two lost changes can cancel out, so a lost last change is not enough to leave the sink behind |
| `HealthReplay.LostFanOutLeavesSinkBehind` | components/espos_health/src/espos_health.c:90-103 | the failing input: one lost fan-out after a replay that answered OK leaves the sink behind for good |
| `HealthPolicy.MemoryIsFatalOnlyOnAlarm` | components/espos_health/src/health_policy.c:29-94 | memory is fatal iff an alarm floor is broken, and the report depends only on which thresholds are |
| `HealthPolicy.MemoryLevels` | components/espos_health/src/health_policy.c:29-155 | ALARM iff internal free or the largest block is below its alarm floor, else WARN iff internal or total free is below its warning floor, else NORMAL; the trough WARNs iff the low-water mark is below its floor; a floor of 0 KB is off and products are taken modulo 2^32 |
| `HealthPolicy.TrailingIs` | components/espos_health/src/health_policy.c:188-247 | the trailing count is the length of the final run of fatal ticks |
| `HealthPolicy.AfterIs` | components/espos_health/src/health_policy.c:188-247 | the strike machine restarts iff some streak reached the limit |
| `HealthPolicy.RestartsAtFirstStreak` | components/espos_health/src/health_policy.c:188-247 | the strike counter alone: it fires exactly at the first end of a full streak |
| `HealthRuns.TickDeeds` | components/espos_health/src/health_policy.c:188-247 | a tick reports memory, trough and, once a task was watched, stalled tasks, and nothing after a restart was asked for; it stores the record of the alarm it found, field by field, and then restarts, or only reports |
| `HealthRuns.FlagIff` | components/espos_health/src/espos_health.c:277-290 | a tick finds an alarm iff the table holds a flagged one and the check gets its lock |
| `HealthRuns.AlarmIsFoundAtOnce` | components/espos_health/src/health_policy.c:188-221 | internal RAM below an alarm floor, or a watched task over its limit, is found by the tick that samples it if report and check get the lock, the table has room and nobody overwrites the report meanwhile |
| `HealthRuns.FlagsAre` | components/espos_health/src/health_policy.c:218-221 | the same tick by tick over every run |
| `HealthRuns.RestartsOnceAtFirstStreak` | components/espos_health/src/health_policy.c:188-247 | over every run of ticks, kicks, drills and reports the record is stored and the restart requested at the first tick that ends `strikes` consecutive ticks with a flagged alarm in the table and the lock granted to the check, and at no other tick |
| `HealthRuns.MissedLooksShield` | components/espos_health/src/health_policy.c:218-221 | whatever the table holds, nothing restarts while no two checks in a row get their lock and two strikes are wanted |
| `HealthRuns.StandingAlarmNeverRestarts` | components/espos_health/src/health_policy.c:218-221 | the failing input, of any length: an alarm in the table at every tick, every second check timed out, no restart |
| `HealthRuns.DrillStaysHarmless` | components/espos_health/src/espos_health.c:318-502 | a drill call or expiry pass leaves no flagged alarm, whatever it raises and whichever locks time out |
| `HealthRuns.DrillBoardIsHarmless` | components/espos_health/src/espos_health.c:405-407 | a valid drill board with no other alarm holds nothing fatal |
| `HealthRuns.DrillsNeverRestart` | components/espos_health/src/health_policy.c:188-247 | over any run, warnings, troughs and drills alone never restart the device |
| `HealthRuns.Execute` | components/espos_health/src/health_policy.c:157-301 | the policy object driven through any run leaves that run's state and deeds |
| `HealthPolicy.FatalInIs` | components/espos_health/src/espos_health.c:277-290 | a fatal condition is found iff the table holds one, and it is the first |
| `HealthPolicy.TickLeaves` | components/espos_health/src/health_policy.c:188-217 | each report of a tick that got the lock stands in the table the fatal check reads, unless the table was full or another task reported the key after it; a key nobody reports keeps its entry |
| `HealthPolicy.StandingAlarmIsFound` | components/espos_health/src/espos_health.c:277-290 | a flagged alarm that stands in the table is found |
| `HealthPolicy.HarmlessTickIsNoStrike` | components/espos_health/src/health_policy.c:188-247 | warnings, troughs and drills alone never strike |
| `HealthPolicy.StallShowsIff` | components/espos_health/src/health_policy.c:157-186 | a kick within the timeout never counts as a stall, across wraps and after the sample; a longer silence shows iff its length modulo 2^32 lies between the timeout and 2^31 |
| `HealthPolicy.LongSilenceIsMissed` | components/espos_health/src/health_policy.c:157-186 | a task silent for 2^31 ms counts as freshly kicked |
| `HealthPolicy.WorstIs` | components/espos_health/src/health_policy.c:157-186 | the task named is the one silent longest beyond its limit, the last of equals |
| `HealthPolicy.StalledIsFatalIff` | components/espos_health/src/health_policy.c:157-186 | the report is fatal iff some task is over its limit, names one that is silent longest of those, and clears the condition otherwise |
| `HealthPolicy.Policy.CheckTasks` | components/espos_health/src/health_policy.c:157-186 | the 32-bit loop makes that report |
| `HealthPolicy.Policy.FindFatal` | components/espos_health/src/espos_health.c:277-290 | the first flagged alarm |
| `HealthPolicy.Policy.Tick` | components/espos_health/src/health_policy.c:188-247 | strikes, actions and table of the tick the run lemmas are about, the record with its uptime and wall clock |
| `HealthPolicy.WatchKickUnwatch` | components/espos_health/src/health_policy.c:259-301 | watching enters a task once, kicked now; kicking moves its stamp; unwatching forgets it; no other task is touched |
| `HealthPolicy.WatchOkIff` | components/espos_health/src/health_policy.c:259-301 | a task can be watched iff it is one, has a name, and is watched already or finds a free slot; a refused call changes nothing, and no call touches the strikes |
| `HealthPolicy.Policy.Watch` | components/espos_health/src/health_policy.c:259-280 | refines it; error cases |
| `HealthPolicy.Policy.Unwatch` | components/espos_health/src/health_policy.c:282-290 | refines it; NOT_FOUND iff not watched |
| `HealthPolicy.Policy.Kick` | components/espos_health/src/health_policy.c:292-301 | refines it; unknown tasks ignored |
| `FrameQueue.FrameQueue.Push` | components/espos_ble/src/ble_proto.c:129-149 | append, dropping and counting the oldest when full |
| `FrameQueue.FrameQueue.Pop` | components/espos_ble/src/ble_proto.c:151-159 | the oldest, or none |
| `FrameQueue.FrameQueue.Unshift` | components/espos_ble/src/ble_proto.c:161-173 | back at the head if there is room, else counted as dropped |
| `FrameQueue.FrameQueue.Clear` | components/espos_ble/src/ble_proto.c:175-180 | empty |
| `Gateway.StepMovesOneFrame` | components/espos_ble/src/ble_gateway.c:499-586 | no step loses, duplicates or invents a frame |
| `Gateway.StepConserves` | components/espos_ble/src/ble_gateway.c:499-586 | accepted = sent + queued + in flight + dropped + cleared |
| `Gateway.StepKeepsInv` | components/espos_ble/src/ble_gateway.c:499-586 | each step keeps suffix, order and conservation |
| `Gateway.RunKeepsInv` | components/espos_ble/src/ble_gateway.c:499-586 | so does every run |
| `Gateway.EveryRunKeepsInv` | components/espos_ble/src/ble_gateway.c:499-586 | in every interleaving from start-up the queue is a contiguous suffix of the accepted frames, sends happen in acceptance order at most once each, every frame is in one place |
| `Gateway.EvictionKeepsRingFull` | components/espos_ble/src/ble_proto.c:129-173 | an eviction during a flight keeps the ring full until the flight ends |
| `Gateway.Gateway.Enqueue` | components/espos_ble/src/ble_gateway.c:499-515 | a push step, or a frame counted as lost |
| `Gateway.Gateway.BeginSend` | components/espos_ble/src/ble_gateway.c:568-575 | a pop step |
| `Gateway.Gateway.EndSend` | components/espos_ble/src/ble_gateway.c:576-585 | a send step, successful or put back |
| `Gateway.Gateway.ChangeServer` | components/espos_ble/src/ble_gateway.c:907-912 | the queue cleared and counted |
| `Gateway.Gateway.Drain` | components/espos_ble/src/ble_gateway.c:549-586 | is one interleaving of the steps, bounded by the depth; undisturbed it sends the whole queue in order |
| `InitChain.LostLockPinsSession` | components/espos_ble/src/ble_gateway.c:998-1010 | the failing input: a connected event that finds the session lock busy leaves the session in init however often the watchdog runs |
| `InitChain.FinishesIff` | components/espos_ble/src/ble_gateway.c:620-644 | with enough late watchdog passes, in every interleaving, the session is reported connected iff its connected event got the lock or a completion started the chain in its place |
| `InitChain.InFullIff` | components/espos_ble/src/ble_gateway.c:620-644 | with at most one connected event, all writes are sent once, in list order, and connected reported once after them, iff that event got the lock before any completion started the chain |
| `InitChain.ChainInOrder` | components/espos_ble/src/ble_gateway.c:620-644 | a chain started by its one connected event is in order at every moment of the run |
| `InitChain.CompletionStartSkipsFirst` | components/espos_ble/src/ble_gateway.c:1073-1106 | a chain started by a completion never sends its first write |
| `InitChain.ServerWriteStartsChain` | components/espos_ble/src/ble_gateway.c:739-765 | how that arises: the connected event lost the lock, then a write of the server to the characteristic of write 0 completed |
| `InitChain.RestInChain` | components/espos_ble/src/ble_gateway.c:1073-1106 | every later event keeps the chain and never moves it back |
| `InitChain.RunGoing` | components/espos_ble/src/ble_gateway.c:1167-1181 | every late watchdog pass moves a started chain on, whatever else happens |
| `InitChain.CompletionTaken` | components/espos_ble/src/ble_gateway.c:1073-1106 | compared as bytes: a completion whose UUID and the awaited one are both readable and differ changes nothing; any other, with the lock, moves the chain on to the next write or to the report |
| `InitChain.RunWritesStops` | components/espos_ble/src/ble_gateway.c:620-644 | running the writes passes those not waited for and stops at the first one that is, with 3 s on the clock |
| `InitChain.WaitsFor` | components/espos_ble/src/ble_gateway.c:620-644 | over whole runs the write waited for was sent by one earlier event, whose time plus 3 s is the deadline |
| `InitChain.SentOnce` | components/espos_ble/src/ble_gateway.c:620-644 | no write is first sent twice |
| `InitChain.NextWriteIff` | components/espos_ble/src/ble_gateway.c:620-1181 | over whole runs started by the connected event, write i + 1 goes out (or connected is reported after the last) at an event iff that event sent write i with nothing to wait for, or i was waited for and the event is the first granted completion not foreign to it or watchdog pass more than 3 s after it was sent |
| `InitChain.OthersKeepAtMostOnce` | components/espos_ble/src/ble_gateway.c:1073-1181 | completions and the watchdog never issue a write twice, even before the connected event |
| `InitChain.AtMostOnceIff` | components/espos_ble/src/ble_gateway.c:998-1106 | over whole runs with one granted connected event, writes go out at most once and in order, and connected at most once, iff no completion started the chain before it |
| `InitChain.ConnectedSafeIffNotStarted` | components/espos_ble/src/ble_gateway.c:998-1010 | a connected event is harmless iff no earlier completion started the chain |
| `InitChain.Session.RunInitWrites` | components/espos_ble/src/ble_gateway.c:620-644 | the loop equals the recursive chain |
| `InitChain.Session.OnConnected` | components/espos_ble/src/ble_gateway.c:998-1010 | equals the connected step |
| `InitChain.Session.OnWriteDone` | components/espos_ble/src/ble_gateway.c:1073-1106 | equals the completion step, foreign UUIDs ignored |
| `InitChain.Session.WatchdogPass` | components/espos_ble/src/ble_gateway.c:1167-1181 | equals the watchdog step |
| `BleUuid.HexDecodeOfEncode` | components/espos_ble/src/ble_proto.c:15-64 | hex in either case decodes to the bytes it was made from |
| `BleUuid.DigitsAre` | components/espos_ble/src/ble_proto.c:15-47 | the sixteen digits of either case in order, and nothing else has a value |
| `BleUuid.HexTextIs` | components/espos_ble/src/ble_proto.c:18-39 | high digit first, of the case asked for |
| `BleUuid.HexEncode` | components/espos_ble/src/ble_proto.c:18-39 | two digits a byte and a terminator, nothing beyond |
| `BleUuid.HexDecode` | components/espos_ble/src/ble_proto.c:41-64 | succeeds iff even length, all hex, and it fits; yields the bytes |
| `BleUuid.ParseOfFormat` | components/espos_ble/src/ble_proto.c:208-270 | parse(format(u, bits)) = u for every UUID and every bits |
| `BleUuid.FormatOfParse` | components/espos_ble/src/ble_proto.c:208-270 | format(parse(s)) = lowercase(s) for every accepted s |
| `BleUuid.LongFormIsItsDigits` | components/espos_ble/src/ble_proto.c:208-245 | the long form means the bytes its digits spell in order, dashes left out |
| `BleUuid.ShortFormIsOnBase` | components/espos_ble/src/ble_proto.c:208-245 | 4 or 8 digits mean the same UUID as the long form with them in front of 0000-1000-8000-00805f9b34fb |
| `BleUuid.ParsedIff` | components/espos_ble/src/ble_proto.c:208-247 | nothing else is accepted |
| `BleUuid.SixteenPairsMeanLong` | components/espos_ble/src/ble_proto.c:208-245 | sixteen pairs with the four dashes in place leave no room for another dash |
| `BleUuid.ParseDashed` | components/espos_ble/src/ble_proto.c:208-245 | 36 characters are accepted iff dashes stand at exactly 8, 13, 18, 23 and hex elsewhere |
| `BleUuid.ParseShort` | components/espos_ble/src/ble_proto.c:208-245 | 4 or 8 hex digits expand over the base UUID |
| `BleUuid.UuidParse` | components/espos_ble/src/ble_proto.c:208-247 | equals the parse function the round trips are about |
| `Base64.DecodeOfEncode` | components/espos_config/src/b64.c:13-90 | decode(encode(x)) = x for every byte string |
| `Base64.EncodeOfDecode` | components/espos_config/src/b64.c:13-90 | encode(decode(t)) is t with its padding iff the unused bits of t are zero |
| `Base64.LetterIs` | components/espos_config/src/b64.c:13-38 | the alphabet is Table 1 of RFC 4648 |
| `Base64.EncodedIs` | components/espos_config/src/b64.c:13-38 | character i of the text is the letter for its six bits, from the top, of the big-endian 24-bit word of its block, padding where no byte reaches |
| `Base64.BytesLength` | components/espos_config/src/b64.c:60-90 | n letters yield floor(3n/4) bytes |
| `Base64.BytesOfSextets` | components/espos_config/src/b64.c:13-90 | regrouping bytes into sextets and back is the identity |
| `Base64.SextetsOfBytes` | components/espos_config/src/b64.c:13-90 | the other way iff canonical |
| `Base64.BytesExtend` | components/espos_config/src/b64.c:66-88 | one more letter completes at most one byte, as the stream does |
| `Base64.AccumulatorSuffices` | components/espos_config/src/b64.c:66-88 | the bits read from the wrapping 32-bit accumulator are never the lost ones |
| `Base64.StreamStep` | components/espos_config/src/b64.c:66-88 | the decoder's loop state stands for the bytes of the letters read |
| `Base64.ImportBufferSuffices` | components/espos_config/src/espos_config_json.c:254-262 | the import's buffer is large enough for every text |
| `Base64.Encode` | components/espos_config/src/b64.c:13-38 | RFC 4648 section 4 text and terminator iff the buffer holds it |
| `Base64.Strip` | components/espos_config/src/b64.c:62-66 | exactly the trailing padding goes |
| `Base64.Decode` | components/espos_config/src/b64.c:60-90 | each error exactly when it is due; else the decoded bytes |
| `ConfigStore.EffectiveIsStoredIfValid` | components/espos_config/src/espos_config.c:342-432 | over any stored bytes a read gives the stored value iff it meets the limits, else the default; so with a valid default every read is valid |
| `ConfigStore.ReadIsWithinLimits` | components/espos_config/src/espos_config.c:342-432 | whatever is stored, a read is the default as read or a value of the type of the key: an int in [min, max], a finite float within the bounds that are set, a string of at most the length allowed and on the list if there is one, a blob of at most its length; and a stored value of that kind is what is read |
| `ConfigStore.Validate` | components/espos_config/src/espos_config.c:256-316 | the walk over the allowed strings finds exactly a string equal to the value |
| `ConfigStore.StoredReadsBack` | components/espos_config/src/espos_config.c:475-523 | a valid value reads back as itself, the empty blob through erasure |
| `ConfigStore.ResetReportsTruthIff` | components/espos_config/src/espos_config.c:526-559 | a reset's report is right for every stored content iff the default fits its length and is no NaN |
| `ConfigStore.EntryEffect` | components/espos_config/src/espos_config.c:437-559 | a landed entry moves the effective value to its target and its flag says whether that was a move |
| `ConfigStore.RunCells` | components/espos_config/src/espos_config.c:1456-1495 | where a plan without duplicates leaves every cell, under any faults |
| `ConfigStore.RunReports` | components/espos_config/src/espos_config.c:1456-1495 | which entries are reported, and when a restart is, in terms of the store before |
| `ConfigStore.RunOrder` | components/espos_config/src/espos_config.c:1456-1495 | reports come in plan order once each; success iff no write failed, and otherwise the error is that of the first one that did |
| `ConfigImport.ItemsOk` | components/espos_config/src/espos_config_json.c:361-429 | every planned write names a described, writable key and meets its limits |
| `ConfigImport.AskedIff` | components/espos_config/src/espos_config_json.c:208-274 | what a leaf asks of a key in terms of the document: left alone, reset, or the value it spells within the limits of the key |
| `ConfigImport.AcceptedIff` | components/espos_config/src/espos_config_json.c:347-429 | a document is accepted iff every namespace and key it names is described, or unknown ones are ignored, every namespace is an object, and every leaf is left alone, null or spells a value within the limits |
| `ConfigImport.PlanIsLastOnes` | components/espos_config/src/espos_config_json.c:389-429 | removing duplicates on the fly leaves exactly the unsuperseded leaves, in document order |
| `ConfigImport.PlanContents` | components/espos_config/src/espos_config_json.c:389-429 | the plan holds each key's last wish and nothing twice |
| `ConfigImport.ImportIsOverlay` | components/espos_config/src/espos_config_json.c:347-444 | a successful import leaves the old configuration overlaid by each key's last occurrence (null = default; sentinel and read-only untouched), and lists exactly the keys whose effective value moved |
| `ConfigImport.LastTouchIsLastLeaf` | components/espos_config/src/espos_config_json.c:389-429 | the last word of an accepted document on a key is what the last value it gives for that path asks |
| `ConfigImport.ImportFollowsDocument` | components/espos_config/src/espos_config_json.c:347-444 | the overlay read off the document itself: after a successful import every described key reads as the last value given for it asks, and the others as before |
| `ConfigImport.FaultyImportIsPartial` | components/espos_config/src/espos_config.c:1456-1495 | under any write faults each key is old or overlaid, a listed key moved, and an unlisted move means an error was returned |
| `ConfigPlan.CutOwns` | components/espos_config/src/espos_config_json.c:390-400 | cutting a slot keeps every other decoded buffer owned exactly once |
| `ConfigPlan.CutTidy` | components/espos_config/src/espos_config_json.c:390-400 | both tables stay aligned and the freed tail stays clean |
| `ConfigPlan.CutEntries` | components/espos_config/src/espos_config_json.c:390-400 | the remaining entries keep value and order |
| `ConfigPlan.Planner.Cut` | components/espos_config/src/espos_config_json.c:390-400 | removes exactly slot i from the plan |
| `ConfigPlan.Planner.DropDuplicate` | components/espos_config/src/espos_config_json.c:389-401 | removes exactly the earlier entry for the key |
| `ConfigPlan.DecodeBlob` | components/espos_config/src/espos_config_json.c:248-269 | the sized buffer never makes a well-formed text fail |
| `ConfigPlan.Planner.DecodeValue` | components/espos_config/src/espos_config_json.c:208-274 | accepts iff the value decodes and validates; a refused blob still has an owner |
| `ConfigPlan.Planner.AddLeaf` | components/espos_config/src/espos_config_json.c:389-428 | one leaf's wish joins the plan, or the leaf is refused |
| `ConfigPlan.Planner.AddNamespace` | components/espos_config/src/espos_config_json.c:376-429 | one namespace object; unknown keys refused or skipped |
| `ConfigPlan.Planner.Build` | components/espos_config/src/espos_config_json.c:347-429 | pass 1 accepts iff every leaf, superseded ones too, is acceptable; the plan stays within the counted leaves |
| `ConfigPlan.Planner.FreeAll` | components/espos_config/src/espos_config_json.c:450-455 | each buffer is freed once and none is left |
| `ConfigDevice.Store.WriteLocked` | components/espos_config/src/espos_config.c:475-523 | the new cell and the changed flag for each way storage may fail |
| `ConfigDevice.Store.ResetLocked` | components/espos_config/src/espos_config.c:526-559 | the same for a reset |
| `ConfigDevice.Store.ApplyPlan` | components/espos_config/src/espos_config.c:1456-1495 | every entry in order past failures; indices of the changed ones; first error |
| `ConfigDevice.Store.Import` | components/espos_config/src/espos_config_json.c:296-461 | refused iff the document is no object or some member of it is not acceptable by names and limits, and then the store is unchanged; an accepted one runs its plan; nothing stays allocated |
| `ConfigExport.ExportNamespace` | components/espos_config/src/espos_config_json.c:72-116 | every key of a namespace with its effective value |
| `ConfigExport.Export` | components/espos_config/src/espos_config_json.c:118-164 | all namespaces, or exactly the one asked for; NOT_FOUND iff no namespace has that name |
| `ConfigExport.AskedOfShown` | components/espos_config/src/espos_config_json.c:38-70 | importing an exported value asks for that value or leaves the key alone |
| `ConfigExport.UntouchedIff` | components/espos_config/src/espos_config_json.c:38-70 | which keys of an export leave the importing store alone |
| `ConfigExport.RestoreCopies` | components/espos_config/src/espos_config_json.c:118-461 | restoring one store's export into any store of the schema copies every covered value but the read-only and redacted ones |
| `ConfigExport.OwnExportMovesNothing` | components/espos_config/src/espos_config_json.c:118-461 | importing a store's own export moves no effective value, whatever storage held and however it fails |
| `ConfigExport.OwnExportRoundTrip` | components/espos_config/src/espos_config_json.c:118-461 | it is accepted and its changed list is empty, redacted or not |
| `ConfigExport.RedactedExportHidesSecrets` | components/espos_config/src/espos_config_json.c:38-70 | stores that differ only in the contents of set secrets have the same redacted export |
| `ConfigExport.ExportImportableIff` | components/espos_config/src/espos_config_json.c:38-70 | whatever storage holds, the export of a key is importable iff the key is left alone, or its default as read meets its limits, or is no finite number |
| `ConfigExport.NonFiniteDefaultResets` | components/espos_config/src/espos_config_json.c:26-47 | a default that is no finite number is exported as null and imported as a reset, which reports a change iff it is a NaN |
| `ConfigExport.BadDefaultIsRefused` | components/espos_config/src/espos_config.c:1019-1063 | a default outside its own limits makes the device refuse its own export |
| `Migration.ChainOrderly` | components/espos_config/src/espos_config.c:699-747 | one boot's history is orderly and its stamp lies between the stored and the current version |
| `Migration.RunsAreOrderly` | components/espos_config/src/espos_config.c:699-747 | over any boots, firmwares and faults the stamp moves only from v to v+1, right after step v succeeded or if it is absent |
| `Migration.StampIsBounded` | components/espos_config/src/espos_config.c:699-747 | the stamp never falls nor passes every descriptor version |
| `Migration.CrossedInOrder` | components/espos_config/src/espos_config.c:727-747 | every version between first and last stamp is crossed exactly once, in order |
| `Migration.NeverAgain` | components/espos_config/src/espos_config.c:727-747 | a step whose stamp landed never runs again |
| `MigrationRuns.ReachedMeansAllRan` | components/espos_config/src/espos_config.c:727-747 | over any firmwares, each version below the stamp was crossed by one boot, and if that boot had a step for it, the step succeeded right before |
| `MigrationRuns.ReachedUnderOneFirmware` | components/espos_config/src/espos_config.c:727-747 | with one firmware every registered step from the first stamp ran to success |
| `MigrationRuns.StepsInOrder` | components/espos_config/src/espos_config.c:727-747 | a lower step before a higher one |
| `MigrationRuns.FreshStartsAtFirstStamp` | components/espos_config/src/espos_config.c:702-719 | over any firmwares a namespace without a readable stamp runs nothing until the first boot whose stamp lands; it gets that boot's own version, and then runs as one that started there |
| `MigrationRuns.FreshSkipsOldSteps` | components/espos_config/src/espos_config.c:702-711 | so no step below that version ever runs |
| `MigrationRuns.MisreadKeepsStampIff` | components/espos_config/src/espos_config.c:712-719 | a boot that fails to read a good stamp runs no step, and leaves the stamp iff it is current already or nothing lands; otherwise it is lost or jumps |
| `Migration.Namespace.Restamp` | components/espos_config/src/espos_config.c:702-719 | erase what cannot be read, then stamp the current version |
| `Migration.GoodBootFinishes` | components/espos_config/src/espos_config.c:727-747 | a boot without failures reaches the current version |
| `Migration.ChainStops` | components/espos_config/src/espos_config.c:727-747 | how far a boot gets: past exactly the versions whose step, if any, succeeds and whose next stamp lands, until the current version, a write not acknowledged or a version not passed |
| `MigrationRetry.SucceedsAgainIff` | components/espos_config/src/espos_config.c:727-747 | a step that succeeded succeeds again later iff its stamp write was lost and a later boot gets to call it with success, the boots between leaving the stamp alone |
| `MigrationRetry.ChainCalls` | components/espos_config/src/espos_config.c:727-747 | a step called anywhere in the chain of a boot was reached, and the chain ends as if it had started there |
| `MigrationRetry.SucceedsAgainInRun` | components/espos_config/src/espos_config.c:727-747 | the same at any point of any run and at any step of a boot that took several |
| `MigrationRetry.RanIff` | components/espos_config/src/espos_config.c:727-747 | when step v of a namespace stamped v is called with a given answer, over any boots |
| `MigrationRetry.LostStampRunsTwice` | components/espos_config/src/espos_config.c:741-745 | the failing input: a lost stamp write and one more boot |
| `Migration.Namespace.WriteVersion` | components/espos_config/src/espos_config.c:688-697 | OK only if the stamp landed |
| `Migration.Namespace.Migrate` | components/espos_config/src/espos_config.c:699-747 | the loop leaves the stamp and history of the chain |
| `AuthThrottle.CtEqual` | components/espos_httpd/src/auth_policy.c:18-27 | the OR-fold over a fixed width is string equality |
| `AuthThrottle.MissCosts` | components/espos_httpd/src/auth_policy.c:98-128 | every counted miss costs one unit of the interval's budget |
| `AuthThrottle.BudgetBounds` | components/espos_httpd/src/auth_policy.c:98-128 | the budget bounds the misses still to come in the interval |
| `AuthThrottle.AtMostEightMisses` | components/espos_httpd/src/auth_policy.c:98-128 | with no correct key in between every half-open 30 s interval holds at most 8 counted misses, across wraps |
| `AuthThrottle.EightAreReached` | components/espos_httpd/src/auth_policy.c:98-128 | 8 is reached |
| `AuthThrottle.LockoutRefusesAll` | components/espos_httpd/src/auth_policy.c:98-128 | for 30 s after a lockout starts no key is compared and nothing changes |
| `AuthThrottle.LockoutLasts` | components/espos_httpd/src/auth_policy.c:98-128 | a lockout lasts 30 s, and shows again from 2^31 s after that, modulo 2^32 |
| `AuthThrottle.AllowForgets` | components/espos_httpd/src/auth_policy.c:98-128 | after the right key every list of checks is answered as by a fresh throttle |
| `AuthThrottle.FifthMissLocks` | components/espos_httpd/src/auth_policy.c:98-128 | over any list of checks a lockout starts at a check iff it is the fifth miss of a window of 60 s, windows being opened by the first miss after an Allow, a lockout or the end of the window before |
| `AuthThrottle.RightKeyOnly` | components/espos_httpd/src/auth_policy.c:98-128 | on true seconds, with a key configured: refused while the lockout lasts, then Allow iff the right key; iff the lockout is not stale, that is, not left unchecked for 2^31 s |
| `AuthThrottle.StaleLockoutRefuses` | components/espos_httpd/src/auth_policy.c:98-106 | the failing input: a lockout followed by 2^31 s of silence refuses the right key |
| `AuthSessions.ValidMeansOnRecord` | components/espos_httpd/src/auth_policy.c:207-236 | a cookie is good iff minted since the last key change, not closed or evicted, and within its mint-time ttl |
| `AuthSessions.HistoryDecides` | components/espos_httpd/src/auth_policy.c:163-251 | the same after any run |
| `AuthSessions.EvictsLeastRecentlySeen` | components/espos_httpd/src/auth_policy.c:173-236 | eviction only when full after the sweep, and of a session whose last mint or good request, read off the history, is the earliest of all live ones |
| `AuthSessions.StepLogs` | components/espos_httpd/src/auth_policy.c:163-251 | the history follows the operations: each mint with its eviction, each good request, each close and each new key, and nothing else |
| `AuthSessions.OpenFaithful` | components/espos_httpd/src/auth_policy.c:173-205 | a mint keeps table and history in agreement |
| `AuthSessions.EmptyIsFaithful` | components/espos_httpd/src/auth_policy.c:40-54 | so does start-up |
| `AuthSessions.TouchFaithful` | components/espos_httpd/src/auth_policy.c:227-236 | so does a lookup, and a good one stamps the session with its time |
| `AuthSessions.CloseFaithful` | components/espos_httpd/src/auth_policy.c:238-244 | so does a close |
| `AuthSessions.SweepFaithful` | components/espos_httpd/src/auth_policy.c:163-171 | so does a sweep |
| `AuthSessions.SetKeyFaithful` | components/espos_httpd/src/auth_policy.c:56-66 | so does a new key, which ends every session |
| `AuthPolicy.Policy.CheckPresented` | components/espos_httpd/src/auth_policy.c:98-128 | the 32-bit throttle answers as the ideal one for a string judged by equality |
| `AuthPolicy.Policy.CountMiss` | components/espos_httpd/src/auth_policy.c:116-127 | the 32-bit window and lockout follow the ideal ones |
| `AuthPolicy.Policy.Sweep` | components/espos_httpd/src/auth_policy.c:163-171 | empties exactly the slots whose session has expired, in runs of any length, if none expired 2^31 s ago or more |
| `AuthPolicy.Policy.ChooseSlot` | components/espos_httpd/src/auth_policy.c:180-196 | first free slot, else the one idle longest |
| `AuthPolicy.Policy.SessionOpen` | components/espos_httpd/src/auth_policy.c:173-205 | refines the ideal mint |
| `AuthPolicy.Policy.FindSlot` | components/espos_httpd/src/auth_policy.c:207-225 | hits iff the cookie is good |
| `AuthPolicy.Policy.SessionValid` | components/espos_httpd/src/auth_policy.c:227-236 | the ideal verdict and touch |
| `AuthPolicy.Policy.SessionClose` | components/espos_httpd/src/auth_policy.c:238-244 | the ideal close |
| `AuthPolicy.Policy.SetKey` | components/espos_httpd/src/auth_policy.c:56-66 | clipped key, no session left, throttle kept |
| `AuthPolicy.Policy.SetTtl` | components/espos_httpd/src/auth_policy.c:68-71 | only sessions minted later get the new lifetime |
| `AuthPolicy.Policy.OpenRecovery` | components/espos_httpd/src/auth_policy.c:132-149 | on true time the window is open for exactly the seconds asked for, at most a day, and reads as open again only 2^31 s after it closed |
| `AuthPolicy.Policy.Decide` | components/espos_httpd/src/auth_policy.c:274-322 | with a key set and no recovery, Allow iff the bearer is the key outside a lockout, or the cookie is good and a state change has a matching origin; FORBIDDEN_ORIGIN iff the cookie is good and the origin does not match; the other verdicts and each method, exactly; what the request does to throttle and sessions |
| `AuthOrigin.AuthorityOfAddress` | components/espos_httpd/src/auth_policy.c:324-335 | the authority of an address is its host and port whatever its scheme and path, port 80 left out |
| `AuthOrigin.PageMatchesItsHost` | components/espos_httpd/src/auth_policy.c:337-355 | a page matches exactly the host it came from, letter case and port 80 aside |
| `AuthOrigin.OnlyDefaultPortIsBare` | components/espos_httpd/src/auth_policy.c:324-355 | a page on a given port matches the bare host iff that port is 80 |
| `AuthOrigin.CharactersAre` | components/espos_httpd/src/auth_policy.c:324-355 | an authority ends at a slash, question mark or hash; two characters count as one iff equal or the two cases of a letter |
| `AuthOrigin.OriginMatches` | components/espos_httpd/src/auth_policy.c:337-355 | the loop decides that |
| `AuthPolicy.ExpiryReads` | components/espos_httpd/src/auth_policy.c:35-38 | at every instant a session reads as expired iff the time since its expiry modulo 2^32 is below 2^31; when that is the truth |
| `AuthPolicy.ExpiryReadsTrueIff` | components/espos_httpd/src/auth_policy.c:35-38 | it reads right from the mint until 2^31 s past its expiry iff its ttl is at most 2^31 s; a longer one counts as expired at the mint |
| `AuthPolicy.SessionRevives` | components/espos_httpd/src/auth_policy.c:163-171 | the failing input: a session nobody swept for 2^31 s after its expiry reads as live again |
| `RegistryOrder.OrderedMeansAcyclic` | scripts/registry_order.py:43-65 | an upload order exists only for a closed graph without cycles |
| `RegistryOrder.PathGoesBack` | scripts/registry_order.py:43-65 | along any path positions in an upload order strictly fall |
| `RegistryOrder.NamedCycle` | scripts/registry_order.py:50-52 | the named cycle is a path of edges back to its start |
| `RegistryOrder.Sorted` | scripts/registry_order.py:53-64 | the members of a set, ascending |
| `RegistryOrder.Sorter.Visit` | scripts/registry_order.py:47-61 | terminates on every graph; done nodes stay ordered after their dependencies; a failure is genuine |
| `RegistryOrder.Sorter.TopoOrder` | scripts/registry_order.py:43-65 | returns an order iff the graph is closed and acyclic: a permutation of the nodes, dependencies first; else a genuine cycle or missing node |

## Left out

- NULL arguments, allocation failure and handles of namespaces that were never opened.
- `espos_flow` task and queue plumbing; callbacks are scripts of scheduler calls, and re-entering the sweep is the refused call.
- `advq_*` and `post_due`/`post_done`: the advertisement queue and the posting interval would only add easy members.
- `espos_ble` dialling, hello, HTTP posts, the GATT stack and error events; one session is modelled, its writes' data are not.
- `espos_health_reset`, and drill keys reported directly instead of through the drill call.
- HealthReplay.Replay: observes one sink and one reporter per key at a time; its guarantee is for fan-outs that get their lock while it runs.
- JSON text, its parser, the NUL scan and the trailing-space rule: a document is a parsed tree, and malformed text is refused before it.
- Float rounding, printing and the sign of zero: floats are reals with NaN and infinities, and the export laws take the round trip of the float text as a hypothesis.
- Storage reads fail only by absence, type or size; a stored string is a terminated C string.
- Runtime registration of namespaces, subscriptions and their notifications, single-key setters and getters, the JSON Schema, error messages and paths.
- ConfigExport.Export: requires unique namespace and key names, as the generator and the registration enforce.
- Migration steps' effect on the values; a step does not touch the version key, and the registry of steps is a set of versions.
- A failed read of a good version stamp is not part of the runs: such a boot takes the stamp for a corrupt one, erases it and stamps the current version, so the stamp jumps over every step (`MisreadKeepsStampIff` states that one boot).
- AuthPolicy.Policy.SessionOpen: takes the random id as a parameter that no live session has; the table is modelled for ttls up to 2^31 s and while no expired session lies unswept for 2^31 s.
- The timing of the constant-time comparison; only its result is stated.
- The TypeScript UI, the HTTP handlers and the other scripts.
