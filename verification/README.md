# The projector's derivation pipeline

`cmd/projector` turns a machine controller's append-only tables into a replica for reporting. Each tick reads a
bounded page of every source table, merges the pages by time, feeds the rows to a tracker, writes the intervals the
tracker has closed together with their child rows, and adds up hours and days. This project models that pipeline in
Dafny and proves what it keeps over every source, every run and every batch size.

Four parts, as in the program:

* **Merge** (`Merge`, `Drain`): pages, the safe horizon, the applied prefix, cursors as positions; then ticks until the
  source is drained.
* **Tracker**: `TrackerSpec` says on values what every operation computes. `Trackers.Tracker` is the object the program
  has: open interval, state span, dwells, door episode, pruned ledger, queue, all updated in place; each of its methods
  is proved to compute what `TrackerSpec` says. The whole-run results are about `TrackerSpec.Run`. They say what the
  rows mean in terms of the source rows (`Attribution`, `StateHistory`, `DwellHistory`, `DwellFaults`, `Doors`,
  `StepRunRows`, `Buffers`, `Results`, `Ledger`, `ConfigChanges`) and how they lie in time (`Timeline`, `Gaps`, `Spans`,
  `Dwells`, `ChildOrder`, `StepRunPath`, `Starts`, `LongOrders`, `SynthKeys`).
* **Writer** (`Text`, `Calendar`, `Dates`, `Replica`, `StateStores`, `Writers`, `EmitOrder`, `Arrivals`, `FaultTable`,
  `ReplicaRows`): emit timestamps and their order as strings (sections 5.1 and 5.6 and Appendix C of RFC 3339),
  watermarks, the rows of one interval, the replica of a run.
* **Rollups** (`Rollups`, `RollupColumns`, `Additivity`, `Buckets`, `RollupEmitters`, `Grains`, `RunRollups`, and when
  emitted rows are final: `Finality`, `GlassFinality`, `FaultFinality`, `TimeFinality`, `HourFinality`): clipped
  occupancy, hour and day measures, cursor-driven emission.

`Pipeline`, `Projectors`, `Shutdown` and `MainLoop` join the parts: the projector object, its tick, and a run of ticks
with the final flush.

Statements about meaning spell out the literal values of the source: state names, input names, step 19, the two-second
slack. They do not go through the functions that compute.

Two settings are explicit. On the **base path** (`Frames.BasePath`) no input is a step run and no input is earlier than
the one before it. The **step-run path** (`Frames.TimeOrdered`) allows step runs, which are ordered by their end but ask
for an interval at their start; fewer properties hold there, and each lemma says which path it is for. "Run" is the
tracker fed with a sequence of inputs, "whole run" a run and its final flush. Two fields are histories the program does
not have: `finished`, every closed interval including the dropped ones, and `dwellLog`, every dwell including the
suppressed ones.

## Findings

Where the code does less than its comments say, the code is modelled and the exact condition is proved.

* Ticks with different batch sizes may apply tied rows in a different order: a page boundary inside a group of equal
  timestamps tears it apart. `Drain.BatchSizeIndependence` gives the exact condition on the source,
  `Drain.TiedSourceShowsBatchSize` a source that does not meet it.
* Intervals are called a continuous partition of machine time (`cmd/projector/tracker.go:18-22`). They are one exactly
  when no input that ended in a verdict is followed by a later input (`Gaps.PartitionExactly`); after a completed cycle
  the time until the next row belongs to no interval (`Gaps.CompletedCycleLeavesGap`).
* The duration cap is said to be harmless because the parts re-aggregate by summing
  (`cmd/projector/tracker.go:249-258`). The cycles table keeps the first part of an order only
  (`LongOrders.FirstIntervalWins`), so the sum is right exactly when no order was emitted twice
  (`LongOrders.PartsAddUpExactly`). A completion event that arrives at the cap is lost
  (`LongOrders.CompletionIsRecorded`), a completing step run is not (`LongOrders.StepRunCompletionIsRecorded`).
* An interval without length is dropped as carrying no information (`cmd/projector/tracker.go:289-291`). It may carry a
  fault: a fault that names an order is recorded exactly when that order's interval is open already, began earlier and
  is below the duration cap (`LongOrders.OrderFaultIsRecorded`).
* The key of a step run's fault is said never to be one of the ledger (`cmd/projector/tracker.go:661-663`). That is so
  exactly as long as neither fault type goes on behind the other as a key would (`FaultTable.KeysCollideExactly`), for
  example when no type has a bar (`FaultTable.SourcesHaveOwnKeys`); `FaultTable.BarsCollide` shows two equal keys.
* A configuration change passes a result text where a state name is expected, so it always asks for an idle interval: it
  splits every other interval and aborts an open order (`ConfigChanges`).
* Child rows are written without the guard. On the base path their order holds all the same
  (`EmitOrder.ReplicaInOrder`). In general no child is later than its cycle exactly when no step run closes the open
  interval behind a row that was filed already (`StepRunPath.NoChildIsLaterExactly`), and such step runs exist
  (`StepRunPath.CleaningClosesBehind`).
* An hour row is emitted as soon as the timeline has passed the hour. It is final exactly when nothing of the hour is
  unsettled: no unwritten open order that started in it, no stored cycle of it without its glass count, no buffered fault
  of it that is not stored, no state span that meets it and is open or buffered
  (`HourFinality.HourRowIsFinalExactly`, column by column in `Finality`, `GlassFinality`, `FaultFinality` and
  `TimeFinality`). That no order is open is not enough (`HourFinality.IdleFaultUnsettlesTheHour`).
* The bucket cursor uses 0 for "none", so a history that starts at or before the epoch emits buckets twice
  (`Buckets.EachOnceExactlyAfterEpoch`).
* The string order of emit timestamps is the order in time up to an instant exactly when that instant lies before year
  10000 (`Calendar.TextOrderExactly`). The source's four-digit years get there only through a zone offset at the very
  end of year 9999.

## Model

| member | source | states |
|---|---|---|
| `Merge.TickTakesNextRows` | cmd/projector/main.go:271-318 | for every table, the rows a tick applies are the next stretch of that table, in its order, within the page read |
| `Merge.AppliedMembers` | cmd/projector/main.go:287-290 | a row is applied exactly when its page holds it and it is not beyond the safe horizon |
| `Merge.HorizonIsEarliest` | cmd/projector/main.go:378-385 | the horizon is the earliest last timestamp among the full pages, and there is one exactly when a page is full |
| `Merge.TickKeepsOrder` | cmd/projector/main.go:362-385 | nothing left behind is earlier than anything applied; a tie across the tick boundary sits behind a full page ending at that instant |
| `Merge.TickProgress` | cmd/projector/main.go:265-332 | a tick applies everything that is left or at least one whole page |
| `Merge.TickBreaksTies` | cmd/projector/main.go:271-279 | rows of one instant are applied by kind, orders before events before step runs before faults before toggles, and then by id |
| `Drain.TicksBounded` | cmd/projector/main.go:265-332 | a source of N rows is drained in at most N / batch + 1 ticks |
| `Drain.EachTableOnceInOrder` | cmd/projector/main.go:265-332 | the ticks together apply every row of every table exactly once, each table in id order |
| `Drain.NeverStepsBack` | cmd/projector/main.go:258-276 | the applied timestamps never decrease, within a tick or across ticks |
| `Drain.DrainedIsPermutation` | cmd/projector/main.go:265-332 | what the ticks apply is a rearrangement of all rows of all tables |
| `Drain.SortsForEveryBatch` | cmd/projector/main.go:271-281 | draining equals one sort of all rows for every batch size, exactly when ties are harmless |
| `Drain.BatchSizeIndependence` | cmd/projector/main.go:271-281 | all batch sizes apply the rows in one order, exactly when ties are harmless |
| `Drain.TiedSourceShowsBatchSize` | cmd/projector/main.go:271-281 | two orders and an event at one instant: a valid source on which batch sizes disagree |
| `Pipeline.RunBehind` | cmd/projector/tracker.go:292-313 | a run does not depend on the intervals that wait to be handed over |
| `Pipeline.TickingIsRunning` | cmd/projector/main.go:287-336 | on the base path the ticks hand over the intervals, in the order, of applying all rows in one go |
| `Pipeline.FlushedIsWholeRun` | cmd/projector/main.go:579-605 | the ticks and the final flush of a source without step runs hand over the intervals of one whole run |
| `Pipeline.BatchSizeDoesNotShow` | cmd/projector/main.go:271-332 | without step runs and with harmless ties every batch size hands over the intervals of the rows sorted once |
| `Projectors.ApplyItems` | cmd/projector/main.go:285-319 | the loop applies the rows up to the horizon, and remembers the last id per table and the last instant |
| `Projectors.ReadsPage` | cmd/projector/reader.go:136-174 | reading the rows with larger ids than a cursor yields the page at the position the cursor stands at |
| `Projectors.ReadsForward` | cmd/projector/main.go:328-334 | the last applied id of a table is always beyond the cursor that was read, so no cursor update is skipped |
| `Projectors.AdvanceReachesNextPos` | cmd/projector/main.go:328-334 | storing the last applied ids moves every stored position exactly as the merge moves it |
| `Projectors.Projector.Collect` | cmd/projector/main.go:368-452 | the loop over the tables collects one page each and ends with the safe horizon and the cursors it read |
| `Projectors.Projector.AdvanceCursors` | cmd/projector/main.go:328-334 | stores the last applied id of the tables that moved and leaves every other cursor alone |
| `Projectors.SameConfigIsQuiet` | cmd/projector/main.go:465-474 | a configuration seen for the first time, or seen last, brings no change |
| `Projectors.Projector.DrainConfig` | cmd/projector/main.go:454-479 | exactly the keys whose value differs from the snapshot reach the tracker, each once, at the given instant, and the snapshot follows |
| `Projectors.Projector.FlushIntervals` | cmd/projector/main.go:596-605 | the closed intervals are written in the order of their ends and the queue is empty afterwards |
| `Projectors.Projector.Tick` | cmd/projector/main.go:265-360 | the whole state after a tick: tracker, cursors, tables, watermarks, rollups, furthest instant |
| `Projectors.Projector.FinalFlush` | cmd/projector/main.go:579-594 | closes the open interval at the furthest instant, at now only when nothing was applied or the timeline is ahead of now; writes it and aggregates again |
| `Shutdown.LastIntervalIsEmitted` | cmd/projector/tracker.go:937-950 | the open interval is always emitted, up to the instant or one millisecond past its start, an order as aborted |
| `Shutdown.ReplicaEndsOnTheTimeline` | cmd/projector/main.go:563-594 | closed on the timeline, no cycle of a drained source ends more than a millisecond after its last row |
| `MainLoop.NothingLeft` | cmd/projector/main.go:265-332 | a tick over a drained source applies nothing |
| `MainLoop.Serve` | cmd/projector/main.go:192-214 | after enough ticks and the final flush the tables hold all intervals of the drained source, written one after the other; when its last row lies after the epoch and not after now, they do not depend on now and no cycle ends more than a millisecond after that row; the rollup rows of each grain are those of the rounds of aggregation, one per bucket, the last round over the final tables |
| `MainLoop.BatchSizeDoesNotShowInReplica` | cmd/projector/main.go:265-336 | without step runs and with harmless ties the final tables are those of the rows sorted once, whatever the batch size |
| `MainLoop.ServedReplicaInOrder` | cmd/projector/main.go:579-605 | for every batch size the drained and flushed replica is in the order of its emit timestamps, table by table |
| `Trackers.FindDominantKey` | cmd/projector/tracker.go:959-972 | returns the key with the largest positive count, the smallest one on a tie, "" when there is none |
| `Trackers.Tracker.CloseDwell` | cmd/projector/tracker.go:514-543 | the lane's dwell becomes a row up to the instant, unless it has no length or is suppressed |
| `Trackers.Tracker.CloseStateSpan` | cmd/projector/tracker.go:409-426 | the open span becomes a row of the open interval, or stays open when it has no length |
| `Trackers.Tracker.CloseInterval` | cmd/projector/tracker.go:292-313 | dwells and span are closed, the interval is sealed, and queued unless it has no length |
| `Trackers.Tracker.EnsureInterval` | cmd/projector/tracker.go:249-287 | the cap, the order key and the state decide whether the open interval stays, and what is opened instead |
| `Trackers.Tracker.ApplyOrder` | cmd/projector/tracker.go:321-329 | opens the order's interval and notes recipe and glass count in it |
| `Trackers.Tracker.TrackStateSpan` | cmd/projector/tracker.go:392-407 | repeats of a state are merged, lane states ignored, a new state closes the open span |
| `Trackers.Tracker.TrackDwell` | cmd/projector/tracker.go:436-479 | the event counts in the running dwell; another state or step closes it and starts the next in sequence |
| `Trackers.Tracker.ApplyFSMEvent` | cmd/projector/tracker.go:331-387 | counters, span, dwell and buffered event, and the close at the completion marker |
| `Trackers.Tracker.ApplyFault` | cmd/projector/tracker.go:559-608 | ledger, summary, dwell and buffered fault, and the close of a production interval |
| `Trackers.Tracker.ApplyStepRun` | cmd/projector/tracker.go:703-799 | the finished dwell, its fault unless the ledger has it, and the close by fault or completion |
| `Trackers.Tracker.ApplySensorToggle` | cmd/projector/tracker.go:825-906 | the door episode moves with the edge, and the toggle is buffered |
| `Trackers.Tracker.ApplyConfigChange` | cmd/projector/tracker.go:908-925 | the change is buffered in the interval that its pseudo-state asks for |
| `Trackers.Tracker.FlushOpen` | cmd/projector/tracker.go:937-950 | closes the open interval at the instant, one millisecond after its start at least |
| `Trackers.Tracker.PendingIntervals` | cmd/projector/tracker.go:952-957 | hands over the queue stably sorted by end, and empties it |
| `FaultLedgers.FaultLedger.KeepSince` | cmd/projector/tracker.go:615-622 | pruning in place, over the front of the same array, leaves the faults from the cutoff on, in order |
| `FaultLedgers.FaultLedger.Record` | cmd/projector/tracker.go:613-623 | appends the fault and prunes to the cap |
| `FaultLedgers.FaultLedger.Covers` | cmd/projector/tracker.go:628-636 | true exactly when the ledger has a fault of the type within the slack of the window |
| `Timeline.RunTimeline` | cmd/projector/tracker.go:292-313 | emitted intervals have a length and come in order; consecutive ones abut unless a verdict was reached where the gap begins |
| `Timeline.EmittedApart` | cmd/projector/tracker.go:292-313 | no two emitted intervals overlap |
| `Gaps.PartitionExactly` | cmd/projector/tracker.go:292-313 | the emitted intervals partition the time from the first input to the last exactly when no input that ended in a verdict is followed by a later one |
| `Gaps.GapOpensAtTheNextInput` | cmd/projector/tracker.go:249-283 | after a verdict the next input opens its interval at its own instant, beyond the last end exactly when it is later |
| `Gaps.CompletedCycleLeavesGap` | cmd/projector/tracker.go:380-386 | an order, its completion and a later idle event, whatever the settings: the time between is in no interval |
| `SynthKeys.SynthKeyInjective` | cmd/projector/tracker.go:241-244 | a synthetic key determines prefix, start and the last four digits of the counter |
| `SynthKeys.KeysDistinct` | cmd/projector/tracker.go:87-98 | emitted non-production intervals of a base-path run have pairwise distinct keys |
| `Buffers.RowsConserved` | cmd/projector/tracker.go:331-378 | on both paths the buffers of all intervals, open and dropped ones included, hold the applied events, toggles and config changes in order, and as faults those of the fault rows and of the step runs that report one |
| `Buffers.NoStepRunsNoMore` | cmd/projector/tracker.go:651-658 | without step runs these faults are the fault rows |
| `ChildOrder.RowsWithinInterval` | cmd/projector/tracker.go:249-268 | an interval's child rows lie in order between its start and end, and its source rows before start + cap |
| `ChildOrder.LostRowsAreInstant` | cmd/projector/tracker.go:305-309 | a row in a dropped interval carries the very millisecond that interval opened at |
| `ChildOrder.ChildrenNeedNoGuard` | cmd/projector/writer.go:582-726 | the instants of each child table never decrease over a whole base-path run |
| `StepRunPath.StepRunClosesBehind` | cmd/projector/tracker.go:704-706 | an input queues an interval with a child row later than its end exactly when it is a step run that closes the open interval, by key, state or cap, behind a filed row |
| `StepRunPath.NoChildIsLaterExactly` | cmd/projector/writer.go:568-726 | over a whole run on either path no emitted interval has a later child exactly when no step run did that |
| `StepRunPath.CleaningClosesBehind` | cmd/projector/tracker.go:703-799 | an idle event, a toggle and a Maintenance step run that began before the toggle: a reachable run with a later child |
| `Spans.RunInOrder` | cmd/projector/tracker.go:392-426 | on both paths all spans ever produced are positive, pairwise disjoint and in order |
| `Spans.WholeRunSpans` | cmd/projector/tracker.go:392-426 | so are the spans of the emitted intervals |
| `StateHistory.StatesAreHeld` | cmd/projector/tracker.go:392-407 | from an event that tells the machine state to the next one, or to the end of the interval, one span in that state holds |
| `StateHistory.SpansAgreeWithEvents` | cmd/projector/tracker.go:392-426 | on both paths a span begins at an event in its state, and no event inside it tells another state |
| `StateHistory.SpansTellTheState` | cmd/projector/tracker.go:392-426 | from the first telling event of an interval on, the spans put the machine in a state at an instant exactly when the last event so far says so |
| `Dwells.DwellsTelescope` | cmd/projector/tracker.go:436-554 | per lane, kept and suppressed dwells are disjoint, inside the interval, strictly numbered, and add up from the lane's first event to the end |
| `DwellHistory.DwellsAreStretches` | cmd/projector/tracker.go:436-479 | the dwells of a lane are exactly its stretches of events in one state and step that have a length, with their counts of events, inputs and transitions and their number among the stretches |
| `DwellHistory.DwellsAgreeWithEvents` | cmd/projector/tracker.go:481-493 | every event of the lane inside a dwell, and the last one at its start, tells the state and the step of the dwell |
| `DwellHistory.DwellsEndAtMoves` | cmd/projector/tracker.go:464-469 | where two consecutive events of a lane differ in state or step and in instant, a dwell ends at the second |
| `DwellHistory.DwellsKept` | cmd/projector/tracker.go:495-512 | a dwell is in the lane its state names, and is kept unless it is HomeIdle outside production |
| `DwellFaults.DwellsCountTheirFaults` | cmd/projector/tracker.go:582-599 | a dwell counts the faults of its interval that name it, and only main-lane dwells are named |
| `Results.VerdictsSound` | cmd/projector/tracker.go:383-386 | on both paths every result is accounted for by the interval's rows, in both directions (an order is completed only if its last event or last step run is the completion marker, at its end), and all counters and the fault summary describe them |
| `Attribution.IntervalsAreProper` | cmd/projector/tracker.go:249-283 | on both paths all rows carry the key of their interval; its events and toggles name its order, or none while the machine is in the state it stands for; outside production its key spells state and start |
| `Attribution.RowsGoWhereTheyBelong` | cmd/projector/tracker.go:321-333 | every row of whatever kind goes to an interval it belongs in, after every run |
| `Attribution.IntervalsEndForAReason` | cmd/projector/tracker.go:249-283 | an interval ends on a verdict, at the cap, or for another order or state, never otherwise |
| `Attribution.OrdersAreNoted` | cmd/projector/tracker.go:321-329 | recipe and glass count come together, from an order row with the key of the interval, and an order row leaves both in the open interval of its order |
| `Doors.EpisodesFollowToggles` | cmd/projector/tracker.go:825-886 | the episodes of all intervals are a function of the toggle history alone |
| `Doors.EpisodesExact` | cmd/projector/tracker.go:825-886 | an episode runs from an opening edge to the next edge, a closing one, counts the resets between, and does not overlap the one before |
| `Doors.EpisodesComplete` | cmd/projector/tracker.go:825-886 | every opening edge whose next edge closes the door later has its episode |
| `Doors.EpisodesNamed` | cmd/projector/tracker.go:813-886 | in the names of the inputs: an episode is a fall and the next edge, a rise, of X0.0, and its resets are the rises of X0.7 in between, counted, first and last |
| `Doors.NamedEpisodesExist` | cmd/projector/tracker.go:825-886 | every fall of X0.0 whose next edge is a later rise has such an episode |
| `Ledger.RunLedger` | cmd/projector/tracker.go:613-623 | pruning after every fault leaves what pruning the full history once would |
| `Ledger.PruningInvisible` | cmd/projector/tracker.go:613-636 | for a window not behind the cutoff the pruned ledger answers as the full history |
| `Ledger.PruningInvisibleExactly` | cmd/projector/tracker.go:610-636 | whatever the history, exactly when the window does not reach back further than the cap before the last fault |
| `StepRunRows.RunsConserved` | cmd/projector/tracker.go:709-742 | on all inputs the step-run dwells are the applied step runs in order, but those without length and HomeIdle outside production |
| `StepRunRows.FaultsOfStepRunsExactly` | cmd/projector/tracker.go:651-658 | a step run files its fault exactly when it is kept, carries one, and no fault row of that type was applied within two seconds of it |
| `StepRunRows.RunsAreNumbered` | cmd/projector/tracker.go:711-719 | with step runs the dwells of a lane are numbered through in their interval, suppressed ones included |
| `ConfigChanges.ConfigAsksForIdle` | cmd/projector/tracker.go:908-914 | no result text is a state name, so a config change asks for an idle interval |
| `ConfigChanges.ConfigKeepsIdleOnly` | cmd/projector/tracker.go:908-914 | a config change leaves the open interval open exactly when that is idle and below the cap |
| `ConfigChanges.ConfigAbortsProduction` | cmd/projector/tracker.go:908-914 | in every reachable state a config change ends an open order as aborted, without a fault |
| `LongOrders.CompletionIsRecorded` | cmd/projector/tracker.go:249-277 | a completion marker yields a completed interval exactly when the order has a length and is below the cap |
| `LongOrders.StepRunCompletionIsRecorded` | cmd/projector/tracker.go:703-799 | a completing step run yields a completed interval exactly when it has a length, reports no fault, and ends after its order was opened or reopened |
| `LongOrders.OrderFaultIsRecorded` | cmd/projector/tracker.go:601-607 | a fault row that names an order yields a faulted interval exactly when the order is open already, has a length and is below the cap |
| `LongOrders.FirstIntervalWins` | cmd/projector/writer.go:519-534 | the cycles table has one row per emitted key, that of the first interval with the key |
| `LongOrders.PartsAddUpExactly` | cmd/projector/tracker.go:252-258 | the table's durations add up to the emitted time exactly when no key was emitted twice |
| `LongOrders.OnlyOrdersRepeat` | cmd/projector/tracker.go:241-282 | in a base-path run a key that is emitted twice is a production order's |
| `Calendar.EventTSOrder` | cmd/projector/writer.go:429-431 | in years 0 to 9999 emit timestamps have 30 characters and compare as strings exactly as the instants do |
| `Calendar.FourDigitRange` | cmd/projector/writer.go:423-431 | the instants from -62167219200000 to 253402300799999 are exactly those of years 0 to 9999 |
| `Calendar.DateUTCIsTheDay` | cmd/projector/writer.go:478-480 | two instants have the same date text exactly when they share a UTC day |
| `Calendar.FifthDigitSortsEarly` | cmd/projector/writer.go:423-431 | timestamps of years 10000 to 19999 sort below those of years 2000 to 9999 |
| `Calendar.TextOrderExactly` | cmd/projector/writer.go:423-431 | from 1970 to an instant the string order is the order in time exactly when the instant lies before year 10000 |
| `Calendar.CivilOrder` | cmd/projector/writer.go:429-431 | dates count up with the days and name one day each |
| `Dates.EpochDate` | cmd/projector/writer.go:478-480 | instant 0 is dated 1 January 1970 |
| `Dates.DaysFollow` | cmd/projector/writer.go:429-431 | every day is dated the day after the one before, by the lengths of the Gregorian months |
| `Dates.EventTSReads` | cmd/projector/writer.go:429-431 | read digit by digit, a timestamp says its date, hour, minute, second and nanosecond, and nothing is lost |
| `StateStores.StateStore.LoadWatermarks` | cmd/projector/state.go:45-59 | reading the rows back one by one restores every watermark |
| `StateStores.StateStore.SetWatermark` | cmd/projector/state.go:65-76 | a watermark only moves forward, and the database follows the cache |
| `StateStores.StateStore.SetConfigSnapshot` | cmd/projector/state.go:131-149 | every value is stored, and keys that are gone stay |
| `StateStores.MarksAreHighWater` | cmd/projector/state.go:45-76 | over any writes, marks and restarts a watermark is the largest timestamp its table was given |
| `StateStores.StreamIsRunningMax` | cmd/projector/writer.go:486-497 | the guarded timestamps of a table are the running maximum of what it was given, so they never step back |
| `Writers.Writer.Guard` | cmd/projector/writer.go:486-497 | the timestamp of the instant, clamped forward to the watermark |
| `Writers.Writer.FlushInterval` | cmd/projector/writer.go:505-739 | the cycle, all child rows in insertion order, and the watermarks that cover them |
| `EmitOrder.NoChildIsLater` | cmd/projector/writer.go:568-573 | no child is later than its cycle, so the tracked maximum is the cycle's own timestamp |
| `EmitOrder.ReplicaInOrder` | cmd/projector/writer.go:505-739 | a base-path run leaves every table in the order of its emit timestamps, the guard never clamps a cycle, and no child is later than its parent |
| `Arrivals.TogglesWritten` | cmd/projector/writer.go:666-686 | the sensor_toggles table holds the toggles of the written intervals, in order |
| `Arrivals.TogglesArrive` | cmd/projector/tracker.go:888-906 | the table holds applied toggles only, and every applied one but those whose interval was dropped at the millisecond they carry |
| `FaultTable.FaultKeysDiffer` | cmd/projector/tracker.go:568 | keys of ledger faults whose types have no bar are equal exactly for one row in one order |
| `FaultTable.SourcesHaveOwnKeys` | cmd/projector/tracker.go:661-663 | no ledger key is a step-run key, for fault types without a bar |
| `FaultTable.KeysCollideExactly` | cmd/projector/tracker.go:661-663 | rows of different sources or fault types may share a key exactly when one type extends the other |
| `FaultTable.BarsCollide` | cmd/projector/tracker.go:661-663 | a ledger fault and a step run with one key |
| `FaultTable.FaultTableExact` | cmd/projector/writer.go:635-664 | on both paths, for distinct ids and separable types, fault_events has exactly one row for every fault of the emitted intervals, in order |
| `FaultTable.FaultsArrive` | cmd/projector/tracker.go:559-608 | on the base path the table has applied faults only, and every applied one but those raised at the instant their dropped interval opened |
| `ReplicaRows.WrittenStamped` | cmd/projector/writer.go:582-726 | every child row carries the timestamp of its end and the date of its start |
| `ReplicaRows.MetadataFilled` | cmd/projector/writer.go:531-534 | a cycle has the recipe and the glass count known first for its order |
| `ReplicaRows.WrittenMarked` | cmd/projector/writer.go:732-739 | no table is ever ahead of its watermark, guarded or not |
| `Rollups.StateOccupancy` | cmd/projector/rollup.go:545-593 | the accumulated columns are the clipped lengths of the spans of each column |
| `Rollups.OccupiedCountsInstants` | cmd/projector/rollup.go:581-593 | for disjoint spans a column is the number of milliseconds of the bucket spent in its states |
| `Rollups.OccupancyPartitions` | cmd/projector/rollup.go:532-578 | the four columns never exceed the bucket and fill it exactly when the spans cover it |
| `RollupColumns.RowCountsStates` | cmd/projector/rollup.go:545-578 | the time columns of an emitted row count the milliseconds of its bucket covered by spans in AutoCycle, in Error, in Maintenance, and in any other state |
| `RollupColumns.RunRowsCountStates` | cmd/projector/rollup.go:545-578 | so for the replica of every run, on both paths |
| `RollupColumns.RowCountsOrders` | cmd/projector/rollup.go:507-525 | the order columns count the production cycles that started in the bucket, all of them, completed and faulted ones |
| `RollupColumns.RowCountsFaults` | cmd/projector/rollup.go:243-249 | the fault column counts the faults raised in the bucket, in the day row too |
| `RollupColumns.RowAddsUpCycles` | cmd/projector/rollup.go:507-525 | every production cycle adds its time, and every completed one its glasses, to the bucket it started in |
| `RollupColumns.FirstBucketCoversAll` | cmd/projector/rollup.go:214-229 | no finished cycle, span, fault or dwell starts before the first bucket |
| `RunRollups.BucketNeverOverflows` | cmd/projector/rollup.go:532-578 | so for the spans of every run on both paths, at any time, in any storage order |
| `RunRollups.SpansWritten` | cmd/projector/writer.go:582-597 | the state_durations table holds the spans of the written intervals |
| `RunRollups.RunFaultsDated` | cmd/projector/writer.go:635-664 | every stored fault of a base-path run carries the date it was raised on |
| `RunRollups.CyclesWritten` | cmd/projector/writer.go:519-534 | the cycles table of the replica is the one finality is stated for |
| `Additivity.DayIsSumOfHours` | cmd/projector/rollup.go:431-447 | every day measure is the sum of its 24 hours, the longest dwell their maximum, the count by date the sum of the counts by window |
| `Additivity.DateIsWindow` | cmd/projector/rollup.go:444-447 | counting faults by date text equals counting them by the day's window |
| `RollupEmitters.DayRowIsSumOfHourRows` | cmd/projector/rollup.go:431-470 | over fixed tables each column of a day's row is the sum over the rows of its hours |
| `Buckets.BucketsOnce` | cmd/projector/rollup.go:186-210 | over any calls the buckets are aligned, consecutive, each once, none beyond its call's bound, and none due is left out |
| `Buckets.EachOnceExactlyAfterEpoch` | cmd/projector/rollup.go:192-198 | for an aligned first bucket each is emitted once exactly when the first lies after the epoch |
| `RollupEmitters.FirstBucketIsGood` | cmd/projector/rollup.go:214-229 | the first bucket is aligned, contains the earliest finished row, and lies after the epoch exactly when no row starts in the epoch's own bucket |
| `RollupEmitters.OneRowPerBucket` | cmd/projector/rollup.go:186-210 | over any calls and growing tables a grain has one row per bucket, consecutive, in the order of their emit timestamps |
| `Grains.EachGrainAsIfAlone` | cmd/projector/rollup.go:59-71 | in the common table the rows, the watermark and the cursor of a grain are those it would have alone |
| `Grains.OneRowPerBucketAndGrain` | cmd/projector/rollup.go:59-71 | so each grain has one row per bucket there, consecutive and in order |
| `Starts.RunFrom` | cmd/projector/tracker.go:249-287 | nothing a run holds or emits starts before its inputs do, on both paths |
| `RollupEmitters.Emitter.Emit` | cmd/projector/rollup.go:231-289 | one machine row with the measures of the bucket, guarded, and the watermark after it |
| `RollupEmitters.Emitter.EmitGrain` | cmd/projector/rollup.go:186-210 | emits the due buckets from the stored cursor on and leaves the cursor at the last |
| `RollupEmitters.Emitter.EmitDerived` | cmd/projector/rollup.go:59-71 | hours, then days, nothing for a bound not after the epoch |
| `Finality.UpsertCounts` | cmd/projector/rollup.go:507-525 | writing a cycle changes a window's counts only when its key is new, it is production and it started in the window |
| `Finality.CountsFinalExactly` | cmd/projector/rollup.go:507-525 | started, completed, faulted, cycle time and cycle count of an ended bucket survive every continuation exactly when no open, unwritten order started in it |
| `GlassFinality.GlassesFinalExactly` | cmd/projector/writer.go:531-534 | the glasses do exactly when no stored cycle of the bucket lacks its count and no open order of it below the cap is unwritten, a count held at zero by a capped order aside |
| `FaultFinality.FaultsFinalExactly` | cmd/projector/rollup.go:243-249 | the fault count does exactly when the open interval, whatever its kind, buffers no fault of the bucket that will be stored |
| `TimeFinality.TimeFinalExactly` | cmd/projector/rollup.go:545-578 | each time column does exactly when no span of it that meets the bucket is open or buffered |
| `HourFinality.HourRowIsFinalExactly` | cmd/projector/rollup.go:231-280 | so the whole hour row does exactly when nothing of the hour is unsettled |
| `HourFinality.BetweenTicks` | cmd/projector/main.go:334-355 | the states the exact conditions are about are those between ticks |
| `HourFinality.IdleFaultUnsettlesTheHour` | cmd/projector/main.go:349-355 | a run without any order that leaves an ended hour unsettled |

## Left out

- SQLite: transactions, DSNs, PRAGMAs, schema migration, pruning. Statements succeed; a table is a sequence, a read the
  first rows beyond an id.
- Unparseable timestamps: every timestamp parses. The reader skips others, which shortens a page.
- Rows that appear later with earlier timestamps: the source is fixed.
- Crashes and restarts of the projector: pending and open intervals live in memory. Restarts of the state store are
  modelled (`StateStores`).
- Actuator intervals: draining, attribution to dwells, and the actuator rows of a step run.
- Clean-in-place runs (`cip_runs`) and the fault-type and step rows of the rollups; their measures are in `Additivity`.
- Columns that are only passed through: they are one `detail` field, or absent from `CycleRow`. Sensor bits, step titles,
  outcome, sub-hour bucket columns, downtime flags and recovery columns are not modelled.
- The fields `openFaults` and `lateActuators`, which nothing reads.
- 64-bit wrap-around: instants are unbounded integers, in nanoseconds in the source rows and milliseconds elsewhere.
- Gap records, the heartbeat, logging, the ticker and signals, JSON decoding, the severity table (a parameter).
- Projectors.Projector.Tick: actuators and the heartbeat are left out.
- MainLoop.Serve: for a fixed source and a configuration that does not change while it is served.
- MainLoop.ServedReplicaInOrder: for sources without step runs, and a clock not behind the source's last row.
- Writers.Writer.FlushInterval: the recipe that is filled into child rows afterwards is not modelled.
- Trackers.Tracker.ApplyStepRun: per-step actuator rows are not modelled.
- RollupEmitters.Emitter.Emit: the count of clean-in-place runs in an hour row is not modelled.
- RollupEmitters.Emitter.EmitDerived: without clean-in-place runs.
- RollupEmitters.OneRowPerBucket: for rows that do not start in the epoch's own bucket;
  `Buckets.EachOnceExactlyAfterEpoch` shows that this is needed.
- DwellHistory.DwellsAreStretches: for controllers without step runs, where dwells are derived from events.
- StateHistory.StatesAreHeld: base path only; on the step-run path a span may be closed before the events it has seen.
- StepRunRows.FaultsOfStepRunsExactly: for windows not behind the pruned ledger; `Ledger.PruningInvisibleExactly` shows
  that this is needed.
- Attribution.IntervalsAreProper: a stored fault does not keep its row's order key; `Attribution.RowsGoWhereTheyBelong`
  says where fault rows go.
- HourFinality.HourRowIsFinalExactly: on the base path; the count of clean-in-place runs and pruning are left out.
- ChildOrder.ChildrenNeedNoGuard: base path only; `StepRunPath.NoChildIsLaterExactly` has the exact condition for the
  bound by the cycle on both paths.
