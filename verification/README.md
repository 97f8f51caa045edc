# Verified model of the bar engine, the timestamp repair tools, the live tick loop, the signal archive and scenario execution

This project models five parts of FiniexTestingIDE in Dafny and proves what they are for.

**Bars.** `Calendar`, `Bars`, `Periods`, `BarStream`, `RollUp`, `StreamRollUp`, `BarRenderers` and `BarControllers`
model the streaming bar engine. `BarRenderer` builds bars tick by tick on top of a bounded, evicting cache of bar
starts; `BarRenderingController` puts a history cache per timeframe and an accumulate-then-consume set of closes on top.
The specification is the batch renderer, a resample into bins counted from midnight. The classes are proved against the
pure state machine `Step`/`Run` (one series) and `After`/`Session` (one controller), and the theorems are about every
run of those: the streamed history is the batch history, wide bars are merges of narrow bars, reads are live, closes are
neither lost nor reported twice.

**Timestamp repair.** `AnchorRepair` and `AnchorPlanning` model the heart of the V3 migration of `collected_msc`: the shift
decision for one lag, grouping a chain of segments, lifting groups at seams, filling in the plans in place.
`ArchiveContinuity`, `Archive` and `ArchiveCheck` do this for a whole archive, grouped by broker and symbol and sorted by
first event, and model the check that follows. `TickText`, `RepairedFile`, `RepairedText` and `RepairRun` model the files
themselves: the tool's patterns on characters, the marker block, the rewriting loop, and the run from scan to scan;
`RepairVerification` is the tool's own re-check of what it wrote, `RepairGuard` how it recognises it.
`Backfill` and `BackfillFiles` model the V1 tool: interpolation inside a second, the forced strictly increasing order, and
the gather and scatter over files.

**Live loop.** `ClippingMonitors`, `MarketData` and `TickLoops` model the live tick loop as a state machine over ticks,
heartbeats, a stop and the end of the stream, with the executor, the decisions, the clocks and the broker's numbers as
inputs of each event. `AutotraderTickLoop` and `LiveClippingMonitor` are proved to run this machine, and `TickSessions` tells
what every run of it did from its events alone.

**Signal archive.** `SignalSelection` (which files answer a window), `SignalReader` (one row per stamp, trimmed to the
window by collection time), `SignalProvider` with `Bisection` (the producer's order, the clamped gates, lookups and the live
stream) and `SignalLookup` (when a lookup after all of this gives the whole archive's answer); `StreamIdentity` (the import
gate) and `EnvelopeStamp` (the byte-level stamping tool).

**Scenario execution.** `ScenarioExecution` models a run with its catch-all, sequential execution, and parallel collection in
any completion order from a pool that may lose runs.

Times are integers (microseconds for bars, milliseconds for `collected_msc`), prices and durations are reals, integers are
unbounded as in the source language.

## Where the code does less than it promises

Each of these is kept as the code has it, shown on a concrete input, and accompanied by the exact condition.

- `Bar.update_with_tick` takes an open of 0 for "no tick yet". A bar that opens at a mid price of zero and then moves
  differs from the batch row (`ZeroOpenCounterexample`); bars and rows agree exactly when no period does so
  (`StreamCandleIsBatchCandle`, `StreamRefinesBatch`). For the same reason a streamed wide bar need not be the merge of its
  narrow bars (`ZeroMinuteCounterexample`); `StreamedBarsCoarsen` says exactly when it is.
- The controller's history cache is keyed by timeframe only. A second symbol is answered with the first one's bars
  (`TwoSymbolCounterexample`); `ReadIsLiveIff` says exactly when an answer is right, and reads of one symbol always are.
- The continuity check drops files whose last bound is 0 and so can miss a step (`ZeroBoundCounterexample`);
  `ArchiveReportsExactly` and `PlannedArchiveReports` say exactly what it reports.
- The V3 rewriter writes a negative shifted time that its own scanner no longer recognises
  (`NegativeTimeCounterexample`, on a file that is scanned, planned and rewritten); re-scanning gives the repaired series
  exactly when no repaired time is negative (`RepairedFileRescans`).
- Planning decides a whole anchor group by its smallest lag, so a later segment of the group can keep more than the plausible
  window, and the tool rejects the file it has just repaired (`RejectedRepairCounterexample`); `RepairPassesExactly` says
  when a repair passes.
- The V3 tool looks for its marker in the first 4000 characters only, so a repaired file with more in front of it is taken
  for an unrepaired one (`FarMarkerCounterexample`); `SecondRunSkipsExactly` gives the limit.
- File selection assumes disjoint ranges. A long file that covers the window's start hides a shorter one that ended
  later (`OverlapCounterexample`); `SelectionAnswersExactly` gives the condition on the index and the overlapping files.
- The reader trims by collection time, the provider looks up by availability. A snapshot collected before the window but
  available only inside it makes the trim drop the one that should answer until then (`LateGateCounterexample`);
  `ResolvedAnswersExactly` gives the condition for one moment, `WindowAnswersExactly` for a whole window, and for archives
  without the producer's stamps nothing is lost (`PlainWindowAnswersExactly`).
- The provider drops redelivered snapshots, but compares a batch only with the series: an unseen snapshot that a batch holds
  twice is kept twice (`DuplicateCounterexample`); `NoDuplicatesExactly` is the condition.
- The provider's identity marks rows without a number by an epoch of -1, so that a numbered row in that epoch hides an
  unnumbered one (`MarkerCounterexample`); `IdentityExactly` says when two rows are taken for one.
- Parallel execution does not pass the run group on, so its logs land outside the group's directory; `GroupReachesLogsExactly`
  says when that shows. The results never depend on the group, and differ between the two executions only where a future
  fails in the pool (`ParallelIsSequentialExactly`, `AgreeUnlessLost`).

## Model

| member | source | states |
|---|---|---|
| `Calendar.BarStartIsEpochFloor` | python/framework/bars/bar_renderer.py:90-100 | the start computed from hour and minute fields is the floor to a multiple of the width since the epoch, and its bar contains the moment |
| `Calendar.BinLabelIsBarStart` | python/data_management/importers/vectorized_bar_renderer.py:173-188 | bins counted from the midnight of any day carry the streaming renderer's bar starts |
| `Calendar.BarStartMonotone` | python/framework/bars/bar_renderer.py:90-100 | bar starts never run backwards with time |
| `Calendar.BarStartNests` | python/framework/bars/bar_renderer.py:90-100 | if one width divides another, the wide bar of a moment is the wide bar of its narrow bar's start |
| `Calendar.SameBarExactly` | python/framework/bars/bar_renderer.py:90-100 | two moments share a bar if and only if they fall on one day and the hands of the clock stand in one division of it |
| `Bars.StreamCandleShape` | python/framework/types/market_types/market_data_types.py:71-83 | what any sequence of updates leaves: prices from the first non-zero mid on, close, volume and count of all ticks |
| `Bars.StreamCandleIsBatchCandle` | python/framework/types/market_types/market_data_types.py:71-83 | tick-by-tick and batch aggregation agree if and only if the bar does not open at zero and move away |
| `Bars.StreamCandleIsQuoted` | python/framework/types/market_types/market_data_types.py:30-83 | a streamed bar opens and closes midway between bid and ask of its first priced and last tick, and its low and high are the lowest and highest such middle |
| `Bars.BatchCandleIsQuoted` | python/data_management/importers/vectorized_bar_renderer.py:133-194 | the same for the batch row, from the first tick on |
| `Bars.CandleVolume` | python/framework/types/market_types/market_data_types.py:71-83 | one more tick anywhere in a bar raises its volume by its own and its count by one |
| `Bars.ZeroOpenCounterexample` | python/framework/types/market_types/market_data_types.py:73-76 | two concrete ticks on which the two aggregations differ |
| `Periods.ResampleIsRuns` | python/data_management/importers/vectorized_bar_renderer.py:182-194 | over clocks that agree, the non-empty bins of a resample are the maximal runs of ticks with one start |
| `Periods.ResampleAllIsRuns` | python/data_management/importers/vectorized_bar_renderer.py:155-207 | for every timeframe and time-sorted frame the batch periods are the streaming periods; none is split and gaps invent none |
| `BarStream.UpdateLeavesOpen` | python/framework/bars/bar_renderer.py:183-189 | no update ever marks the current bar complete |
| `BarStream.RunProduces` | python/framework/bars/bar_renderer.py:123-214 | after every run the history is the newest `cap` bars of the warmup followed by one complete bar per finished period, the current bar that of the last period, not complete |
| `BarStream.StreamRefinesBatch` | python/data_management/importers/vectorized_bar_renderer.py:155-207 | for time-sorted ticks, every timeframe, warmup and history bound, the streamed bars are those of the batch periods, and their candles are the batch rows if and only if no period opens at zero and moves |
| `RollUp.RowsCoarsen` | python/data_management/importers/vectorized_bar_renderer.py:182-194 | rendering with a coarser clock is merging neighbouring rows of the finer one |
| `RollUp.WideCloseImpliesNarrowClose` | python/framework/bars/bar_renderer.py:147-180 | on every tick of every run a close of the wide timeframe comes with a close of the narrow one |
| `RollUp.BatchRowsCoarsen` | python/data_management/importers/vectorized_bar_renderer.py:182-207 | the batch rows of the wide timeframe are the ordered merges of the narrow rows, for all prices |
| `StreamRollUp.WideBarMergesExactly` | python/framework/bars/bar_renderer.py:147-191 | one streamed wide bar is the ordered merge of its streamed narrow bars if and only if the first narrow bar has a price or none has, and no later one skips a zero that the counted prices do not span |
| `StreamRollUp.RunsAreClusters` | python/framework/bars/bar_renderer.py:90-100 | the wide periods of any ticks are the clusters of their narrow periods |
| `StreamRollUp.StreamedBarsCoarsen` | python/framework/bars/bar_renderer.py:147-191 | for every tick sequence and dividing pair of timeframes, all streamed wide bars are the merges if and only if that condition holds in each; starts, closes, volumes and counts agree always |
| `StreamRollUp.ZeroMinuteCounterexample` | python/framework/types/market_types/market_data_types.py:73-76 | two ticks, at 0 in the first minute and at 5 in the second: their streamed five-minute bars are not the merges of their streamed minutes |
| `BarRenderers.BarRenderer.GetBarStartTime` | python/framework/bars/bar_renderer.py:70-112 | whatever was cached or evicted, the answer is the uncached bar start; the cache stays correct and within 10000 entries |
| `BarRenderers.BarRenderer.ArchiveCompletedBar` | python/framework/bars/bar_renderer.py:196-214 | the bar is appended to its slot's bounded history and nothing else changes |
| `BarRenderers.BarRenderer.RollOver` | python/framework/bars/bar_renderer.py:152-181 | a bar of another period is archived as complete and replaced by a fresh one |
| `BarRenderers.BarRenderer.UpdateTimeframe` | python/framework/bars/bar_renderer.py:147-191 | one timeframe's series takes exactly one step, all other series stay |
| `BarRenderers.BarRenderer.UpdateCurrentBars` | python/framework/bars/bar_renderer.py:123-194 | one tick takes every required series of its symbol one step, leaves all others alone, and reports bars and closes of each; every reported bar closes midway between the tick's bid and ask |
| `BarRenderers.BarRenderer.InitializeHistoricalBars` | python/framework/bars/bar_renderer.py:237-267 | warmup bars are appended to one bounded history, and to nothing else |
| `BarRenderers.BarRenderer.GetBarHistory` | python/framework/bars/bar_renderer.py:216-231 | the live history of the slot, empty when there is none |
| `BarControllers.HistoryChangeInvalidates` | python/framework/bars/bar_rendering_controller.py:94-101 | whatever changes a history invalidates that timeframe's cache entry |
| `BarControllers.CacheCoherent` | python/framework/bars/bar_rendering_controller.py:168-185 | in every interleaving over any symbols a valid cache entry is the live history of the symbol whose read filled it |
| `BarControllers.ReadsAreLive` | python/framework/bars/bar_rendering_controller.py:160-185 | in every session that reads one symbol, each read answers with that symbol's live histories for all required timeframes |
| `BarControllers.ReadIsLiveIff` | python/framework/bars/bar_rendering_controller.py:168-185 | in every session a read is right for a timeframe if and only if it misses or the filling symbol has the same history |
| `BarControllers.TwoSymbolCounterexample` | python/framework/bars/bar_rendering_controller.py:175-183 | a session of two symbols in which a read returns the other symbol's bars |
| `BarControllers.ConsumeReportsClosesSince` | python/framework/bars/bar_rendering_controller.py:105-118 | what a consume returns is exactly the timeframes closed since the previous consume |
| `BarControllers.ConsumeExactly` | python/framework/bars/bar_rendering_controller.py:78-118 | a consume hands out a timeframe if and only if since the consume before it some symbol's tick fell into another bar than the symbol's tick before |
| `BarControllers.InjectTwice` | python/framework/bars/bar_rendering_controller.py:187-232 | warmup bars injected later stand behind earlier ones |
| `BarControllers.SeriesIsRun` | python/framework/bars/bar_rendering_controller.py:78-103 | in every session a required series is the run over its own symbol's ticks |
| `BarControllers.ReadIsBatchHistory` | python/framework/bars/bar_rendering_controller.py:187-232 | inject any warmup, then interleave ticks, reads and consumes in any way: at every point and for every required timeframe a read gives the newest bars of warmup followed by the finished batch periods |
| `BarControllers.BarRenderingController.ProcessTick` | python/framework/bars/bar_rendering_controller.py:78-103 | the object steps like the session machine and returns the current bars of the required timeframes |
| `BarControllers.BarRenderingController.ConsumeBarRenderState` | python/framework/bars/bar_rendering_controller.py:105-118 | returns the pending closes and forgets them |
| `BarControllers.BarRenderingController.GetAllBarHistory` | python/framework/bars/bar_rendering_controller.py:160-185 | answers as the session machine does and fills the cache like it |
| `BarControllers.BarRenderingController.InjectWarmupBars` | python/framework/bars/bar_rendering_controller.py:187-232 | steps like the session machine on an injection |
| `AnchorRepair.PlanLandsInWindow` | python/experiments/restore_collected_msc_v3.py:175-197 | for every lag, the shifted lag lies in the plausible window and deciding again is a no-op |
| `AnchorRepair.HourSnapExactly` | python/experiments/restore_collected_msc_v3.py:185-197 | the hour branch is taken if and only if the lag is outside the window, under a day and explained by some whole number of hours, which is unique |
| `AnchorRepair.LagIsDecided` | python/experiments/restore_collected_msc_v3.py:175-197 | five minutes and a day as the limits of the three branches, and the shift of each |
| `AnchorRepair.HoursAreTakenOff` | python/experiments/restore_collected_msc_v3.py:185-195 | a lag within five minutes of some whole hours, and under a day, loses exactly these hours |
| `AnchorRepair.GroupOpensExactly` | python/experiments/restore_collected_msc_v3.py:289-294 | a segment joins the group before it if and only if its lag lies within a minute of the lag that opened the group |
| `AnchorRepair.GroupDistancesUnchanged` | python/experiments/restore_collected_msc_v3.py:281-317 | all segments of a group get one decision, so distances inside it are the source's |
| `AnchorRepair.SeamNeverStepsBack` | python/experiments/restore_collected_msc_v3.py:296-313 | arrival never steps back between groups |
| `AnchorRepair.StepsBackExactly` | python/experiments/restore_collected_msc_v3.py:281-317 | after planning, neighbouring segments step back if and only if they are in one group and the source stepped back |
| `AnchorRepair.LiftIsLeast` | python/experiments/restore_collected_msc_v3.py:301-313 | no smaller shift at or above the group's own decision keeps order at the seam; the seam flag is set exactly when the lift changed the shift |
| `AnchorRepair.SeamMeets` | python/experiments/restore_collected_msc_v3.py:301-313 | a lifted group begins exactly where the one before it ends |
| `AnchorRepair.GroupIsDecided` | python/experiments/restore_collected_msc_v3.py:296-313 | an unlifted group is decided by its fastest segment, which is left alone, moved by whole hours into the window, or brought to zero |
| `AnchorRepair.MinFilterLeavesNoLag` | python/experiments/restore_collected_msc_v3.py:296-317 | where the lag is removed and no seam interferes, no segment of the group keeps a negative lag and one keeps none |
| `AnchorRepair.ResidualBounds` | python/experiments/restore_collected_msc_v3.py:289-299 | before lifting, every segment's residual lag lies in [-W, W + 2T] |
| `AnchorRepair.ReplanningOneGroupIsNoop` | python/experiments/restore_collected_msc_v3.py:281-317 | planning a repaired chain of one group again leaves every segment alone |
| `AnchorPlanning.SplitCovers` | python/framework/validators/tick_import_validator.py:44-68 | the spans cut a non-empty series into consecutive non-empty pieces |
| `AnchorPlanning.SplitAtBreaks` | python/framework/validators/tick_import_validator.py:64-68 | the cuts are exactly the backward steps and the forward steps over seven days |
| `AnchorPlanning.RepairedTicks` | python/experiments/restore_collected_msc_v3.py:281-317 | tick by tick in a repaired file: order is kept inside a segment, and between segments time steps back if and only if the source did inside one group |
| `AnchorPlanning.FindGroups` | python/experiments/restore_collected_msc_v3.py:289-294 | the loop finds the head of every group, each group ending where the next begins |
| `AnchorPlanning.SmallestLag` | python/experiments/restore_collected_msc_v3.py:296-299 | the minimum lag of a group |
| `AnchorPlanning.PlanGroup` | python/experiments/restore_collected_msc_v3.py:296-313 | one group's segments are filled in with the specified decision, earlier ones stay, and the group's end is handed on |
| `AnchorPlanning.PlanChain` | python/experiments/restore_collected_msc_v3.py:284-313 | after the loop every segment object of the chain carries the specified decision |
| `ArchiveContinuity.PlanSymbol` | python/experiments/restore_collected_msc_v3.py:284-317 | the segments of one symbol's files are decided in place and every file's bounds are the repaired bounds of its share of the chain |
| `ArchiveContinuity.PlannedLeavesNoLag` | python/experiments/restore_collected_msc_v3.py:284-317 | the same for the segment objects of planned files |
| `Archive.GroupHas` | python/experiments/restore_collected_msc_v3.py:274-282 | a group holds exactly the files of its broker and symbol that are not skipped |
| `Archive.SortInOrder` | python/experiments/restore_collected_msc_v3.py:281-282 | a group is in the order of its files' first events |
| `Archive.PlanShifts` | python/experiments/restore_collected_msc_v3.py:255-317 | over any list of plans, every group ends up planned as a symbol of its own; no group disturbs another |
| `ArchiveCheck.NonZeroSort` | python/experiments/restore_collected_msc_v3.py:450-458 | leaving files out before the stable sort is leaving them out after it |
| `ArchiveCheck.GroupReportsExactly` | python/experiments/restore_collected_msc_v3.py:456-466 | in a group, a step is reported if and only if it lies between two files with a last time, only files without one between them, and arrival steps back by it |
| `ArchiveCheck.ArchiveReportsExactly` | python/experiments/restore_collected_msc_v3.py:449-468 | the same for every key of the archive |
| `ArchiveCheck.PlannedArchiveReports` | python/experiments/restore_collected_msc_v3.py:449-468 | after planning, the boundary between two neighbouring files is reported if and only if they meet inside one anchor group, the source stepped back there, and neither repaired last time is zero |
| `ArchiveCheck.ZeroBoundCounterexample` | python/experiments/restore_collected_msc_v3.py:450-454 | two planned files that are a group in event order: the step back between them is not reported because the second ends at zero |
| `ArchiveCheck.CheckArchiveContinuity` | python/experiments/restore_collected_msc_v3.py:434-468 | the grouping, sorting and comparing loops report exactly the steps of all keys |
| `RepairedFile.OutcomeExactly` | python/experiments/restore_collected_msc_v3.py:346-394 | a plan is applied if and only if it has one shift per time and the file has a version line; then every line is the old or shifted one and one marker block is added |
| `RepairedFile.RewrittenExactly` | python/experiments/restore_collected_msc_v3.py:363-382 | the rewritten file line by line: only leading collection times change, the n-th by the n-th shift, and lines behind the version line move behind the block |
| `RepairedFile.BlockExactly` | python/experiments/restore_collected_msc_v3.py:367-373 | the marker block stands right below the first version line, with that line's indent |
| `RepairedFile.ScanIgnoresMarker` | python/experiments/restore_collected_msc_v3.py:366-382 | inserting a block of lines without a collection time leaves the scanned series |
| `RepairedFile.ScanShifted` | python/experiments/restore_collected_msc_v3.py:375-380 | re-scanning the shifted lines sees exactly the shifted times that are not negative, in order |
| `RepairedFile.RescanIsShifted` | python/experiments/restore_collected_msc_v3.py:346-394 | the re-scanned series of a rewritten file is every time plus its shift if and only if no shifted time is negative |
| `RepairedFile.ShiftOfHolder` | python/experiments/restore_collected_msc_v3.py:356-358 | every tick gets the shift of the segment that holds it |
| `TickText.ParseDec` | python/experiments/restore_collected_msc_v3.py:375-378 | a number printed in decimal digits reads back as itself |
| `TickText.ParsePositional` | python/experiments/restore_collected_msc_v3.py:60-66 | the digits are read in positional notation, base ten |
| `TickText.SignInFront` | python/experiments/restore_collected_msc_v3.py:376-380 | a shifted time is written in decimal, a negative one with its sign in front |
| `TickText.SkipsExactly` | python/experiments/restore_collected_msc_v3.py:60-67 | the six characters that the patterns skip as whitespace |
| `RepairedText.ParseScans` | python/experiments/restore_collected_msc_v3.py:60-67 | what the scanner finds in a line's characters is the leading time the rewriter sees followed by what is embedded in the rest |
| `RepairedText.ParseShifted` | python/experiments/restore_collected_msc_v3.py:375-380 | a rewritten line, read again, is the shifted line; with a negative number it is an ordinary line without a leading time |
| `RepairedText.MarkerIsSilent` | python/experiments/restore_collected_msc_v3.py:320-343 | for every whitespace indent, time, branch and list of shifts, none of the eight marker lines holds a collection time, begins like one or looks like a version line |
| `RepairedText.MarkerOfOne` | python/experiments/restore_collected_msc_v3.py:318-342 | the eight marker lines of a file with one segment, as they are written |
| `RepairedText.KeysAsWritten` | python/experiments/restore_collected_msc_v3.py:60-67 | the three keys the patterns look for |
| `RepairRun.BranchExactly` | python/experiments/restore_collected_msc_v3.py:98-112 | a file is named after the strongest branch of its segments |
| `RepairedText.RewrittenTextRescans` | python/experiments/restore_collected_msc_v3.py:346-394 | text in, text out: the file written scans to every time plus its shift if and only if no shifted time is negative |
| `RepairRun.SmallestDiffIs` | python/experiments/restore_collected_msc_v3.py:245-250 | the lag of a segment is the smallest distance of its ticks from their events |
| `RepairRun.TickFile.ApplyPlan` | python/experiments/restore_collected_msc_v3.py:346-394 | the file becomes the specified texts, or stays untouched with the reason |
| `RepairRun.PlannedFileIsDecided` | python/experiments/restore_collected_msc_v3.py:245-252 | a scanned file stands in its symbol's chain at its share, and after planning its segments carry the decisions of that place |
| `RepairRun.RepairedFileRescans` | python/experiments/restore_collected_msc_v3.py:346-394 | scan, split, decide, apply, scan again: every time comes back plus the shift of the segment that holds it if and only if none is negative |
| `RepairRun.RepairedSteps` | python/experiments/restore_collected_msc_v3.py:281-317 | in the repaired series time steps back between two ticks if and only if the source did, between two segments of one anchor group |
| `RepairRun.NegativeTimeCounterexample` | python/experiments/restore_collected_msc_v3.py:60-67 | a three-line file of a broker three hours ahead is scanned, planned three hours back and rewritten; its time becomes negative, so the rewritten file scans to nothing |
| `RepairVerification.VerifyFile` | python/experiments/restore_collected_msc_v3.py:397-431 | accepts if and only if time never steps back and every segment's smallest lag is within the window; otherwise it names the number of steps or the worst lag |
| `RepairVerification.StepCountExactly` | python/experiments/restore_collected_msc_v3.py:416-418 | the reported number is the number of steps back |
| `RepairVerification.RepairPassesExactly` | python/experiments/restore_collected_msc_v3.py:397-431 | a repaired file of the archive passes if and only if no two neighbouring segments of one anchor group step back in the source and every stretch of the repaired series holds a segment whose lag after its shift is at most the window |
| `RepairVerification.RejectedRepairCounterexample` | python/experiments/restore_collected_msc_v3.py:281-317 | lags of 65 and 66 minutes in one anchor group, more than seven days apart: the plan leaves the second at six minutes and the tool rejects its own repair |
| `RepairGuard.SecondRunSkipsExactly` | python/experiments/restore_collected_msc_v3.py:122-149 | a second run skips a repaired file if and only if everything up to the end of the marker's first name lies within the first 4000 characters |
| `RepairGuard.FarMarkerCounterexample` | python/experiments/restore_collected_msc_v3.py:132-148 | a file that begins with 4000 spaces is repaired, and the repair is not recognised |
| `Backfill.RaisedIncreases` | python/experiments/restore_collected_msc.py:170-187 | the pass yields a strictly increasing series at or above its input |
| `Backfill.RaisedIs` | python/experiments/restore_collected_msc.py:170-187 | position i holds the maximum over j <= i of in[j] + i - j |
| `Backfill.RaisedIsLeast` | python/experiments/restore_collected_msc.py:170-187 | it is the pointwise least strictly increasing series at or above the input |
| `Backfill.NoCorrectionExactly` | python/experiments/restore_collected_msc.py:170-187 | nothing is corrected if and only if the input increases strictly, and a second pass changes nothing |
| `Backfill.ChangedExactly` | python/experiments/restore_collected_msc.py:170-189 | the count of the pass is the number of positions it changed |
| `Backfill.EnsureGlobalMonotonicity` | python/experiments/restore_collected_msc.py:170-187 | the in-place loop computes that series and counts the changed positions |
| `Backfill.StampInSecond` | python/experiments/restore_collected_msc.py:106-135 | every synthesized stamp lies within its tick's own second |
| `Backfill.RunIsSpread` | python/experiments/restore_collected_msc.py:106-135 | the ticks of one second share it evenly: the first at 0, the last at 999 ms, each at its share in whole milliseconds |
| `Backfill.InterpolationSufficesExactly` | python/experiments/restore_collected_msc.py:106-135 | the synthesized stamps increase strictly, and the later pass corrects nothing, if and only if seconds never run backwards and no run exceeds 1000 ticks |
| `Backfill.SynthesizeMt5` | python/experiments/restore_collected_msc.py:106-135 | the nested run loops write the specified stamps |
| `BackfillFiles.SynthesizeKraken` | python/experiments/restore_collected_msc.py:138-167 | the nested loops write, for every tick, its block's base plus its position in the block |
| `BackfillFiles.KrakenExactly` | python/experiments/restore_collected_msc.py:138-167 | row by row: a millisecond behind the row before it if it has the same time and that row is no ticker row of its own, its own time otherwise |
| `BackfillFiles.KrakenSufficesExactly` | python/experiments/restore_collected_msc.py:138-200 | the Kraken stamps increase strictly, and the later pass corrects nothing, if and only if every block begins at least as many milliseconds after the one before it as that one has rows |
| `BackfillFiles.GatherOfScatter` | python/experiments/restore_collected_msc.py:282-317 | gathering after scattering gives the rows back |
| `BackfillFiles.SelectIsShare` | python/experiments/restore_collected_msc.py:307-317 | collecting rows by file of origin gives each file its own share, in order |
| `BackfillFiles.ProcessedStreamIncreases` | python/experiments/restore_collected_msc.py:217-319 | after a run the stamps increase strictly over all processed files together; row counts and other fields stay |
| `BackfillFiles.StampsAreLeast` | python/experiments/restore_collected_msc.py:288-305 | the stamps of a processed stream are the least strictly increasing ones at or above what is synthesized for each tick |
| `BackfillFiles.ForcedStreamIncreases` | python/experiments/restore_collected_msc.py:273-305 | with force the stamps increase strictly over all rows of all files |
| `BackfillFiles.ProcessedExactly` | python/experiments/restore_collected_msc.py:273-317 | without force a file whose first tick is stamped stays, and every tick of any other file gets a stamp |
| `BackfillFiles.CleanedExactly` | python/experiments/restore_collected_msc.py:265-271 | the legacy field goes from every row of a file whose first row has it, and from no other file |
| `BackfillFiles.SecondRunChangesNothing` | python/experiments/restore_collected_msc.py:273-280 | without force, a second run over the files of the first changes nothing |
| `BackfillFiles.ProcessSymbolFiles` | python/experiments/restore_collected_msc.py:217-319 | a dry run reports the corrections and leaves the files; otherwise the legacy field is dropped and the files that are not skipped are stamped as one stream and written back |
| `ClippingMonitors.TallyOfReport` | python/framework/autotrader/live_clipping_monitor.py:109-149 | a report determines its interval's counters and sums again |
| `ClippingMonitors.ApplyConserves` | python/framework/autotrader/live_clipping_monitor.py:60-149 | every operation keeps session == all emitted reports + pending interval, sums as sums and maxima as maxima |
| `ClippingMonitors.SessionIsReportsPlusInterval` | python/framework/autotrader/live_clipping_monitor.py:60-149 | the same over every sequence of operations |
| `ClippingMonitors.SessionMeasures` | python/framework/autotrader/live_clipping_monitor.py:60-107 | over every sequence of calls the session counts the timed and the overtaken ticks, sums them to the nanosecond, and keeps the largest of each |
| `ClippingMonitors.ReportsExactly` | python/framework/autotrader/live_clipping_monitor.py:109-149 | a poll reports if and only if an interval has passed since the last poll of which that is true and a tick was timed since, and it counts those ticks |
| `ClippingMonitors.ReportTells` | python/framework/autotrader/live_clipping_monitor.py:124-136 | averages times counts are the sums of the interval, and maxima are its own |
| `ClippingMonitors.LiveClippingMonitor.RecordTick` | python/framework/autotrader/live_clipping_monitor.py:60-95 | steps the paired counters as specified |
| `ClippingMonitors.LiveClippingMonitor.RecordQueueDepth` | python/framework/autotrader/live_clipping_monitor.py:97-107 | steps the paired depth maxima as specified |
| `ClippingMonitors.LiveClippingMonitor.GetPeriodicReport` | python/framework/autotrader/live_clipping_monitor.py:109-149 | emits the due report and resets exactly the interval |
| `ClippingMonitors.LiveClippingMonitor.GetSessionSummary` | python/framework/autotrader/live_clipping_monitor.py:171-197 | the ratio is a fraction, averages times counts are the session sums, maxima are the session's |
| `MarketData.EpisodeIsUniform` | python/framework/autotrader/autotrader_tick_loop.py:647-677 | within an outage the start never changes and only the first beat fires the hook |
| `MarketData.TickBetweenHooks` | python/framework/autotrader/autotrader_tick_loop.py:647-690 | a tick lies between any two firings |
| `MarketData.OneHookPerEpisode` | python/framework/autotrader/autotrader_tick_loop.py:647-690 | firings equal recoveries plus one for an outage still open |
| `MarketData.FollowRecords` | python/framework/process/market_data_episode_tracker.py:66-196 | the observer's record stays exactly the outages of the session, from last fresh tick to recovering tick |
| `TickLoops.CountersBalance` | python/framework/autotrader/autotrader_tick_loop.py:389-422 | in every run the monitor's books balance, clipped plus pending clipped is the monitor's total, and processed exceeds the monitor's ticks by 1 if and only if a session end on the tick path broke the loop |
| `TickLoops.StalenessAgrees` | python/framework/autotrader/autotrader_tick_loop.py:625-690 | after every event of every run, executor status, loop flag, signals and observer agree |
| `TickLoops.OneHookPerOutage` | python/framework/autotrader/autotrader_tick_loop.py:647-690 | in every run the hook has fired once per ended outage and once for an open one |
| `TickLoops.TickBetweenStaleHooks` | python/framework/autotrader/autotrader_tick_loop.py:330-335 | in every run a processed tick lies between any two firings |
| `TickLoops.OutageStartIsConstant` | python/framework/autotrader/autotrader_tick_loop.py:647-677 | in every run all beats of one outage hand on the same start |
| `TickLoops.BlockedDecisionsAreFlat` | python/framework/autotrader/autotrader_tick_loop.py:379-383 | in every run each decision executed while the breaker is set is FLAT, on ticks and ghost passes; rejections are numbered without gaps and bounded |
| `TickLoops.BreakerFollowsLastTick` | python/framework/autotrader/autotrader_tick_loop.py:754-805 | after a processed tick the breaker is set if and only if that tick's value breaks an enabled threshold; other events leave it alone |
| `TickLoops.AutotraderTickLoop.EvaluateMarketDataStaleness` | python/framework/autotrader/autotrader_tick_loop.py:625-677 | steps flag, status and observer as specified |
| `TickLoops.AutotraderTickLoop.CheckSafety` | python/framework/autotrader/autotrader_tick_loop.py:754-805 | sets or clears the breaker as specified |
| `TickLoops.AutotraderTickLoop.RecordRejection` | python/framework/autotrader/autotrader_tick_loop.py:528-546 | appends to the bounded rejection list as specified |
| `TickLoops.AutotraderTickLoop.RunDecisionHeartbeat` | python/framework/autotrader/autotrader_tick_loop.py:567-589 | one ghost pass, guarded by the breaker |
| `TickLoops.AutotraderTickLoop.Run` | python/framework/autotrader/autotrader_tick_loop.py:225-491 | the loop over events ends in the state of the session machine and returns its counts |
| `TickSessions.RunningExactly` | python/framework/autotrader/autotrader_tick_loop.py:225-491 | the loop is running if and only if no event so far ends it |
| `TickSessions.HandledExactly` | python/framework/autotrader/autotrader_tick_loop.py:225-491 | events behind the first one that ends the loop are not handled |
| `TickSessions.DecidingHas` | python/framework/autotrader/autotrader_tick_loop.py:361-387 | no tick and no ghost decision is left out of the list of decisions |
| `TickSessions.DecisionsExactly` | python/framework/autotrader/autotrader_tick_loop.py:361-387 | over every run the executions are, in order, one per tick and ghost decision, each with its own action, or FLAT if and only if checks are enabled and the last tick so far broke a threshold |
| `TickSessions.RejectionsExactly` | python/framework/autotrader/autotrader_tick_loop.py:528-546 | over every run the panel counts the rejected orders and lists the newest five with reason, executed side and time |
| `TickSessions.RejectingHas` | python/framework/autotrader/autotrader_tick_loop.py:528-546 | no rejected order is left out of the list of rejections |
| `TickSessions.GhostsExactly` | python/framework/autotrader/autotrader_tick_loop.py:567-589 | ghost passes and ghost actions are the ghost decisions and those that came back with an order |
| `TickSessions.BreakerShows` | python/framework/autotrader/autotrader_tick_loop.py:754-805 | after a checked tick the panel shows its value and its loss in percent of the base, never below zero |
| `TickSessions.MonitorSeesTicks` | python/framework/autotrader/autotrader_tick_loop.py:313-422 | over every run the monitor was told, for each measured tick, its processing time and the gap to the last stamp, the queue depth, and was polled |
| `TickSessions.StaleExactly` | python/framework/autotrader/autotrader_tick_loop.py:625-677 | an idle pulse signals an outage if and only if it comes later after the last tick than allowed, with the time since, the reconnects, and the hook if none is outstanding |
| `TickSessions.RecoveryExactly` | python/framework/autotrader/autotrader_tick_loop.py:330-335 | a tick recovers if and only if an outage is outstanding, and makes the status fresh |
| `SignalSelection.GetRelevantFiles` | python/data_management/index/signal_index_manager.py:182-246 | the loop returns the specified selection, and nothing for an unknown source or symbol |
| `SignalSelection.SelectionAnswersExactly` | python/data_management/index/signal_index_manager.py:226-246 | the selection resolves every moment of the window like the whole archive if and only if, with no file covering the start, the last ended file in index order ended last, and otherwise every ended file ended at or before a snapshot that an overlapping file holds up to the start |
| `SignalSelection.DisjointSelectionAnswers` | python/data_management/index/signal_index_manager.py:226-246 | for disjoint ranges in order this always holds: the latest snapshot at or before any moment is the archive's |
| `SignalSelection.SelectionInOrder` | python/data_management/index/signal_index_manager.py:226-246 | the selection is chronological and holds at most one file that does not overlap the window, its first |
| `SignalSelection.OverlapCounterexample` | python/data_management/index/signal_index_manager.py:226-246 | two files for which the selection answers 0 where the archive answers 90 |
| `SignalReader.MergedRowWins` | python/framework/signal_data/signal_parquet_reader.py:82-94 | every row of the merged series is the last of its stamp, except that the symbol's own rows are never replaced by the envelope's |
| `SignalReader.MergedHolds` | python/framework/signal_data/signal_parquet_reader.py:82-94 | the stamps of the merged series are those of the files |
| `SignalReader.TrimSeries` | python/framework/signal_data/signal_parquet_reader.py:124-133 | the two loops keep what lies up to the window's end, from the last row up to its start |
| `SignalReader.ResolvedIsSlice` | python/framework/signal_data/signal_parquet_reader.py:68-133 | for disjoint files, selecting, merging and trimming gives exactly the trimmed series of the whole archive |
| `SignalProvider.GateOpensExactly` | python/framework/signal_data/signal_data_provider.py:96-104 | a snapshot's clamped key has passed if and only if no key up to it is later, so none becomes visible before one that precedes it |
| `SignalProvider.OpenIs` | python/framework/signal_data/signal_data_provider.py:107-119 | the bisection stops behind the longest front part of the series whose keys have all passed |
| `SignalProvider.AnswerExactly` | python/framework/signal_data/signal_data_provider.py:107-127 | a lookup finds the last row of the longest front part whose rows all count from the moment or earlier |
| `SignalProvider.OrderedExactly` | python/framework/types/signal_data_types.py:212-227 | the series is a rearrangement of the rows: numbered ones by epoch and number, unnumbered ones by their moments and in front |
| `SignalProvider.OrderedTwice` | python/framework/signal_data/signal_data_provider.py:66-66 | sorting the sorted series together with new rows is sorting all rows once |
| `SignalProvider.ExtendIsRebuild` | python/framework/signal_data/signal_data_provider.py:48-67 | after a batch of the live stream every lookup is that of a provider built from all rows at once |
| `SignalProvider.RedeliveryChangesNothing` | python/framework/signal_data/signal_data_provider.py:48-81 | delivering a batch again changes nothing |
| `SignalProvider.IdentityExactly` | python/framework/signal_data/signal_data_provider.py:69-81 | two rows are taken for one if and only if they have one place in the stream, or neither has and they count from one moment, or an epoch -1 is mistaken for the marker |
| `SignalProvider.ExtendedExactly` | python/framework/signal_data/signal_data_provider.py:48-67 | after a batch every row stands as often as before, plus as often as the batch delivered it if it was not known |
| `SignalProvider.NewSnapshotIsTaken` | python/framework/signal_data/signal_data_provider.py:63-67 | a snapshot whose place in the stream is new is taken in |
| `SignalProvider.MarkerCounterexample` | python/framework/signal_data/signal_data_provider.py:79-81 | an unnumbered row is dropped as a redelivery of a numbered one in epoch -1 |
| `SignalProvider.NoDuplicatesExactly` | python/framework/signal_data/signal_data_provider.py:63-66 | a batch leaves no snapshot twice in the series if and only if it does not hold an unseen one twice itself |
| `SignalProvider.DuplicateCounterexample` | python/framework/signal_data/signal_data_provider.py:63-66 | one unseen snapshot delivered twice in one batch stands twice in the series |
| `SignalProvider.SignalDataProvider.Reindex` | python/framework/signal_data/signal_data_provider.py:83-105 | the series is in the producer's order with the clamped gates and the identities of its rows |
| `SignalProvider.SignalDataProvider.Extend` | python/framework/signal_data/signal_data_provider.py:48-67 | the unseen rows of the batch are merged in order, and counted |
| `SignalProvider.SignalDataProvider.Nearest` | python/framework/signal_data/signal_data_provider.py:107-127 | the row whose gate opened last, none if none is open |
| `SignalLookup.PartAnswersExactly` | python/framework/signal_data/signal_data_provider.py:96-122 | a part of a series answers a moment like the whole if and only if the whole one's answer is in it and the next row kept behind it opens later |
| `SignalLookup.KeptOrdered` | python/framework/signal_data/signal_data_provider.py:96-96 | ordering the rows kept is keeping rows of the ordered series |
| `SignalLookup.ResolvedAnswersExactly` | python/framework/signal_data/signal_parquet_reader.py:68-133 | select, merge, trim, order and look up: for disjoint files a moment gets the archive's answer if and only if the row whose gate opened last in the archive was kept and the next kept row opens later |
| `SignalLookup.WindowAnswersExactly` | python/framework/signal_data/signal_parquet_reader.py:124-133 | with producer's order and collection order the same, every moment of the window gets the archive's answer if and only if the first row cut off behind opens after the window, and the first kept row is open at its start (or opens together with the archive, or after the window) |
| `SignalLookup.PlainWindowAnswersExactly` | python/framework/types/signal_data_types.py:181-191 | without the producer's stamps, for any files, every moment of the window gets the latest snapshot collected up to it if and only if the selection carries the past |
| `SignalLookup.LateGateCounterexample` | python/framework/signal_data/signal_parquet_reader.py:126-133 | two snapshots collected at 10 and 90, the second available at 200: for a window from 100 the trim leaves a tick at 100 without an answer that the archive has |
| `StreamIdentity.GapSumIsMissing` | python/data_management/importers/signal_importer.py:286-292 | for ascending numbers the summed gaps are the number of integers between first and last that never occur |
| `StreamIdentity.HolesAreMissing` | python/data_management/importers/signal_importer.py:286-292 | the same for each epoch of an accepted file |
| `StreamIdentity.CheckOrder` | python/data_management/importers/signal_importer.py:257-284 | accepts if and only if the pairs never go backwards, and groups the numbers per epoch |
| `StreamIdentity.ReportHoles` | python/data_management/importers/signal_importer.py:286-292 | one error per epoch with a positive gap sum, none twice |
| `StreamIdentity.OrderExactly` | python/data_management/importers/signal_importer.py:252-283 | the identified pairs never go back if and only if no snapshot lies in an earlier epoch, or at a smaller number of its epoch, than one before it |
| `StreamIdentity.MissingExactly` | python/data_management/importers/signal_importer.py:285-292 | a number is missing from an epoch if and only if a smaller and a larger one were received and it was not |
| `StreamIdentity.ValidateStreamIdentity` | python/data_management/importers/signal_importer.py:237-292 | refuses if and only if some snapshot goes back in epoch or number, for the reason named; the errors are the epochs with missing numbers and how many are missing |
| `EnvelopeStamp.LinesPartition` | python/experiments/restore_signal_envelope_field.py:75-78 | iterating a file yields its bytes, cut after each newline |
| `EnvelopeStamp.LinesEndAtFeeds` | python/experiments/restore_signal_envelope_field.py:78-78 | every line but the last ends with a line feed and holds none before |
| `EnvelopeStamp.TokenOfIsToken` | python/experiments/restore_signal_envelope_field.py:173-174 | the token built from a field and a value starts with the key, and is newline-free if and only if both are |
| `EnvelopeStamp.TokenOfLetters` | python/experiments/restore_signal_envelope_field.py:173-174 | the inserted text, byte by byte |
| `EnvelopeStamp.StampedFileLines` | python/experiments/restore_signal_envelope_field.py:71-93 | the stamped file, read back, has the same lines with the token inserted |
| `EnvelopeStamp.StampableExactly` | python/experiments/restore_signal_envelope_field.py:78-92 | a file can be stamped if and only if every line that lacks the key has an opening brace |
| `EnvelopeStamp.StampedExactly` | python/experiments/restore_signal_envelope_field.py:78-93 | blank lines and lines with the key stay, every other line carries the token right behind its first opening brace |
| `EnvelopeStamp.ReportExactly` | python/experiments/restore_signal_envelope_field.py:78-93 | the counts are the lines that are not blank, those that lacked the key, and those that had it |
| `EnvelopeStamp.StampTwice` | python/experiments/restore_signal_envelope_field.py:71-111 | stamping twice is stamping once; the second run stamps nothing and keeps every envelope |
| `EnvelopeStamp.StampedFileSize` | python/experiments/restore_signal_envelope_field.py:100-108 | the size grows by the token once per stamped envelope, so the size guard never fires |
| `EnvelopeStamp.LinesAreStampedOrKept` | python/experiments/restore_signal_envelope_field.py:78-93 | lines seen == envelopes stamped + envelopes kept |
| `EnvelopeStamp.RemovalRestores` | python/experiments/restore_signal_envelope_field.py:71-111 | cutting the token out of the stamped lines restores the original bytes |
| `EnvelopeStamp.BlindRemovalRestoresExactly` | python/experiments/restore_signal_envelope_field.py:71-111 | cutting it out of every line that carries it restores the bytes if and only if no line carried it before |
| `EnvelopeStamp.JsonlFile.Stamp` | python/experiments/restore_signal_envelope_field.py:58-111 | one pass with exact counts; a line with neither key nor brace raises and leaves the file, a dry run counts the same and writes nothing, the guard is never hit |
| `ScenarioExecution.SkipNamesFailures` | python/framework/batch/execution_coordinator.py:275-327 | a skipped scenario's result names its failed validations, and exactly the missing package when that is the reason |
| `ScenarioExecution.FailuresExactly` | python/framework/batch/execution_coordinator.py:275-327 | the failures are the invalid validations, each once, in their order |
| `ScenarioExecution.ResultExactly` | python/framework/process/process_main.py:98-172 | every slot by what happened to its scenario: success if and only if it may run, is not lost, its loop ends without an error and nothing was logged as one; what a failed run saved is kept and each failure names its error |
| `ScenarioExecution.RerunGivesSameVector` | python/framework/batch/execution_coordinator.py:307-318 | executing again over the marked scenarios gives the same vector and marks nothing more |
| `ScenarioExecution.ParallelIsSequentialExactly` | python/framework/batch/execution_coordinator.py:225-258 | both executions give the same vector if and only if every runnable scenario whose future fails in the pool would itself have ended in that very exception before it had a logger |
| `ScenarioExecution.AgreeUnlessLost` | python/framework/batch/execution_coordinator.py:225-258 | for runs that reach their logger, the vectors agree if and only if no runnable scenario's future fails in the pool |
| `ScenarioExecution.GroupReachesLogsExactly` | python/framework/logging/scenario_logger.py:78-84 | the logs of the two executions land in the same directories if and only if there is no run group or nothing runs |
| `ScenarioExecution.LogPaths` | python/framework/logging/scenario_logger.py:78-84 | the paths of a run in a group and of one without |
| `ScenarioExecution.ExecutionCoordinator.CreateValidationFailedResult` | python/framework/batch/execution_coordinator.py:275-327 | appends the extra error to one scenario and returns its failed result |
| `ScenarioExecution.ExecutionCoordinator.ExecuteSequential` | python/framework/batch/execution_coordinator.py:64-132 | always returns the whole vector; exactly the valid scenarios with a package run, each once and with the run group |
| `ScenarioExecution.ExecutionCoordinator.Submit` | python/framework/batch/execution_coordinator.py:179-221 | one future per runnable scenario, every other slot filled at once |
| `ScenarioExecution.ExecutionCoordinator.Collect` | python/framework/batch/execution_coordinator.py:225-258 | in whatever order futures complete, every slot holds its own scenario's result |
| `ScenarioExecution.ExecutionCoordinator.ExecuteParallel` | python/framework/batch/execution_coordinator.py:134-273 | for every completion order the whole vector is the specified one, that of sequential execution where no future fails; no invalid or package-less scenario runs |
| `ScenarioExecution.ExecutionCoordinator.Execute` | python/framework/batch/batch_orchestrator.py:396-409 | the choice between the two shows in no result unless the pool loses a run |

## Left out

- CLI, API, report rendering, logging, configuration loading, mount preparation and network access: input and output only.
- The tick and bar index managers: easier repeats of the signal index.
- Trade executor, portfolio, workers and decision logic: their answers are inputs of each event of the tick loop.
- Signal inbox, decision event channel, reconciliation, state persistence, display frames and log rotation of the tick loop: no modelled state depends on them.
- Floating-point rounding, NaN prices and pandas' own sorting: prices are reals and the batch theorems start from time-sorted ticks.
- `Bar` objects are values: that the current bar of the renderer and a bar already handed out are one object is not captured.
- `register_workers`: the required timeframes are a constructor argument.
- The order in which groups are planned and reported: groups share nothing, so any order gives the same plans and the same set of reports.
- A scanner match that spans two lines, and Unicode whitespace and digits: lines are scanned one by one with the ASCII classes.
- A newline added behind a rewritten last line that had none, and the abort on archives that mix repaired and unrepaired files.
- ProcessSymbolFiles: the corrections of two metadata timestamps are not modelled, because they touch no tick; timestamps come parsed.
- Wall-clock durations and injection labels of outage records, and the text of the breaker's reason.
- Building, scanning and storing the signal index: entry lists are taken in the start order that building leaves them in.
- ResolvedAnswersExactly: for disjoint files; overlapping files whose rows carry the producer's stamps are covered only up to the selection (SelectionAnswersExactly).
- WindowAnswersExactly: the producer's numbers rise with collection time; without that, ResolvedAnswersExactly decides each moment.
- Reading without a window, and the fields a lookup returns beside its row.
- RepairPassesExactly: on the scanned series; that rewriting leaves a file's event times alone is not shown on characters.
- Planning a repaired chain of several groups again: it may regroup, so only one group is claimed idempotent.
- Tokens that contain a newline, date bounds and folder totals of the stamping tool.
- Execution times, interrupts that are no exceptions, pickling and its size sample, and failures while a scenario is being submitted: a run is a function of its scenario, index and package.
- Run groups that are absolute paths: a group is appended to the log root.
- One scenario object listed twice: scenarios are array elements, so a validation error appended to one is not seen through another.
