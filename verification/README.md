# urateam: a verified model of its stateful core

urateam is a daemon that turns issues into pull requests by running agent stages, keeps cost and audit records of
what it did, and serves them on a dashboard. This project models eight of its components, in which either a fast form must agree with
a simple one or a state machine must keep something over all of its runs, and proves those properties in Dafny. Run
`dafny verify dfyconfig.toml` to check everything.

| files | component |
|---|---|
| `CostModel`, `CostGrouping`, `CostRollup`, `CostHistory`, `CostAnswers`, `CostAggregate`, `CostOrder`, `CostTheorems` | daily cost rollups, and dashboards answered from them, against live aggregation |
| `JsonScan`, `StreamWatchdog` | cutting a JSON object out of an agent's prose; the two-deadline watchdog over an agent's message stream |
| `AuditProjection`, `AuditReader`, `AuditBounds`, `AuditPaging`, `AuditWalks`, `AuditTieBound`, `AuditCsv` | the audit log: projected events and their ids, cursor paging over four tables, CSV export |
| `ConfigDiff`, `RepoKeys`, `HotReload`, `Slots`, `HotReloadSync`, `HotReloadPhases`, `HotReloadProofs`, `HotReloadRuns` | reloading the repository config into the running daemon |
| `Tunnel` | the supervisor of the tunnel process |
| `Migrator`, `MigratorProofs` | the migration runner and its rename history |
| `EnvFile`, `EnvFileProofs` | reading and updating `.env` files |
| `TtlCache`, `RateLimiter` | a bounded cache with expiry; the failed-auth limiter |
| `Prelude`, `Text` | an option type; `trim` and `indexOf` |

Code that changes state step by step is modelled by methods and classes, each proved equal to a specification function
of the old state; the properties are then lemmas about those functions.
What an operation gives is stated a second time on the fields of its inputs
and its result alone, so that no helper of the code is its own specification: the cost of a run (`CostIsBill`), the sums, labels and returns on
investment of an answer (`AggregateAll`, `AggregateHybrid`), an exact day (`ExactDayMeans`), the totals of a stream (`AccountingAdds`), the events of a row
(`ProjectPipelineRun`) and of a page (`PageSafe`), the columns of the export (`ExportReads`), a config diff (`DiffTells`), the map of repositories (`BuildRepoConfigs`)
and the reading of a `.env` file (`ReadsExactly`).

## The main results

**Costs.** Start from an empty rollup table and let runs start, runs finish, the clock advance, and ticks and backfills roll
their days one by one, in any order, overlapping, and cut off between any two days. A day that was ever rolled
stays exact for good (`RollupsStayExact`). Each day of its window that a tick has passed is exact, so when it has rolled its last day each of the
`maxBackfillDays` days completed at its beginning is (`TickMakesWindowExact`): restarting from `max(date) + 1` skips nothing that matters,
although empty days leave no row and the tick before may have died half way. The one thing that breaks this is a backfill that leaves a
gap below its first day; a tick leaves its window exact if and only if each of its days below the restart day was rolled before or has
no runs (`HistoryTickExactly`; `TickExactly` and `BackfillThenTick` say it for any table). A roll of one day is the group-by of that day's runs
if and only if no two different (pipeline, team, repo) triples have the same `|`-joined key (`RollIsGroupBy`). Given exact days, the hybrid answer
has the figures of the live one, per team, repo, pipeline and day, in whatever orders SQL returns the runs of both, if and only if the run cap does
no harm: it bites neither, or there is no past run and it cuts between no two runs of one completion time that differ (`HybridRefinesLive`);
and the two halves combine in `HistoryMakesHybridExact` and `TickMakesHybridExact`.

**Agent stream.** The scanner returns the shortest balanced slice from the first `{` on, for every text, and cuts every
object of the JSON grammar (RFC 8259) out of any prose without an earlier `{`. The watchdog's outcome and its time are stated
exactly for every sequence of arrivals, with and without an abort; k messages with progress buy at most k + 1 timeouts.

**Audit log.** Paging never repeats an event or goes back, for any filters and any truncation. It is complete when no row has an
event older than itself and each table keeps its bound; with a `from` filter it is then complete if and only if no run or
approval created before `from` has a matching event (`WalkExact`, `WalksExactWithin`). The bounds are:

* for native rows, that the query is never cut, or that its filters are all in SQL and no timestamp is shared by more than
  (3 × limit + 1) / 2 of them;
* for runs, approvals and alerts, that one fetch holds the table, or that for each matching event at most (3 × limit + 1) / 2 rows
  were created from the creation of its row up to the event, and the filters admit the first event of each row, as a time
  range alone does (`TimeFiltersAdmitStarts`).

The bounds on native rows are exact for every page size, over walks from the first page to the end: the tie bound
(`TieBoundExact`), and 4 × limit rows in all for a filter that is applied after the cut, such as `actor`
(`PostFilterBoundExact`, `ActorBoundExact`). They are exact as bounds: one particular database beyond them may still be walked
completely, depending on where its pages happen to end and on how SQL orders ties, and no condition on a single database is
given for that case. The bounds on projected rows are proved enough, and not to be the best; a run that began before 4 × limit
others and ends after everything else is on no page of any walk (`LongRunIsLost`). The CSV reader of RFC 4180 section 2 undoes
the writer, and reading the exported file gives the header and the fields of the events shown (`ExportReads`).

**Hot reload.** Two repositories may share a map key, as two of one team do; the map then shows the later one and hides the
other. The live map after a reload is the rebuild of the config, default branches aside, if and only if every key that an
added or shown entry takes over was left to it in order (by a kept entry that is listed first and gives it up to a kept one, or
by one that is hidden from then on) and no kept entry comes to light that was hidden (`ReloadExact`). This holds for every two
configs that list no URL twice, unless an entry that the new config hides is edited: the handler writes such a change into
the entry that hides it, so that the outcome depends on the values and not on the keys (`HiddenEditLeaks`). Entries added at the
end are always followed, and entries removed if and only if none shares its key with one that stays (`AppendIsSafe`,
`RemovalExact`). Replacing the repository of a team in one edit drops the team (`ReplacedRepoIsLost`), and giving the first of
two repositories of a team a team of its own puts the second one under that team (`SharedKeyMisroutes`).

**Migrations.** On SQLite the runner ends in the same database however often it crashed before. On Postgres it does if and only if every
migration that is not yet recorded has only guarded statements (`RecoversExactly`). The repository's own migration 014 has
two unguarded ones: while it is pending, a crash between its block and its record stops every later start (`CacheTokensStick`).

**The rest.** The tunnel supervisor is safe and bounded over every trace and gives up exactly when it should. A `.env` update and the reader agree exactly on
the well-formed keys. The cache keeps a new key for exactly `maxSize - 1` insertions. The limiter lets at most 21 failures through in less than a minute, and
22 in exactly one; both numbers are attained.

## Assumptions

* Runs of a past day do not change, and one day is rolled in one piece: the history has no step that edits or deletes a
  finished run, and none that interrupts the roll of a single day.
* One cost config holds for a whole history and for the live answers compared with it. A backfill started with another
  config, as the command in packages/cli/src/commands/cost.ts does, prices its days by that one.
* `maxBackfillDays` is fixed over a history.
* Pipeline keys and team ids of runs in a history contain no `|` (`Initial` and the `Start` step say so); `JoinInjective` shows why that is
  enough, and repository URLs are free.
* The audit database does not change between pages. A query may return rows of equal time in any order and cuts
  anywhere among them; primary keys are unique and no native id starts with `proj_`.
* No config lists a URL twice: `ura repo add` refuses it (packages/cli/src/commands/repo.ts:71), and the config schema does not check it. Map
  keys may be shared by any entries.
* Message processing takes no time in the watchdog model; arrivals come with their times.
* Requests reach the limiter one at a time with a clock that does not go back.
* File names of migrations are unique, as names in a directory are.
* Dollars and hours are exact reals, and time is an integer; a UTC date is the number of its day.

## Model

| member | source | states |
|---|---|---|
| `CostModel.ComputeRunCost` | packages/core/src/cost/per-run.ts:52-96 | the tokens of a run are those of its model rows, or of a stage that has none; each line costs its tokens at the configured prices of its own model over 1,000,000, at Sonnet's when the model is not listed, and at 3 and 15 when neither is; a stage without rows is billed to its stage model, else the profile model, else Sonnet; the hours are the pipeline's, else the default, else 4, for a completed run that handles no review feedback, and 0 otherwise |
| `CostModel.BillStage` | packages/core/src/cost/per-run.ts:68-90 | one turn of the stage loop adds what that stage costs by its own rows or model, as above, and nothing else |
| `CostModel.CostIsBill` | packages/core/src/cost/rates.ts:12-36 | the bill is the only one that the run and the config allow: a cost is the computed one if and only if its tokens, dollars and hours are those told in the first row |
| `CostModel.BillConcat` | packages/core/src/cost/per-run.ts:65-90 | a bill is additive: stages and model rows may be split anywhere without changing tokens or dollars |
| `CostModel.SumCounts` | packages/core/src/cost/aggregate.ts:180-190 | the summary's run count is the number of selected runs, each counted once |
| `CostRollup.GenerateDateRange` | packages/core/src/cost/rollup.ts:61-69 | the loop lists each day of the inclusive range once, in order, and none when the range is empty |
| `CostRollup.PickDates` | packages/core/src/cost/rollup.ts:216-239 | in ascending order, exactly the days of the window without a stored row of that day or a later one, and yesterday even when yesterday itself is stored |
| `CostRollup.DatesToRollMembers` | packages/core/src/cost/rollup.ts:216-239 | the same membership for the specification that the histories use: a day of the window is rolled unless a row of that day or a later one is stored, yesterday excepted |
| `CostRollup.Ceiling` | packages/core/src/cost/rollup.ts:269 | the backfill's day count is the least integer not below the requested one |
| `CostRollup.FillBuckets` | packages/core/src/cost/rollup.ts:121-154 | the bucket map holds one entry for each joined key that occurs, with the columns of the first run filed under it and the sum of all of them |
| `CostRollup.CostDb.RollOneDay` | packages/core/src/cost/rollup.ts:75-195 | the table is overridden by the day's rows and by nothing else, the count returned is the number of rows written, and a day without runs writes nothing |
| `CostRollup.CostDb.UpsertBuckets` | packages/core/src/cost/rollup.ts:157-190 | inserting the buckets one after another, each overwriting on conflict |
| `CostRollup.UpsertsOverride` | packages/core/src/cost/rollup.ts:157-190 | upserts of rows with different keys replace exactly those rows, in whatever order they are issued |
| `CostRollup.RollIsGroupBy` | packages/core/src/cost/rollup.ts:127-154 | one day's roll is the group-by by (date, pipeline, team, repo) if and only if no two different triples share a `\|`-joined string |
| `CostRollup.JoinInjective` | packages/core/src/cost/rollup.ts:135 | keys whose pipeline and team contain no `\|` never collide, whatever the repository URL |
| `CostRollup.BarCollision` | packages/core/src/cost/rollup.ts:135-147 | with a `\|` in a pipeline key or team id two buckets really are filed as one |
| `CostRollup.CostDb.RecomputeCostRollups` | packages/core/src/cost/rollup.ts:197-247 | a tick finds the latest stored date and rolls the days chosen from it, one after another, and returns the number of rows that all of them wrote |
| `CostRollup.CostDb.BackfillCostRollups` | packages/core/src/cost/rollup.ts:254-283 | refuses a day count that is not positive and changes nothing then; otherwise rolls that many days, rounded up, ending yesterday, and returns the rows written and the days processed |
| `CostHistory.RollDaysExact` | packages/core/src/cost/rollup.ts:241-247 | rolling a list of days makes each of them exact and leaves every other day's rows alone |
| `CostHistory.RestartSkipsNothing` | packages/core/src/cost/rollup.ts:208-239 | restarting from the day after the latest stored one, under the cap, skips no day of the window except days that were rolled before, whatever was cut off |
| `CostHistory.StepLeavesNoGap` | packages/core/src/cost/rollup.ts:197-283 | no step of a history, a task cut off between two days included, leaves a gap in the window below a day that was rolled or is rolled next; a backfill must reach back to the window's start or to the day after a stored one |
| `CostHistory.HistoryInv` | packages/core/src/cost/rollup.ts:197-283 | the invariant of every history of starts, completions, clock advances, ticks and backfills that roll day by day, overlap and are cut off: rolled days are over and exact, and rows exist for rolled days only |
| `CostHistory.TickMakesWindowExact` | packages/core/src/cost/rollup.ts:197-247 | each day of its window that a tick has passed equals the group-by of that day's runs, even if the tick is cut off there; so after its last day all of the last `maxBackfillDays` completed UTC days do |
| `CostHistory.UndisturbedTick` | packages/core/src/cost/rollup.ts:197-247 | a tick that nothing interrupts or overlaps is exactly one `recomputeCostRollups` |
| `CostHistory.HistoryIsTidy` | packages/core/src/cost/rollup.ts:197-283 | after any history every day either has no rows or is exact, which is all that the next two rows ask for |
| `CostHistory.TickExactly` | packages/core/src/cost/rollup.ts:208-246 | for any tidy table, a tick leaves its window exact if and only if the days below its restart day were exact before |
| `CostHistory.HistoryTickExactly` | packages/core/src/cost/rollup.ts:208-246 | after any history, an undisturbed tick leaves its window exact if and only if each window day below its restart day was rolled before or has no completed runs |
| `CostHistory.BackfillThenTick` | packages/core/src/cost/rollup.ts:254-283 | after a backfill, a tick leaves the window exact if and only if the days before the backfill and below the tick's restart day were exact before |
| `CostHistory.FirstBackfillHides` | packages/core/src/cost/rollup.ts:254-283 | a first backfill of fewer days than the window, with a run on yesterday and one on an older day of the window, makes the next tick leave a hole |
| `CostHistory.RollupsStayExact` | packages/core/src/cost/rollup.ts:197-283 | a day that was ever rolled, by a tick or a backfill, is exact ever after, through overlapping and half-finished tasks and empty days |
| `CostHistory.RowsAreRolled` | packages/core/src/cost/rollup.ts:197-283 | no row is ever stored for a day that was not rolled, so none for today or the future |
| `CostGrouping.Regroup` | packages/core/src/cost/aggregate.ts:275-308 | grouping the rows of a group-by again by a coarser key equals grouping the runs themselves by it |
| `CostGrouping.Conservation` | packages/core/src/cost/aggregate.ts:180-217 | the rows of a breakdown, listed in any order, add up to the grand total in every metric |
| `CostAggregate.Truncate` | packages/core/src/cost/aggregate.ts:117-131 | the cap never returns more runs than it may, nor any that were not selected |
| `CostAggregate.TruncateKeepsNewest` | packages/core/src/cost/aggregate.ts:117-131 | kept and dropped runs make up the selection, and no dropped run is newer than a kept one |
| `CostAggregate.SelectRuns` | packages/core/src/cost/aggregate.ts:109-115 | the completed runs of the window, each as often as it is stored, in some order |
| `CostAggregate.AggregateAll` | packages/core/src/cost/aggregate.ts:93-233 | the newest `maxRuns` of the runs that completed in [from, to), each on its UTC day with its own bill: the summary and each row by team, repo, pipeline and day hold the sums of exactly the runs filed under it, with its label, and the return on investment times the dollars is the hours times the configured hourly rate, else 50; without dollars it is infinite if and only if hours were saved; `truncated` says that runs were dropped and some kept |
| `CostAggregate.FoldRuns` | packages/core/src/cost/aggregate.ts:169-217 | the run loop over the summary and four maps shows these figures for the runs it is given, and is the fold that the merge theorems speak of |
| `CostAggregate.SelectRows` | packages/core/src/cost/aggregate.ts:257-263 | each stored row of the window once, in some order, as SQL promises |
| `CostAggregate.AggregateFromRollups` | packages/core/src/cost/aggregate.ts:250-324 | summary, rows and returns on investment hold the sums of the stored rows filed under them, and are not truncated |
| `CostAggregate.BucketsGroup` | packages/core/src/cost/aggregate.ts:206-216 | each breakdown map is the group-by of the folded items under its key |
| `CostAggregate.DaysGroup` | packages/core/src/cost/aggregate.ts:195-204 | the day map is the group-by by day |
| `CostAggregate.MergeBreakdowns` | packages/core/src/cost/aggregate.ts:353-388 | row by row: the sums of both sides under a key, the label of the first, rows of one side kept, and the return on investment of the sum |
| `CostAggregate.MergeDailyRows` | packages/core/src/cost/aggregate.ts:326-351 | the same for days |
| `CostAggregate.MergeIsFold` | packages/core/src/cost/aggregate.ts:473-493 | merging the results of two folds is one fold over both lists: rows, labels, days, totals and return on investment |
| `CostAggregate.AggregateHybrid` | packages/core/src/cost/aggregate.ts:406-494 | for a window from today on, the live answer; for an earlier one, the figures of the stored rows of the finished days that end after `from` and by `to`, together with those of the newest `maxRuns` runs since midnight: the same sums, labels and returns on investment |
| `CostOrder.CapIndifferent` | packages/core/src/cost/aggregate.ts:117-131 | when every run that the cap drops is older than the kept ones, or alike but for its id to any of its age, the figures of the kept runs are the same for every order of the selection |
| `CostOrder.CapMatters` | packages/core/src/cost/aggregate.ts:117-131 | otherwise two orders of the same selection show different figures |
| `CostTheorems.WindowSplits` | packages/core/src/cost/aggregate.ts:109-115 | half-open windows cut at any instant count no run twice and lose none, for every grouping |
| `CostTheorems.WindowExact` | packages/core/src/cost/aggregate.ts:257-263 | days that are exact one by one are exact together: the stored rows of a window are the group-by of its runs |
| `CostTheorems.ExactDayMeans` | packages/core/src/cost/rollup.ts:121-190 | that a day is exact, which the theorems about histories conclude, means that its stored rows are the (pipeline, team, repo) triples of the runs that completed on that day, each with the sums of their bills |
| `CostTheorems.HybridRefinesLive` | packages/core/src/cost/aggregate.ts:406-494 | with exact days, the hybrid answer has, for all orders in which the two live queries may return their runs, the totals and the per-key rows of the live answer from the snapped `from` (to the snapped `to` when that lies before today) if and only if the run cap is harmless: it bites neither side, or there is no past run and it cuts between no two tied runs that differ |
| `CostTheorems.TeamRowsAgree` | packages/core/src/cost/aggregate.ts:26-31 | the team labels of stored rows and live runs agree, in every order SQL may return them in, if and only if not both runs without a team and a team with the id "unassigned" occur |
| `CostTheorems.ReservedTeamLabel` | packages/core/src/cost/aggregate.ts:26-31 | for one list: the label shown depends on the order of the rows if and only if it holds both |
| `CostTheorems.HistoryMakesHybridExact` | packages/core/src/cost/aggregate.ts:406-494 | both halves joined: over any history, for windows of days that were rolled, the hybrid answers like the live aggregate exactly when the cap is harmless |
| `CostTheorems.TickMakesHybridExact` | packages/core/src/cost/aggregate.ts:406-494 | and so for every window within `maxBackfillDays` days once a tick begun today has rolled its last day |
| `CostTheorems.BreakdownConserves` | packages/core/src/cost/aggregate.ts:219-232 | the metrics of a result's team, repo or pipeline breakdown add up to its summary |
| `CostTheorems.DaysConserve` | packages/core/src/cost/aggregate.ts:195-204 | the daily rows of a result, in any order, add up to its summary |
| `CostTheorems.RowsCount` | packages/core/src/cost/aggregate.ts:275-281 | stored rows count each run of their window once |
| `JsonScan.ParseJsonObject` | packages/core/src/executor/agent-stream.ts:356-392 | the trimmed text is tried as a whole when it starts with `{`; failing that, the scanned slice is parsed, and there is no result when that fails too or nothing is scanned |
| `JsonScan.FindClose` | packages/core/src/executor/agent-stream.ts:367-391 | the loop stops at the first position where the specification scan closes, and at none otherwise |
| `JsonScan.ScanIsShortestBalanced` | packages/core/src/executor/agent-stream.ts:365-391 | for every text, the slice scanned is balanced, starts at the first `{` and has no shorter balanced prefix; nothing is found exactly when no slice from there is balanced |
| `JsonScan.WalkValue` | packages/core/src/executor/agent-stream.ts:370-389 | a complete JSON value leaves the scanner's state unchanged and never closes the object around it |
| `JsonScan.ScanCutsObject` | packages/core/src/executor/agent-stream.ts:365-391 | every object of the JSON grammar, preceded by text without `{` and followed by anything, is cut out exactly |
| `JsonScan.ExtractsObject` | packages/core/src/executor/agent-stream.ts:356-392 | so the whole function returns what `JSON.parse` makes of the embedded object, the fast path included |
| `JsonScan.FastPathAgrees` | packages/core/src/executor/agent-stream.ts:357-364 | when the trimmed text is itself a JSON text, the scan would have cut out that same text |
| `JsonScan.PaddedObject` | packages/core/src/executor/agent-stream.ts:357-364 | on an object padded with white space, trimming and scanning yield the object alike |
| `StreamWatchdog.RunStream` | packages/core/src/executor/agent-stream.ts:103-310 | the loop over counters and timestamps, its races against two timers and an abort, refines the specification over timed settlements: messages, the end, and a rejected iterator; its totals are those of the messages before the end or the stall, as the row on accounting tells them |
| `StreamWatchdog.LoopReaches` | packages/core/src/executor/agent-stream.ts:167-307 | after n timely messages the loop holds their totals and the time of the last progress, an assistant message or more than 0 reported output tokens |
| `StreamWatchdog.CompletesInTime` | packages/core/src/executor/agent-stream.ts:203-309 | a stream that ends in time after timely messages completes at that moment with the totals of all its messages, and one whose iterator rejects then fails with that error |
| `StreamWatchdog.StallsAtDeadline` | packages/core/src/executor/agent-stream.ts:168-241 | a late settlement stalls at the deadline: before the first message at the sooner of the two, later at `progressTimeoutMs` after the last progress |
| `StreamWatchdog.OutcomeExact` | packages/core/src/executor/agent-stream.ts:103-310 | without an abort, each of the four outcomes occurs exactly when the first settlement that is not kept up with says so, at the time and with the totals stated |
| `StreamWatchdog.AbortExact` | packages/core/src/executor/agent-stream.ts:139-215 | an abort cancels, at the moment it fires or at once if it had fired before, if and only if that comes before the outcome there would have been, an event of the same millisecond going first when it was handled first; otherwise it changes nothing |
| `StreamWatchdog.StreamEndsWithin` | packages/core/src/executor/agent-stream.ts:301-306 | k progress messages buy at most k + 1 timeouts, and messages without progress none, however many arrive |
| `StreamWatchdog.AccountingAdds` | packages/core/src/executor/agent-stream.ts:257-299 | each of the four counters is the sum of what the messages report: the usage of the message itself if it has one, else that of its nested message, else nothing; each assistant message is one turn; the last text is that of the last assistant message that has any, from its content, else the nested text or content, the parts of kind "text" joined by line feeds |
| `AuditProjection.ProjectPipelineRun` | packages/core/src/audit/projection.ts:26-95 | a started event at the start time comes first, a completed, failed, merged or merge-skipped one occurs exactly under its condition and at the end time, no two share an id or a type, and each names the run, its issue, its team or else its repository, who did it, its tokens if it is the end, and what else its type tells |
| `AuditProjection.ApprovalEventsProject` | packages/core/src/audit/projection.ts:97-119 | an approval has a request event and, once resolved, a resolution, with the ids, times and payloads of the two |
| `AuditProjection.AlertEventProjects` | packages/core/src/audit/projection.ts:125-135 | an alert has one event, with its scope, threshold and date |
| `AuditProjection.FoundAgain` | packages/core/src/audit/reader.ts:198-261 | every event, native or projected, is found again unchanged by its id |
| `AuditProjection.FoundIsStored` | packages/core/src/audit/reader.ts:198-261 | what the lookup returns is an event of the log with that very id |
| `AuditProjection.FindExact` | packages/core/src/audit/reader.ts:198-261 | the lookup returns an event if and only if it is the log's event with that id, so ids are unique over all four tables |
| `AuditProjection.PrefixFree` | packages/core/src/audit/reader.ts:211-249 | no two of the eight prefixes are confused, whatever the text of the row's id |
| `AuditReader.MergedDistinct` | packages/core/src/audit/reader.ts:138-143 | the merge of the four sources has no id twice |
| `AuditReader.SortFacts` | packages/core/src/audit/reader.ts:167-171 | sorting keeps every event and orders them by descending (timestamp, id) |
| `AuditReader.SortedFilter` | packages/core/src/audit/reader.ts:145-171 | the filtered list is strictly descending and holds exactly the fetched events below the cursor that the filters admit: a type in the list if there is one, a time from `from` to `to`, the scope, run and issue if they are not empty, an actor with the prefix, and the text search |
| `AuditReader.PageSafe` | packages/core/src/audit/reader.ts:145-182 | a page is newest first, the greater id first among equal times, not longer than the limit, holds only events that the filters admit in that sense and that lie below the cursor, and a next cursor names its last event |
| `AuditReader.NativeFetchMeans` | packages/core/src/audit/reader.ts:77-92 | the native query returns the newest 4 × limit rows that meet every filter a column can answer and are not newer than the cursor |
| `AuditReader.RunFetchMeans` | packages/core/src/audit/reader.ts:94-106 | the runs query likewise, by start, with the run and issue filters on its own columns |
| `AuditReader.ApprovalFetchMeans` | packages/core/src/audit/reader.ts:108-123 | the approvals query likewise, by creation, and nothing when a scope is asked for |
| `AuditReader.AlertFetchMeans` | packages/core/src/audit/reader.ts:125-136 | the alerts query likewise, by the time of firing, with the scope filter |
| `AuditBounds.MissingIsCutOff` | packages/core/src/audit/reader.ts:85-136 | when a remaining event is missing from a fetch, its row was selected by its query and dropped by the cut at 4 × limit, in any of the four tables |
| `AuditBounds.EnoughNewer` | packages/core/src/audit/reader.ts:85-136 | for any of the four tables: when a row was cut off and at most (3 × limit + 1) / 2 rows lie between it and a later time, and at the time of the cursor, the fetch holds a page of rows newer than that time that no page has shown, and more than a page in all |
| `AuditBounds.RunCutOff` | packages/core/src/audit/reader.ts:94-106 | under the bound on runs, when a run is cut off the page is more than full and newer than each matching event of the run, however late |
| `AuditBounds.TimeFiltersAdmitStarts` | packages/core/src/audit/reader.ts:72-136 | with a time range only, the filters admit the first event of each projected row that SQL admits, as the bounds ask |
| `AuditPaging.PageComplete` | packages/core/src/audit/reader.ts:72-182 | under the bounds, each remaining event is on the page, or the page has a next cursor and the event lies below it, whichever tables were cut |
| `AuditPaging.StraddlingRunIsLost` | packages/core/src/audit/reader.ts:94-106 | with a `from` filter, an event of a run that started before it matches and is on no page |
| `AuditPaging.StraddlingApprovalIsLost` | packages/core/src/audit/reader.ts:111-123 | the same for an approval created before it and resolved after |
| `AuditPaging.WalkSafe` | packages/core/src/audit/csv.ts:51-64 | over all pages of any walk, events are strictly descending and all match: none is repeated, none goes back |
| `AuditPaging.WalkComplete` | packages/core/src/audit/csv.ts:51-64 | a walk that ended has delivered each matching event that remained at its start |
| `AuditPaging.WalkExact` | packages/core/src/audit/csv.ts:51-64 | under the bounds, every legal walk that ended is newest first, and is exactly the set of matching events if and only if no run or approval created before `from` has a matching event |
| `AuditPaging.LongRunIsLost` | packages/core/src/audit/reader.ts:94-106 | an event of a run that began before 4 × limit others and ends after everything else is on no page of any walk |
| `AuditPaging.WalkTerminates` | packages/core/src/audit/csv.ts:51-64 | a walk has at most one page more than the log has events |
| `AuditWalks.LegalWalkExists` | packages/core/src/audit/reader.ts:72-182 | for every log, filter, cursor and page size there is a legal walk that ends, so the statements about all of them are about some |
| `AuditWalks.WalksExactWithin` | packages/core/src/audit/csv.ts:51-64 | under the bounds, paging is complete on all legal walks if and only if nothing straddles `from` |
| `AuditWalks.StraddlingRunExample` | packages/core/src/audit/reader.ts:94-106 | a log of one run that began before `from` and completed after it meets the bounds and is not shown completely |
| `AuditTieBound.BeyondTheBound` | packages/core/src/audit/reader.ts:85-92 | for every page size and any higher tie bound there is a log and a legal walk from the first page to the end that skips an event |
| `AuditTieBound.TieBoundExact` | packages/core/src/audit/reader.ts:85-92 | without filters, paging is complete for every log with at most k native rows at a time if and only if 2k is at most 3 × limit + 1 |
| `AuditTieBound.PostFilterBoundExact` | packages/core/src/audit/reader.ts:145-158 | for a filter applied after the cut that refuses one kind of event and admits another, paging is complete for every log with at most so many native rows if and only if one fetch of 4 × limit holds them all |
| `AuditTieBound.ActorBoundExact` | packages/core/src/audit/reader.ts:152 | so for every `actor` prefix |
| `AuditCsv.FeedField` | packages/core/src/audit/csv.ts:13-19 | whatever a field contains, reading it back yields its neutralised text and stays in the same record |
| `AuditCsv.ReaderUndoesWriter` | packages/core/src/audit/csv.ts:13-35 | reading a file of rows gives the same rows and fields, with a quote in front of those that begin with one of `= + - @` or a tab |
| `AuditCsv.ReaderIsExactInverse` | packages/core/src/audit/csv.ts:11-19 | the original records come back unchanged if and only if no field starts like a formula |
| `AuditCsv.StreamAuditCsv` | packages/core/src/audit/csv.ts:41-65 | the page loop over one cursor yields the header and one row for each event of the walk that the queries' answers determine, in pages of at most 500 and at most 100,001 of them, and the file reads as the row on reading says |
| `AuditCsv.ExportWalks` | packages/core/src/audit/csv.ts:47-64 | that walk is a legal one, asked at the cursor of each page before, and it has ended unless the page cap stopped it |
| `AuditCsv.ExportExact` | packages/core/src/audit/csv.ts:41-65 | end to end: under the paging bounds, and with fewer events than the page cap, the events exported are newest first, and exactly the matching ones if and only if none straddles `from` |
| `AuditCsv.ExportReads` | packages/core/src/audit/csv.ts:5-35 | reading the file gives ten different column names and one record for each event, with each of its fields, neutralised, in the column of its name: the time, the type, the actor, the actor's type, scope, run and issue or nothing, both token counts and the payload |
| `ConfigDiff.DiffRepos` | packages/cli/src/lib/config-watcher.ts:71-109 | the two loops compute the diff of the two configs as maps by URL |
| `ConfigDiff.DiffTells` | packages/cli/src/lib/config-watcher.ts:71-109 | of the last entries for each URL, those without a counterpart are added or removed; a pair has a safe change exactly for those of label pattern, test command, build command and team that differ, and an unsafe one for path and default branch |
| `ConfigDiff.PatchExact` | packages/cli/src/lib/config-watcher.ts:71-109 | applying the diff to the previous config, by URL, gives the next one |
| `ConfigDiff.EmptyDiffExact` | packages/cli/src/lib/config-watcher.ts:219-227 | the diff is empty if and only if the configs are equal as maps by URL |
| `ConfigDiff.ConfigWatcher.HandleChange` | packages/cli/src/lib/config-watcher.ts:201-228 | failed and missing reads change nothing; every other read is adopted, with one event exactly if something changed; all events ever emitted compose to the step from the initial config to the current one |
| `RepoKeys.KeyExactly` | packages/cli/src/lib/build-repo-configs.ts:96-100 | a key is the team if there is one; else the last non-empty segment between slashes and colons of the URL without a trailing ".git", each odd character a hyphen, or "repo" without a segment; and this determines it |
| `HotReload.BuildRepoConfigs` | packages/cli/src/lib/build-repo-configs.ts:73-87 | the map has exactly the keys of the entries, each with the fields of the last entry that has it, an empty label left out |
| `HotReload.RunnerConfig.OnApplied` | packages/cli/src/commands/start.ts:432-490 | the three loops of the handler: additions, then changes with re-keying, then removals |
| `HotReload.RunnerConfig.OnChange` | packages/cli/src/commands/start.ts:444-474 | one change: the entry is looked up under its old key, updated in the named fields and moved when its key changed |
| `HotReloadSync.ShownExact` | packages/cli/src/lib/build-repo-configs.ts:73-87 | of the entries of a config, the map shows exactly those after which no other one has the same key |
| `HotReloadSync.SyncByUrl` | packages/cli/src/lib/build-repo-configs.ts:73-87 | being the rebuild of the config means holding, under the key of each shown entry, what that entry wants, and nothing else |
| `HotReloadPhases.KeptMoves` | packages/cli/src/commands/start.ts:444-474 | a change turns the entry of the old config into the one the new config wants, under its new key, touching no other key, with the branch it was added with |
| `HotReloadProofs.ReloadExact` | packages/cli/src/commands/start.ts:432-490 | for configs that list no URL twice, keys shared or not, and no edit of an entry that the next one hides: a live map in sync is in sync with the next config after the reload if and only if each key that an added or shown entry takes over is left in order by a kept entry, or by one hidden from then on, and no kept entry comes to light that was hidden |
| `HotReloadProofs.BadHandoverLosesKey` | packages/cli/src/commands/start.ts:460-490 | when a key that the next config shows changes hands in any other way, it is absent from the live map, whatever that map was |
| `HotReloadProofs.HiddenStaysHidden` | packages/cli/src/commands/start.ts:444-474 | whatever the next config says of an entry that was hidden, and even under a key of its own, the live map has no entry for its URL after the reload |
| `HotReloadProofs.OverwrittenIsLost` | packages/cli/src/commands/start.ts:433-443 | a shown entry whose key an added one takes is in the live map under no key after the reload |
| `HotReloadRuns.AppendIsSafe` | packages/cli/src/commands/repo.ts:71-86 | entries added at the end satisfy the condition of `ReloadExact`, whatever keys they share |
| `HotReloadRuns.RemovalExact` | packages/cli/src/commands/repo.ts:126-130 | entries removed satisfy it if and only if none of them shares its key with one that stays |
| `HotReloadRuns.ReloadExactly` | packages/cli/src/commands/start.ts:432-490 | the same for the daemon, whose watcher emits no event for configs equal as maps by URL: it stays in sync exactly when the edit is safe |
| `HotReloadRuns.ReloadsStayInSync` | packages/cli/src/commands/start.ts:432-490 | over any sequence of safe edits, failed reads included, from any config that lists no URL twice, the live map equals the rebuild of the current config with remembered default branches |
| `HotReloadRuns.ReplacedRepoIsLost` | packages/cli/src/commands/start.ts:433-443 | replacing the repository of a team in one edit leaves the team out of the live map, where a rebuild has it |
| `HotReloadRuns.SharedKeyMisroutes` | packages/cli/src/commands/start.ts:444-474 | of two repositories of one team the first gets a team of its own: every key is left in order, but the live map has the second repository under the new team and none under the old |
| `HotReloadRuns.HiddenEditLeaks` | packages/cli/src/commands/start.ts:444-459 | editing the test command of a hidden repository gives it to the one that hides it |
| `HotReloadRuns.EqualExactly` | packages/cli/src/lib/build-repo-configs.ts:73-87 | the live map is the rebuild itself, empty labels included, if and only if they agree with empty labels read as none and no live entry has an empty one |
| `HotReloadRuns.EmptyLabelDiffers` | packages/cli/src/commands/start.ts:457-459 | clearing a label pattern to "" keeps an empty one live, where a rebuild has none |
| `Tunnel.TunnelManager.OnExit` | packages/cli/src/lib/tunnel.ts:238-266 | an exit clears the child and schedules a restart, gives up, or does nothing during shutdown |
| `Tunnel.TunnelManager.OnTimer` | packages/cli/src/lib/tunnel.ts:262-297 | a timer is used up, counts, and spawns unless shutting down |
| `Tunnel.TunnelManager.OnStop` | packages/cli/src/lib/tunnel.ts:132-145 | stopping cancels the timer and signals the running child once |
| `Tunnel.TunnelManager.SpawnAndWire` | packages/cli/src/lib/tunnel.ts:179-203 | a spawn that throws leaves no child; one that fails later leaves a child that never exits |
| `Tunnel.Supervised` | packages/cli/src/lib/tunnel.ts:237-297 | in every trace after one start: at most one live process, never one beside a pending timer, spawns are restarts plus one and at most cap + 1, the first delay is the initial one, each further one twice the one before, both capped, and after a stop every live process has been signalled |
| `Tunnel.NeverAbandons` | packages/cli/src/lib/tunnel.ts:237-297 | no process and no timer only after a stop, a failed spawn or giving up |
| `Tunnel.BoundedEvents` | packages/cli/src/lib/tunnel.ts:246-266 | at most cap timers fire and cap + 1 processes exit in any trace |
| `Tunnel.GivesUpExactly` | packages/cli/src/lib/tunnel.ts:246-254 | without a stop it gives up if and only if cap + 1 processes have exited |
| `Tunnel.FailureEndsIt` | packages/cli/src/lib/tunnel.ts:269-297 | a spawn that failed is never retried |
| `Tunnel.NothingAfterStop` | packages/cli/src/lib/tunnel.ts:132-145 | after a stop, whatever came before, nothing is spawned or scheduled, no timer fires and at most one process exits |
| `Migrator.Database.RunMigrationsSqlite` | packages/core/src/db/migrator.ts:186-261 | the loops over renames, migrations and statements, stopping at the first failed write |
| `Migrator.Database.RunMigrationsPostgres` | packages/core/src/db/migrator.ts:290-326 | the same with the renames in any order and each migration's SQL as one block |
| `MigratorProofs.SqliteIndependent` | packages/core/src/db/migrator.ts:79-92 | in the SQLite map no new name is an old one, and none occurs twice |
| `MigratorProofs.SqliteDescriptions` | packages/core/src/db/migrator.ts:79-92 | a renamed migration keeps its description: only its number changes |
| `MigratorProofs.PostgresIndependent` | packages/core/src/db/migrator.ts:99-110 | the same for the Postgres map |
| `MigratorProofs.PostgresDescriptions` | packages/core/src/db/migrator.ts:99-110 | the same for the Postgres map |
| `MigratorProofs.TablesAgree` | packages/core/src/db/migrator.ts:79-110 | each Postgres rename begins with the name at which the SQLite one ends |
| `MigratorProofs.RenameOrderIrrelevant` | packages/core/src/db/migrator.ts:294-301 | for any such map, in every order, the renames succeed if and only if the table never holds both names of a pair, and leave the same table |
| `MigratorProofs.ActiveFiles` | packages/core/src/db/migrator.ts:141-147 | the active migrations are exactly the files that are not tombstones |
| `MigratorProofs.RunProgress` | packages/core/src/db/migrator.ts:208-260 | a run cut short at any write, or refused by a rename, records only what it has executed in full, creates only what was missing and executes only what was not recorded |
| `MigratorProofs.RunKeepsRecords` | packages/core/src/db/migrator.ts:253-254 | a recorded migration, under its old or new name, is a fully executed one, before and after any run |
| `MigratorProofs.SuccessIsComplete` | packages/core/src/db/migrator.ts:208-260 | a successful run has recorded every active migration and created exactly what was missing |
| `MigratorProofs.HistoryNotRepeated` | packages/core/src/db/migrator.ts:190-212 | nothing recorded under an old or a new name is executed again |
| `MigratorProofs.SecondRunDoesNothing` | packages/core/src/db/migrator.ts:208-212 | after a success, another run executes and changes nothing, however far it gets |
| `MigratorProofs.AlwaysRecovers` | packages/core/src/db/migrator.ts:186-326 | when every statement of the unrecorded migrations can be met again, then after any number of runs that failed at any writes the next undisturbed run succeeds if the first would have, with the same records and schema |
| `MigratorProofs.RecoversExactly` | packages/core/src/db/migrator.ts:186-326 | an undisturbed run succeeds after every sequence of failed attempts if and only if the driver is SQLite or every unrecorded migration has only guarded statements |
| `MigratorProofs.CrashSticks` | packages/core/src/db/migrator.ts:314-319 | each unrecorded migration with an unguarded statement has a crash, between its block and its record, after which no run succeeds |
| `MigratorProofs.UnguardedBlocksForever` | packages/core/src/db/migrator.ts:314-324 | on Postgres, an unguarded statement whose object exists without a record makes every run fail |
| `MigratorProofs.CacheTokensStick` | packages/core/src/db/migrations/postgres/014_stage_runs_cache_tokens.sql:5-6 | the repository's migration 014 is of this kind: wherever it is pending, recovery fails |
| `MigratorProofs.CacheTokensExample` | packages/core/src/db/migrations/postgres/014_stage_runs_cache_tokens.sql:5-6 | for instance on a database that has the table and no records |
| `EnvFile.ReadEnvFile` | packages/cli/src/lib/env-file.ts:18-31 | the line loop builds the reading on which the agreement theorems rest, and a missing file reads as empty |
| `EnvFile.UpsertEnvFile` | packages/cli/src/lib/env-file.ts:33-79 | lines of updated keys are rewritten in place, trailing empty lines dropped, missing keys appended, one newline at the end |
| `EnvFile.RewriteLines` | packages/cli/src/lib/env-file.ts:46-65 | besides the rewritten lines, `seen` is exactly the set of updated keys that the file assigns |
| `EnvFile.SplitJoin` | packages/cli/src/lib/env-file.ts:77 | joining newline-free lines and splitting again gives them back |
| `EnvFileProofs.ParsedKey` | packages/cli/src/lib/env-file.ts:21-28 | whatever a line assigns, it assigns to a trimmed, non-empty key without `=`, newline or leading `#` |
| `EnvFileProofs.SaysExactly` | packages/cli/src/lib/env-file.ts:21-28 | a line assigns a value to a key if and only if it is the two around an equals sign, with any white space around either, where the key is not empty, has no equals sign and begins no comment |
| `EnvFileProofs.ReadsExactly` | packages/cli/src/lib/env-file.ts:18-31 | a reading holds exactly what the lines say, the last line that assigns a key winning |
| `EnvFileProofs.UpsertThenRead` | packages/cli/src/lib/env-file.ts:33-79 | reading the updated file gives the old reading overridden by the trimmed updates |
| `EnvFileProofs.ReadBackExactly` | packages/cli/src/lib/env-file.ts:18-79 | a newline-free value is read back under its key if and only if the key is well formed |
| `EnvFileProofs.UpsertIdempotent` | packages/cli/src/lib/env-file.ts:33-79 | updating twice writes the same text |
| `EnvFileProofs.UnrelatedLinesStay` | packages/cli/src/lib/env-file.ts:46-67 | all lines but those of updated keys and the trailing empty ones stay, in order |
| `TtlCache.TTLCache.Get` | packages/core/src/notifier/linear.ts:19-27 | an expired entry is deleted and missed; any other is returned and left |
| `TtlCache.TTLCache.Has` | packages/core/src/notifier/linear.ts:29-31 | presence is a hit, with the same deletion of an expired entry |
| `TtlCache.TTLCache.Set` | packages/core/src/notifier/linear.ts:33-40 | a known key keeps its place in the insertion order; a new one goes last, the oldest leaving a full cache |
| `TtlCache.RunIsBounded` | packages/core/src/notifier/linear.ts:33-40 | over every run, no key is held twice and there are at most `maxSize` entries, or one if that is 0 |
| `TtlCache.HitsExactly` | packages/core/src/notifier/linear.ts:19-27 | over every run, a read hits if and only if the key is held and was last set no longer than `ttlMs` ago, and then returns the value last set |
| `TtlCache.FreshValueHits` | packages/core/src/notifier/linear.ts:19-40 | a value set under a new key is read back until it expires, if fewer than `maxSize` new keys are inserted and no read finds it expired in between |
| `TtlCache.Survives` | packages/core/src/notifier/linear.ts:33-40 | a key just inserted is still held after up to `maxSize - 1` insertions of new keys, whatever expiry deletes in between |
| `TtlCache.EvictedAtLast` | packages/core/src/notifier/linear.ts:33-40 | without reads, the `maxSize`-th insertion of a new key evicts it: the bound is sharp |
| `RateLimiter.Middleware.Handle` | packages/dashboard/src/server.ts:138-173 | refuses, lets pass or counts a failed-auth response, and changes no other address |
| `RateLimiter.FailuresCounted` | packages/dashboard/src/server.ts:163-171 | the table entry of an address is the window and the ordinal of its last failure, windows open only when the last is over, and no ordinal exceeds 11 |
| `RateLimiter.WindowBound` | packages/dashboard/src/server.ts:146-153 | at most 11 failures are answered in one window |
| `RateLimiter.SlidingBound` | packages/dashboard/src/server.ts:82-83 | failures of one address within less than 60 seconds are at most 21, within exactly 60 seconds at most 22 |
| `RateLimiter.BoundsAttained` | packages/dashboard/src/server.ts:82-83 | requests that reach both numbers |
| `RateLimiter.RefusedExactly` | packages/dashboard/src/server.ts:146-153 | an address is refused if and only if its last window is open and has 11 failures |
| `RateLimiter.RefusedAfterEleven` | packages/dashboard/src/server.ts:146-153 | a refused address has had 11 failures in the last minute, so one that never failed is never refused |

## Left out

- License gates, logging, notifications and the audit events that the config handler writes: side effects beside the modelled state.
- SQL text, drivers and transactions: a table is a map or a sequence of rows, a query a filter with an order and a cut, an upsert a map update.
- `CostModel.ComputeRunCost`: the join of stage rows and model rows to their run is not modelled; a run carries its stages and they carry their model rows.
- `CostAggregate.AggregateAll`: breakdown lists are maps by key, so the order by dollars is not modelled; with `maxRuns` 0 the source drops the `truncated` flag, as the model does.
- `CostAggregate.AggregateHybrid`: the default of `enableRollups` (off, plain live aggregation) is not a parameter. The source's comment warns that `from` is snapped down; it does not say that `to` is too when it lies before today.
- `CostHistory.RollupsStayExact`: deleting or editing runs after their day is rolled, and a roll of one day that fails between two of its upserts, are not steps of the history.
- `CostRollup.CostDb.RollOneDay`: a roll reads the runs of its day in their stored order. Without two joined keys that collide, which is what `RollIsGroupBy` is about, no order makes a difference.
- Reading `COST_ROLLUP_MAX_BACKFILL_DAYS` from the environment, and the calendar: the cap is a parameter and a date is a day number.
- `packages/core/src/cost/csv.ts`: its field escape is the one proved in `AuditCsv`, and its row lists would only add easy members.
- `JsonScan.ExtractsObject`: `JSON.parse` is a parameter that accepts exactly the grammar; characters are Dafny characters, not UTF-16 code units. `parseJsonBlock` uses a regular expression and is not part of this model.
- `StreamWatchdog.RunStream`: an abort goes either before or after all other events of its millisecond; the callbacks and the cleanup of the iterator are not modelled; an error before the first message reports `firstMessageTimeoutMs` even when the other deadline was the sooner, as in the source.
- `AuditReader.PageSafe`: the text search is a parameter of the filter, the cursor is a pair and not its base64 text, and payloads are not decoded.
- `AuditCsv.StreamAuditCsv`: `listAuditEvents` is given by the page function and the queries' answers as a function of the cursor; ISO dates, numbers and JSON payloads are printed by parameters; rows are joined by newlines by the caller in the source.
- Debouncing and watching the file, hashing the config, and the config schema: `HandleChange` starts from the result of a read.
- `HotReloadProofs.ReloadExact`: the order of the live map's entries is not compared. `selectRepoConfig` takes the first entry whose label pattern matches, and moving an entry to a new key puts it last, so that two entries with one pattern may be told apart by it. For an edit of an entry that another one hides there is no condition, only the example.
- `AuditPaging.WalkExact`: whether the bound on runs, approvals and alerts is the best possible is not shown, as it is for native rows.
- `HotReload.BuildRepoConfigs`: the environment-variable branch, which takes precedence over the config file, is not modelled.
- `Tunnel.Supervised`: finding the public URL in the process output and its timeout, which do not change the supervisor's state, the check of the token options, and the timer's 32-bit limit are not modelled; an "error" event that nobody listens to would end the process.
- `Migrator.Database.RunMigrationsSqlite`: a statement is given by what it establishes (a table, a column, an index, a column's new type), what it needs, and whether it is guarded; splitting SQL text at semicolons and stripping comments is not modelled, nor are statements that change rows, of which the repository's migrations have none. Reading which migrations are recorded does not fail on its own.
- `EnvFile.UpsertEnvFile`: the temporary file and its renaming are one step, and JavaScript's ordering of integer-like keys is left to the caller's list of keys.
- `RateLimiter.Middleware.Handle`: requests that overlap, whose failures are counted with the clock of their arrival, are not modelled.
- `checkDeepReviewConvergence`, alert deduplication, profile merging and release cutting: short members that would add nothing harder.
