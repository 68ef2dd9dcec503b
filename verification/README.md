# City-GO: verified model of its core protocols

This project models, in Dafny, the parts of the City-GO backend whose correctness
depends on more than one function at a time, and proves what they promise for all
inputs, all runs and all reachable states. `dafny verify dfyconfig.toml` checks it.

| file | what it models |
|---|---|
| `CleanupWorker.dfy` | one cleanup batch: the bounded loop and the transaction it runs in each turn |
| `SchedulerProtocol.dfy` | the cleanup scheduler's lifecycle as a state machine over atomic steps |
| `SchedulerTheorems.dfy` | what every run of that machine keeps |
| `SchedulerProgress.dfy` | what it does in every run: goes on, begins batches, tells, reports, counts |
| `SchedulerMachine.dfy` | the scheduler module itself, statement by statement, proved to take the machine's steps |
| `FeatureFlags.dfy` | dependency-gated flags and their configuration validator, for any table and the shipped one |
| `AbuseControl.dfy` | the body-limiting ASGI middleware: rule lookup, buffering, replay |
| `PublishedCity.dfy` | the ORM attribute guards that keep a published city published |
| `ImportQueue.dfy` | admission of the single in-web import worker |
| `ImportSummary.dfy`, `OrderedDict.dfy` | the key=value printer for import jobs, and Python's dicts |
| `CoverageSummary.dfy` | recursive coverage groups and their totals |
| `Cors.dfy` | the origin-list parser |
| `Text.dfy`, `Subsequences.dfy`, `Options.dfy` | string operations, subsequences and the option type, shared by the models |
| `EligibilityDrift.dfy` | the nested per-city counters |

## How the models are built

**Scheduler.** Everything between two awaits is one step of the event loop; worker
threads step on their own, between reading the stop event and completing a run. The
loop task and every pending `stop` call have explicit program points. Cancellations,
timers, batch outcomes and the done-callback are events that may come in any order the
event loop allows. `LoopStep` is the case table of the coroutine; `SchedulerMachine`
has its `try`/`except`/`finally` structure and reads and writes the module's globals,
and each of its methods is proved to take exactly one step of the machine. Fields named
as history (`batchesCreated`, `timeouts`, `runs`, `rowsDeleted`, `cancels`, `arrived`,
`deleted`) only record what happened; no step reads them. The repository runs on Python
3.11, whose `wait_for` hands over a completed wake event even when a cancellation is
waiting; the model allows both outcomes there.

**What turned out not to hold without a condition**, each with the exact condition and a
concrete witness:

- A cleanup batch can outlive its loop task, and a restarted scheduler can then run a
  second one beside it, exactly when the loop task is cancelled a third time while it
  waits for one batch (`DrainedUnlessCancelledThrice`, `ThirdCancelOverlapsBatches`,
  `ThirdCancelIsReachable`).
- A run that raises leaves its rows in place exactly unless its commit went through
  first: a lost acknowledgement, or an exception while the session is closed, reports
  failure for rows that are gone (`RunRouteStateCleanupOnce`, `RowsConserved`,
  `LostAcknowledgement`).
- On a table with cycles the flag validator accepts settings that never take effect
  (`CycleEscapesValidator`); `ValidatorMeaning` gives the exact relation on every table.
- The guard on `is_active` tests `is True` and `is False`, so an unapproved `None` or
  `0` passes, and an unapproved `1` or `2` makes the next `False` pass. A city is protected
  exactly when only booleans, or only truthy values, are assigned (`ProtectionExact`,
  `OneOpensTheGuard`). The comment in the source's regression test promises more.
- When the admitted request's thread cannot be started, the in-progress flag stays set:
  later requests can be admitted exactly unless that has happened
  (`AdmissionRecoverable`, `FailedStartIsReachable`).
- An Exception escapes from the worker thread exactly when the logger call that reports
  the iteration's failure raises; the flag is cleared all the same
  (`OnlyTheLoggerEscapes`, `EscapeIsReachable`).
- The per-city columns of the drift report add up to the global counts exactly when no
  place's first reason code is itself "eligible" or "excluded" (`ColumnsAgree`,
  `ColumnsCanDisagree`). The shipped evaluator uses neither word, so that with it the
  columns always agree (`ShippedColumnsAgree`).

**Replay.** `receive` is modelled by the messages that have arrived so far, and more may
arrive at any moment; a call that finds none is a coroutine that stays suspended.
Statements therefore speak of every finite prefix of the stream and of every arrival
pattern.

## Model

| member | source | states |
|---|---|---|
| CleanupWorker.RunRouteStateCleanupOnce | core/route_state_cleanup_runner.py:15-38 | for every limit and every way its statements can raise: a run that returns has committed exactly the rows it reports; one that raises leaves every row in place, exactly unless its commit went through |
| CleanupWorker.Database.Delete | services/route_state_cleanup_service.py:32-72 | one statement deletes min(limit, expired) rows, uncommitted, with any limit brought into 1..10000 |
| CleanupWorker.RunBoundedCleanup | core/route_state_cleanup_scheduler.py:131-142 | the loop takes exactly the worker's steps of the protocol, from the first check to the end of the thread |
| CleanupWorker.CleanupAccounting | core/route_state_cleanup_scheduler.py:131-142 | for every pattern of stop answers and faults: everything goes if it fits before the interruption, else exactly the full batches before it and what an interrupting fault took along; the result is the number removed unless the interruption is a fault |
| CleanupWorker.RowsConserved | core/route_state_cleanup_scheduler.py:131-142 | expired before = removed + expired after; whole earlier batches stay committed, and a failing batch's own rows go exactly when its commit went through |
| CleanupWorker.UndisturbedRun | core/route_state_cleanup_scheduler.py:13-15 | one undisturbed run removes min(expired, 10000) rows and returns that number |
| CleanupWorker.UndisturbedRuns | core/route_state_cleanup_scheduler.py:131-142 | k undisturbed runs leave max(0, expired - 10000 k) rows |
| SchedulerMachine.RouteStateCleanupScheduler.Start | core/route_state_cleanup_scheduler.py:24-39 | starting is a no-op while a task is live, else a fresh generation owns everything, whatever the old one left |
| SchedulerMachine.RouteStateCleanupScheduler.FinalizeSchedulerOwnership | core/route_state_cleanup_scheduler.py:74-93 | the five globals are released for the owned task and untouched for any other |
| SchedulerMachine.RouteStateCleanupScheduler.StopEnter | core/route_state_cleanup_scheduler.py:42-57 | a stop call sets both events of the task it captures and waits, or leaves at once when there is none or it is done |
| SchedulerMachine.RouteStateCleanupScheduler.StopResume | core/route_state_cleanup_scheduler.py:57-71 | a resumed stop call waits on, remembering its caller's cancellation, or leaves as the task's outcome prescribes |
| SchedulerMachine.RouteStateCleanupScheduler.ResumeLoop | core/route_state_cleanup_scheduler.py:96-128 | every resumption of the coroutine, through its nested finally blocks, is one row of the case table, and keeps the invariant |
| SchedulerMachine.RouteStateCleanupScheduler.CheckStopEvent | core/route_state_cleanup_scheduler.py:133-135 | the thread's check of its own generation's stop event, as a step of its own |
| SchedulerMachine.RouteStateCleanupScheduler.CompleteRun | core/route_state_cleanup_scheduler.py:136-139 | a completed or failed run, with the rows it took, as a step of its own |
| SchedulerTheorems.RunKeepsInv | core/route_state_cleanup_scheduler.py:17-128 | every run of any steps keeps the protocol's invariant |
| SchedulerTheorems.DrainedUnlessCancelledThrice | core/route_state_cleanup_scheduler.py:102-128 | in every run no loop task is done before its batch, exactly when no loop is cancelled a third time during one batch |
| SchedulerTheorems.OneBatchInFlight | core/route_state_cleanup_scheduler.py:96-128 | then, wherever the run has got to, at most one batch is in flight across all generations and none outlives its task |
| SchedulerTheorems.OneBatchAtATime | core/route_state_cleanup_scheduler.py:24-128 | from import on, with at most two cancel() calls on each loop task, however many there are, one batch at a time wherever the run has got to |
| SchedulerTheorems.ThirdCancelOverlapsBatches | core/route_state_cleanup_scheduler.py:124-128 | after any third cancellation, releasing and restarting does run two batches at once |
| SchedulerTheorems.ThirdCancelIsReachable | core/route_state_cleanup_scheduler.py:99-128 | a concrete run reaches a third cancellation |
| SchedulerTheorems.StopLeavesAfterDrain | core/route_state_cleanup_scheduler.py:42-71 | a stop call has left, by return or exception, only if its captured task is done (or there was none), in the way the outcome and the remembered cancellation prescribe; nothing of that generation is running then, if its own task was cancelled at most twice |
| SchedulerTheorems.RememberedCancellationIsReRaised | core/route_state_cleanup_scheduler.py:60-71 | once recorded, a cancellation is re-raised in the end however the run goes on, unless the task's exception is raised instead |
| SchedulerTheorems.CancellationIsReported | core/route_state_cleanup_scheduler.py:57-71 | however often its caller is cancelled and however the run goes on, a stop call reports it when it leaves, unless the task's exception is raised instead or the task itself was cancelled |
| SchedulerTheorems.OwnershipInvariant | core/route_state_cleanup_scheduler.py:17-39 | the three handles are None together, exactly when the state is "stopped"; at most one loop task is unfinished and it is the owned one |
| SchedulerTheorems.LateCallbackChangesNothing | core/route_state_cleanup_scheduler.py:74-77 | a done-callback that arrives after a newer task was started changes nothing |
| SchedulerTheorems.StopBoundsRemainingWork | core/route_state_cleanup_scheduler.py:99-139 | once a generation's stop event is set, in every continuation: no further batch, at most one more completed run, at most 1000 more rows |
| SchedulerTheorems.WorkPerIntervalBounded | core/route_state_cleanup_scheduler.py:13-142 | in every run a generation completes at most ten runs and takes at most 10000 rows for its start and for each interval timer it waited for |
| SchedulerTheorems.LoopNeverSpins | core/route_state_cleanup_scheduler.py:96-123 | the wake event is set exactly when the stop event is; a live loop has begun exactly one batch at its start and one for each timer; waking up ends the loop |
| SchedulerTheorems.OwnStepsBounded | core/route_state_cleanup_scheduler.py:99-128 | in every run a stopped generation's own steps use up a rank |
| SchedulerTheorems.DrainTerminates | core/route_state_cleanup_scheduler.py:42-128 | a stopped generation takes at most eight more steps of its own and, until it has wound down completely, always has one to take; once its task has ended every stop call waiting for it can leave |
| SchedulerProgress.LoopEndsOnlyWhenStopped | core/route_state_cleanup_scheduler.py:99-123 | in every run, whatever its batches do, a loop task that nobody cancels ends only after its stop event was set, and then it returns |
| SchedulerProgress.BatchBegins | core/route_state_cleanup_scheduler.py:99-123 | at its start and whenever the interval timer goes off, a loop not told to stop begins one fresh batch of its own and waits for it |
| SchedulerProgress.BatchEndsInWait | core/route_state_cleanup_scheduler.py:103-121 | a batch that ends, failed or not, brings such a loop to its timer |
| SchedulerProgress.GenerationKeepsGoing | core/route_state_cleanup_scheduler.py:96-142 | in every run a generation that has not ended can take a step of its own, and takes at most 26 between two timers: it neither stalls nor runs on |
| SchedulerProgress.StartMakesLive | core/route_state_cleanup_scheduler.py:24-39 | after a start there is a live task owning everything: the one there was, unchanged, or a new one with clear events |
| SchedulerProgress.StopTellsItsTask | core/route_state_cleanup_scheduler.py:42-55 | a stop call sets both events of the owned task and of no other, or finds none and leaves |
| SchedulerProgress.CallerCancellationArrives | core/route_state_cleanup_scheduler.py:57-64 | a cancelled caller's stop call is resumed with it |
| SchedulerProgress.ResumedStopWaitsOrLeaves | core/route_state_cleanup_scheduler.py:57-71 | a resumed stop call leaves exactly when its task has ended, and otherwise remembers the cancellation and waits on |
| SchedulerProgress.NoCancellationInvented | core/route_state_cleanup_scheduler.py:56-71 | in every run a stop call whose caller is never cancelled reports no cancellation |
| SchedulerProgress.OwnCallbackReleases | core/route_state_cleanup_scheduler.py:74-82 | the done-callback of the owned task gives everything back |
| SchedulerProgress.CancellationStopsLoop | core/route_state_cleanup_scheduler.py:104-128 | a cancellation reaches the loop, and the loop begins nothing more |
| SchedulerProgress.HowALoopEnds | core/route_state_cleanup_scheduler.py:102-128 | a loop that waited for a batch returns when nobody cancelled it, raises exactly when the batch it was waiting out failed and no further cancellation came first, and else is cancelled |
| SchedulerProgress.ActiveBatchExact | core/route_state_cleanup_scheduler.py:101-128 | in every reachable state the active batch is the one the owned loop waits for, or was left with after a second cancellation |
| SchedulerProgress.HistoryIsExact | core/route_state_cleanup_scheduler.py:96-142 | the fields the bounds speak of count the generation's runs, rows, timers and batches in every run |
| SchedulerProgress.RowsBalance | core/route_state_cleanup_runner.py:15-38 | in every run the rows left are those that expired less those the runs took |
| FeatureFlags.EnabledIffReachableConfigured | core/feature_flags.py:76-86 | a flag is effectively on exactly when every reachable flag is configured on and none lies on a cycle, for every finite table and settings |
| FeatureFlags.EnabledIsLeastFixpoint | core/feature_flags.py:76-86 | the effective set is the least fixpoint of "configured and all dependencies effective" |
| FeatureFlags.EnablingIsMonotone | core/feature_flags.py:76-86 | turning settings on never turns an effective flag off |
| FeatureFlags.MatrixMeaning | core/feature_flags.py:76-103 | the effective matrix has exactly the flags asked for, each on when everything it reaches is configured and free of cycles |
| FeatureFlags.Validate | core/feature_flags.py:106-124 | the collected errors are exactly the configured flags with an unconfigured dependency; there are none exactly when the settings are consistent |
| FeatureFlags.ValidatorMeaning | core/feature_flags.py:102-124 | on every table: the effective state equals the settings exactly when the validator accepts and no configured flag is on a cycle |
| FeatureFlags.ValidatorExactOnAcyclic | core/feature_flags.py:102-124 | on every table without cycles the validator accepts exactly when the effective state equals the settings |
| FeatureFlags.ViolationOnTheWay | core/feature_flags.py:106-121 | a configured flag with an unconfigured transitive dependency forces a direct violation on the path |
| FeatureFlags.CycleEscapesValidator | core/feature_flags.py:106-124 | a two-flag cycle is accepted and never takes effect |
| FeatureFlags.ShippedValidatorExact | core/feature_flags.py:50-124 | for the shipped table, acceptance means the effective matrix is the raw settings, and the converse |
| FeatureFlags.ShippedEffective | core/feature_flags.py:50-86 | flag by flag, what must be configured for it to take effect |
| AbuseControl.PathMatchesSegments | core/abuse_control.py:24-26 | the string test holds exactly when the rule's segments are an initial segment of the path's segments |
| AbuseControl.PathMatchesMeaning | core/abuse_control.py:24-26 | so it holds exactly when the rule's prefix, without any slashes at its end, covers the path in whole segments |
| AbuseControl.TrailingSlashesIgnored | core/abuse_control.py:24-26 | any number of trailing slashes on a rule never matters |
| AbuseControl.MatchRule | core/abuse_control.py:29-34 | the earliest rule that lists the upper-cased verb and covers the path, and none only when none does |
| AbuseControl.VerbSelects | core/abuse_control.py:29-34 | the case of a verb's letters does not matter, and for an upper-case one the selected rule is the first that lists it and covers the path |
| AbuseControl.BufferBody | core/abuse_control.py:58-71 | at every loop head at most 256000 bytes are buffered; the app is started only at the first final message within the bound, and 413 answered only at the first message that exceeds it |
| AbuseControl.OneOutcome | core/abuse_control.py:61-71 | a stream that overflows before reading stops has no allowed stopping point |
| AbuseControl.DecisionsAreStable | core/abuse_control.py:61-71 | what was decided on a prefix of the stream stays decided when more arrives |
| AbuseControl.ReadingStops | core/abuse_control.py:61-71 | if every non-final message carries a byte, reading stops within 256001 messages |
| AbuseControl.WaitingIsBounded | core/abuse_control.py:61-71 | under the same condition a request is waited for only while at most 256000 messages have arrived |
| AbuseControl.ReplayReceive.Receive | core/abuse_control.py:73-81 | the next message the app gets is the next message of the original stream, from the buffer or live |
| AbuseControl.AppReads | core/abuse_control.py:73-83 | over any number of reads and arrivals the app receives exactly the first messages of the stream, in order, and a read stays unanswered exactly when everything that has arrived was delivered |
| AbuseControl.AnsweredMeaning | core/abuse_control.py:73-81 | the number of reads answered: all, or all since some read that left nothing undelivered - never fewer, never more |
| AbuseControl.Call | core/abuse_control.py:43-92 | which of pass-through, 413, 429, waiting and calling the app a request gets: it waits only while everything that arrived was read without reaching a final message or the limit, and the app starts at the beginning of a bounded stream whatever Content-Length claims |
| PublishedCity.City.ResolveCommittedLaunch | models/city.py:77-90 | the old value is the committed one when it was expired on a persistent instance, without changing what reads see |
| PublishedCity.City.SetLaunchStatus | models/city.py:93-98 | on every instance, new or persistent: the write is refused exactly when the city is published, the new status is another one and there is no approval; nothing else changes; so an expired value decides as a loaded one would |
| PublishedCity.City.SetIsActive | models/city.py:101-106 | the same for is_active: refused exactly when a published city's True would become False without approval |
| PublishedCity.City.AllowCityProductStateChange | models/city.py:63-68 | approval changes nothing else |
| PublishedCity.PerformAll | models/city.py:77-106 | over every history of writes, commits, rollbacks, refreshes and reads the reloading guard refines the always-loaded one |
| PublishedCity.BooleanWritesProtected | models/city.py:93-106 | a published, active city stays so under every unapproved history of boolean writes |
| PublishedCity.ProtectionExact | models/city.py:101-106 | protection holds for all unapproved histories exactly when only booleans, or only truthy values, are assigned, among all values that can or cannot be stored |
| PublishedCity.OneOpensTheGuard | models/city.py:104-104 | the histories that defeat it: any truthy value but True, then False |
| PublishedCity.LaunchStatusProtected | models/city.py:93-98 | launch_status stays published whatever is written to is_active |
| PublishedCity.ApprovalIsSticky | models/city.py:63-69 | once approved, every later write to the instance goes through |
| ImportQueue.WorkerLimitInRange | routers/admin_import_queue.py:147-147 | the worker limit is in 1..5 for every integer, and the requested number when that is in range |
| ImportQueue.AdmissionControl.RunImportQueueOnce | routers/admin_import_queue.py:123-155 | each statement of the handler, with its locked block and early raise, is one step of the admission protocol and keeps its invariant |
| ImportQueue.AdmissionControl.RunQueueOnceIsolated | routers/admin_import_queue.py:103-120 | each statement of the worker thread likewise, through its except and finally blocks, however the iteration, the logger call and the record of the failure end |
| ImportQueue.OneIterationAtATime | routers/admin_import_queue.py:31-32 | in every interleaving at most one iteration is under way; the flag is true exactly from admission to the final clear, or for ever after a failed start; every scheduled limit is in 1..5 |
| ImportQueue.AnswersMatch | routers/admin_import_queue.py:136-155 | in every interleaving a request that finds the setting off is answered "blocked" and gets no thread, and one that finds it on never is; it is answered with a conflict only if never admitted, and "scheduled" with its clamped limit, or a failed start, only if admitted |
| ImportQueue.FlagDecides | routers/admin_import_queue.py:143-146 | checked under the lock, a clear flag admits the request and a set one sends it away |
| ImportQueue.OnlyTheLoggerEscapes | routers/admin_import_queue.py:104-120 | in every run an Exception escapes from a worker thread exactly when the logger call outside the inner try raises it, and any other exception exactly when the thread's code raises it |
| ImportQueue.FailureIsRecorded | routers/admin_import_queue.py:104-117 | a failed iteration is logged and then recorded before the thread goes for the lock |
| ImportQueue.FlagClearedOnEveryWayOut | routers/admin_import_queue.py:118-120 | whatever is on its way out of the thread, the flag is cleared and the lock released |
| ImportQueue.EscapeIsReachable | routers/admin_import_queue.py:105-107 | a concrete run in which an Exception escapes |
| ImportQueue.AdmissionRecoverable | routers/admin_import_queue.py:143-154 | in every reachable state a later request can be admitted exactly when no admitted request's thread failed to start |
| ImportQueue.AbandonedBlocksForEver | routers/admin_import_queue.py:146-154 | after a failed start the flag stays set and nothing is admitted, in every continuation |
| ImportQueue.FailedStartIsReachable | routers/admin_import_queue.py:143-154 | one request is enough to get there |
| ImportSummary.CleanIsOneLine | scripts/build_import_status_summary.py:29-34 | cleaning is idempotent and leaves no whitespace but single spaces |
| ImportSummary.CleanMeaning | scripts/build_import_status_summary.py:29-34 | what is printed is the value's text, character for character, with each stretch of whitespace between two of them made one space and the rest dropped; "true", "false" and nothing for truth values and None |
| ImportSummary.BuildSummary | scripts/build_import_status_summary.py:65-78 | the display and the two updates do not overlap: each fixed key once, in source order, with its value |
| ImportSummary.BaseValueMeaning | scripts/build_import_status_summary.py:25-78 | each value is the one the payload's own fields prescribe: which of several fields wins, what counts as absent or empty, and what is counted |
| ImportSummary.WarningKeysDistinct | scripts/build_import_status_summary.py:80-87 | the numbered keys are pairwise distinct for any number of warnings |
| ImportSummary.DecimalIsNumeral | scripts/build_import_status_summary.py:84-84 | the numbers in keys and counts are the plain decimal numerals |
| ImportSummary.WarningLinesMeaning | scripts/build_import_status_summary.py:80-87 | every warning has its own two entries, in order, and there are no others |
| ImportSummary.WarningMeaning | scripts/build_import_status_summary.py:80-84 | a warning's step is its own field, its error the first of three that counts as true, or the warning itself when it is a string |
| ImportSummary.PrintParseRoundTrip | scripts/build_import_status_summary.py:89-93 | splitting each printed line at its first '=' gives back one entry per key, in order, with the cleaned value |
| ImportSummary.Summarise | scripts/build_import_status_summary.py:89-93 | for every payload the lines are key=value in the fixed order followed by the later warnings, they parse back, and under each fixed key and each warning's two keys they show what the payload's own fields say |
| OrderedDict.MergeMeaning | scripts/build_import_status_summary.py:91-91 | merging two dicts keeps the first one's order, takes both key sets, and lets the second win |
| OrderedDict.MergeOrder | scripts/build_import_status_summary.py:91-91 | a merge keeps the first dict's order and appends the second one's new keys in theirs |
| CoverageSummary.NormIdempotent | scripts/ci_coverage_summary.py:12-13 | normalising a path twice is normalising it once |
| CoverageSummary.NormMeaning | scripts/ci_coverage_summary.py:12-13 | a leading stretch of dots and slashes goes, every other backslash becomes a slash, and nothing else changes |
| CoverageSummary.SameFile | scripts/ci_coverage_summary.py:62-69 | the loop over prefixes computes the variants; the "./frontend/" one can never apply to a normalised path |
| CoverageSummary.SameFileMeaning | scripts/ci_coverage_summary.py:62-69 | two paths are the same file when, normalised, one ends with the other in whole segments, with or without the changed one's leading "frontend/" |
| CoverageSummary.IsChangedMeaning | scripts/ci_coverage_summary.py:72-73 | a file is changed when it is the same file as some changed path |
| CoverageSummary.SelectionIsSubsequence | scripts/ci_coverage_summary.py:76-90 | for every group name, with any number of suffixes, the selection is an order-preserving subsequence of the files |
| CoverageSummary.SelectionExact | scripts/ci_coverage_summary.py:76-90 | a group selects exactly the files that qualify, each as often as measured |
| CoverageSummary.BackendGroups | scripts/ci_coverage_summary.py:82-85 | which path segments put a file into a backend group |
| CoverageSummary.FrontendGroups | scripts/ci_coverage_summary.py:86-90 | the same for the frontend groups |
| CoverageSummary.SelectionFromRoot | scripts/ci_coverage_summary.py:76-79 | stacked suffixes filter the root group once |
| CoverageSummary.ChangedGroupWithinBase | scripts/ci_coverage_summary.py:136-145 | a changed group's totals stay within its base group's, every group's totals only grow with the changed set, and every percentage lies in 0..100 |
| CoverageSummary.PctMeaning | scripts/ci_coverage_summary.py:93-94 | the percentage times the total is a hundred times the covered lines, and 0 without lines |
| CoverageSummary.ReadCobertura | scripts/ci_coverage_summary.py:24-34 | the loop keeps the named classes with lines, in document order and as often as they occur |
| CoverageSummary.MeasuredMeaning | scripts/ci_coverage_summary.py:27-33 | a class is kept when it is named and has lines; its covered lines are those hit at least once |
| CoverageSummary.FilesOfMeaning | scripts/ci_coverage_summary.py:27-33 | exactly those classes are among the files, none covering more lines than it has |
| Cors.OriginsAreTheTrimmedPieces | core/cors.py:4-7 | never empty; items trimmed, non-empty, comma-free; input order and repetitions kept |
| Cors.PiecesMeaning | core/cors.py:5-5 | the pieces are the stretches between commas, each stripped |
| Text.StripMeaning | core/cors.py:5-5 | stripping takes off the whitespace at both ends, all of it and nothing else |
| Cors.ParseIsFixedPoint | core/cors.py:4-7 | parsing the comma-join of a result gives the same result, for every input |
| EligibilityDrift.BuildReport | scripts/audit_route_eligibility_drift.py:28-48 | every counter is the count it stands for, city by city and reason by reason, none is idle, and their sums are conserved, for every list of places |
| EligibilityDrift.CounterMeaning | scripts/audit_route_eligibility_drift.py:31-36 | under a city and a name stand the places of that city with that verdict plus those with that first reason |
| EligibilityDrift.GlobalMeaning | scripts/audit_route_eligibility_drift.py:37-40 | the global counts are the eligible, the excluded and the unknown-category places |
| EligibilityDrift.CountersDetermined | scripts/audit_route_eligibility_drift.py:30-47 | those counts leave one possible report for each list of places |
| EligibilityDrift.MarkedTotal | scripts/audit_route_eligibility_drift.py:31-36 | one increment of a nested counter adds one to the sum over all cities |
| EligibilityDrift.ColumnsAgree | scripts/audit_route_eligibility_drift.py:31-47 | eligible + excluded = places; all per-city counters sum to twice that; the per-city columns meet the global counts (with the places without reasons counted again) exactly when no first reason code is one of the two words |
| EligibilityDrift.ColumnsCanDisagree | scripts/audit_route_eligibility_drift.py:34-36 | two places with such reason codes make both columns disagree |
| EligibilityDrift.ShippedColumnsAgree | services/route_eligibility_policy.py:65-188 | with the shipped evaluator, which uses neither word and finds a place eligible exactly when it has no reason, the columns always agree |

## Left out

- MatchRule: `method.upper()` is modelled on ASCII letters, which is all an HTTP method holds.
- Call: the client address, the rate-limit store and the shipped rule table; the store's verdict for each rule is an arbitrary boolean and the table an arbitrary sequence.
- BufferBody: a server that keeps sending empty non-final pieces is followed for ever by the source; the model speaks of every finite prefix instead.
- Validate: the errors are the (flag, dependency) pairs; the wording of the message is not modelled.
- BuildReport: the counts over place titles, addresses, images, categories and stored eligibility, which come from code outside this model.
- Clean: Python's text of numbers, lists and dicts is an arbitrary function of the value.
- ReadCobertura: XML parsing; the Vitest reader, whose files may claim more covered lines than they have, so that percentages have no upper bound there.
- ResolveCommittedLaunch: the approved-caller test that walks the call stack is a boolean given with each write; bulk SQL updates and rows changed by another session are not modelled.
- Asyncio internals beyond shields, task outcomes, done-callbacks and events; cancellation of the batch task itself at event-loop teardown; the test-environment switch at the top of `start`; logging and wall-clock time.
- Rows locked by another transaction, which a cleanup statement skips: undisturbed runs are those without them.
- The stalled-job recovery endpoint and the queue summary of the import router: database work behind services outside this model.
- The other three schedulers, which hand over ownership before their worker thread has ended, so that the properties proved here are not theirs.
- Feature-flag names as strings and the HTTP 404 helper; the request dependency wiring; schemas, table declarations, other routers, monitors and migrations.
- Coverage risk levels, targets and report text.
