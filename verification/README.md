# Verified model of a self-hosted comma backend

A Dafny 4.11 model of the parts of the backend that hold state or arithmetic, with proofs of what they
promise together. Run `dafny verify dfyconfig.toml` to check all of it.

SQL tables are values (maps or sequences with their unique keys), SQL statements are functions or methods
over them, NULL is `Option.None`, and each request handler is one atomic step. Code that changes state in
place is a class with methods proved against a function of the old state; code that only computes is a
function with lemmas about it. Instants and durations are unbounded integers; where Go's integer width can
show (`int32` totals and segment numbers, the `int64` product behind a GPS time) the wrap is written out.

| files | what they model |
|---|---|
| `WatchlistMerge`, `PlateTables`, `PlateMerge`, `PlateStore` | plate identity: detections, encounters and watchlist, the merge and correction requests with their transaction, and what they keep |
| `Aggregator`, `Reaggregation` | the encounters of a route, and when re-running the collected routes is enough after a merge or correction |
| `WatchlistRuns` | the watchlist state machine over whole runs |
| `Retention`, `RetentionPolicy` | tiered deletion and the orphan sweep, and which evidence each watchlist request preserves |
| `BackfillJobs`, `BackfillWalk`, `BackfillWorker` | the job controller, its keyset queries, and the worker that walks the routes under pauses and shutdowns |
| `Decimal`, `UploadPaths`, `SegmentUploads`, `UploadStorage`, `DataRequests` | on-demand uploads: minting addresses, signing them, parsing the PUT, storing the file, setting the flag, recounting, completing, and the one-hour window |
| `WarnLimiter`, `LoginLimiter` | a lock-free limiter under every interleaving, and a sliding window filtered in place |
| `RouteMetadata`, `Signals`, `RouteListing` | track and time window of a log, a cache that must agree with recomputation, and pages of a filtered list |
| `Common`, `Ordering` | options, and what WHERE, ORDER BY and order-preserving updates do to rows |

## Where the code does not do what it or its comments suggest

Each is stated as a lemma with the exact condition under which the expected behaviour does hold, beside a
concrete input, a run or a whole family on which it does not.

- The aggregator writes encounters with the status "open" (`internal/worker/alpr_aggregator.go:408`), which the
  table's CHECK refuses (`sql/migrations/015_alpr_schema.up.sql:118-119`). A re-run of a route that has a detection
  therefore always rolls back (`PlateStore.Store.Persist`, `SomethingToWriteIff`), and a table of encounters that
  starts empty stays empty for good (`EncountersStayEmpty`). On tables in step, the routes collected for a merge or a
  correction are the right ones. After a merge the re-runs put everything in step if and only if the status is
  admitted or the two plates were never seen on one route within the gap of each other (`MergeReaggregationIff`,
  `OpenStatusMergeIff`). After a correction they do so if and only if the status is admitted or the plate did not
  change (`CorrectionReaggregationIff`, `OpenStatusCorrectionIff`): otherwise the row that covered the detection
  still counts it (`CorrectedRouteOutOfStep`).
- A pause noticed inside a route ends the route early but still counts it, and the walk never returns to a counted
  route (`CountedRouteNotRetried`). A finished job has extracted everything exactly when no pause fell inside a route
  with an open segment (`FinishedExtractsIff`, `PauseLosesSegment`). The comment on `processRoute` says that the
  next pass retries a segment that failed; the token makes it pass by (`FailedSegmentNotRetried`).
- The worker reads a job's state and writes a new one in two statements. A write that comes late is safe exactly for
  the newest unfinished job or when it changes nothing (`StaleWriteSafeIff`); a cancel in between is undone
  (`CancelledJobRevived`) or leaves a done job with an error (`CancelledJobDone`).
- The count query looks upward from the token, so in a newest-first job it does not count what remains, although
  the comment on its caller names it for resuming (`CountIsRestIff`, `NewestFirstMiscounted`). A blank dongle id is
  "all devices" to the handler and a name to the worker (`ReadersAgreeIff`, `BlankDongleMiscounted`). Two devices
  with one route name break the walk (`ResumableIff`, `NamesakeLost`).
- The completion test compares all uploads with the files missing at the start, so it can pass early and the
  percentage can pass 100 (`CompletionRightIff`, `PercentRange`, `CompletesEarly`). A request for nothing shows 100
  percent and is never completed (`FullExactlyWhenComplete`).
- The one-hour window holds exactly while no request finds a failed row, latest of its key, that shares its instant
  with a live one less than an hour old (`AnswersKeepSpacedIff`, `WindowHoldsIffNeverUnlucky`). Such a tie is
  reachable (`TieReached`) and defeats the window (`TieDefeatsWindow`).
- Two logins checked before either is recorded defeat the login limit (`RecordKeepsRate`, `ConcurrentLoginsExceed`);
  two log writes at one instant leave a stale cache in use (`WriteKeepsCacheTrueIff`, `TieServesStale`).
- A NULL among the flagged hashes stops the unflagged tier from deleting anything (`TierPolicy`, `NullStopsPruning`).
  The schema says of the alert events that they are kept for good; the cleanup deletes the old ones of plates that
  are not listed (`Retention.RunOnce`).
- A merge into a whitelisted plate can put alert columns on a whitelist row (`StepKeepsClean`, `RunKeepsCleanIff`,
  `WhitelistGainsSeverity`).
- A PUT for a route called "boot" or with a slash in its name is refused (`PutReachesSegmentIff`,
  `MisroutedPutRefused`), and a segment number of 2^31 or more is tracked on another segment
  (`PutTracksOwnSegmentIff`, `WidePutMarksSegmentZero`).
- A set flag means a file where readers look, as long as segments are spelled as in minted links and no upload is
  cut off over the only file of a flag (`UploadsKeepBackedIff`). A segment spelled "05" flags segment 5 and lies in
  another directory (`LiesWhereReadIff`, `PaddedSegmentMisplaced`); a second upload that is cut off removes the file
  and leaves the flag (`CutOffLosesFile`); a route called "." or ".." is stored outside its own directory, ".." in
  one that all devices share (`OwnDirectoryIff`, `DevicesShareUpPlace`).
- GPS milliseconds beyond the 64-bit range can pass for a plausible time (`GpsTimeExactIff`, `WrappedTimeAccepted`).
  The package comment speaks of Euclidean distance between points; the code compares each axis, and so does the
  model. The same comment names carState as a time source; the code takes no time from it, nor does the model.

## Model

| member | source | states |
|---|---|---|
| WatchlistMerge.MergeAssociative | internal/api/alpr_corrections.go:768-815 | merging watchlist columns is associative in all five columns |
| WatchlistMerge.MergeCommutative | internal/api/alpr_corrections.go:768-815 | direction matters for the notes only, and exactly when both orders of concatenation read differently |
| WatchlistMerge.MergeTreeSummary | internal/api/alpr_corrections.go:768-850 | any grouping of merges of non-negative severities gives the maximum severity, earliest first and latest last alert, and is acknowledged exactly when every row was, at the latest time |
| WatchlistMerge.GroupingIrrelevant | internal/api/alpr_corrections.go:768-815 | the result of many merges, notes included, does not depend on the grouping |
| PlateTables.UpsertEncounterRows | internal/db/alpr_encounters.sql.go:559-602 | an upsert succeeds exactly for a status the CHECK admits, and then leaves exactly its row on its key, keeps all other rows and is idempotent |
| PlateTables.UpsertEncounterKeeps | sql/migrations/015_alpr_schema.up.sql:90-140 | it keeps the unique key, the status check and the id sequence ahead of the rows |
| PlateTables.RenameWatchUnique | internal/db/alpr_watchlist.sql.go:353-371 | a rename passes the partial unique index exactly when not both plates have a row |
| PlateTables.UpsertWatchRow | internal/db/alpr_watchlist.sql.go:418-520 | an insert-or-update changes the row of its own plate only and keeps hashes unique |
| PlateMerge.RenameEncountersUnique | internal/db/alpr_encounters.sql.go:14-46 | the encounter rename passes the unique index exactly when no two encounters of the plates start at the same instant of a route |
| PlateMerge.MergeWatchRow | internal/api/alpr_corrections.go:480-515 | after the watchlist part of a merge the source's row is gone, the destination keeps kind and label with merged columns or is the renamed row, and no other plate's row changes |
| PlateMerge.MergeMovesIdentity | internal/api/alpr_corrections.go:465-534 | after a merge no row of any table carries the source hash, and a plate is known exactly if it was or if it is the destination of a known source |
| PlateMerge.MergeKeepsEvidence | internal/api/alpr_corrections.go:465-479 | if every encounter had a detection of its plate in its window it still has after a merge, so an orphan sweep then deletes nothing |
| PlateMerge.HalfMergedEvidence | internal/api/alpr_corrections.go:465-479 | between the two renames exactly the source's encounters lack evidence and a sweep would delete them |
| PlateMerge.CorrectionEvidence | internal/api/alpr_corrections.go:287-294 | a correction orphans an encounter exactly when the detection was its only evidence and the plate really changed |
| PlateMerge.MergeChainKeepsTables | internal/api/alpr_corrections.go:465-534 | any chain of committed merges keeps all unique keys and the evidence of every encounter |
| PlateMerge.MergeChainComposes | internal/api/alpr_corrections.go:465-534 | a chain of merges acts on detections and encounters as the composition of its renamings and changes, adds and loses nothing else |
| PlateMerge.MergedAwayStaysAway | internal/api/alpr_corrections.go:465-534 | no detection returns to a plate that was merged away and is no later destination |
| PlateStore.Store.CollectAffectedRoutesForMerge | internal/api/alpr_corrections.go:662-705 | each route of either plate once, as far as the route queries answered |
| PlateStore.Store.CollectAffectedRoutes | internal/api/alpr_corrections.go:615-660 | the edited detection's own route first, then each route of the new plate's detections and the old plate's rows once |
| PlateStore.Store.MergeStatements | internal/api/alpr_corrections.go:465-534 | the statements succeed together exactly when nothing fails and no encounter key collides, and then yield the merged tables |
| PlateStore.Store.MergePlates | internal/api/alpr_corrections.go:386-585 | a merge commits as a whole or leaves every table as it was: every row of the source becomes the destination's with its other columns as they were, the destination's watchlist row keeps kind and label and takes the larger severity, the earliest first and latest last alert, the later of two acks and its own notes before the source's, and the audit log gains this merge; without outside failures it fails exactly on a collision and is refused exactly for bad input or unknown plates |
| PlateStore.CollidesIff | internal/api/alpr_corrections.go:465-479 | what a merge fails on: an encounter of each plate starting at the same instant on one route of one device |
| PlateStore.WatchlistMoved | internal/api/alpr_corrections.go:480-515 | the watchlist after a merge, column by column |
| PlateStore.Store.EditDetection | internal/api/alpr_corrections.go:211-354 | a correction gives one detection the new hash and the new ciphertext, marks it corrected, leaves its other columns and every other row alone and adds its one audit entry, or changes nothing; it is accepted exactly for a known row, a plate and a permitted device, and hints at a merge exactly when the new plate is on the watchlist |
| PlateStore.Store.PersistEncounters | internal/worker/alpr_aggregator.go:378-422 | succeeds exactly when no call fails and nothing is to be written or the status written is admitted; then the route holds exactly the computed encounters and no other route changes, otherwise nothing changes |
| PlateStore.Store.Persist | internal/worker/alpr_aggregator.go:398-414 | with the status the code writes it succeeds, faults aside, exactly for a route without encounters |
| Aggregator.EncountersForPlateBucket | internal/worker/alpr_aggregator.go:535-567 | the one-pass loop yields exactly the maximal stretches of sightings without a pause above the gap |
| Aggregator.CountsConserved | internal/worker/alpr_aggregator.go:535-567 | the counts of a plate's encounters add up to its detections |
| Aggregator.AggregateHasEvidence | internal/worker/alpr_aggregator.go:480-533 | every aggregated encounter has a detection of its plate inside its window |
| Aggregator.AggregateKeysDistinct | internal/worker/alpr_aggregator.go:480-533 | encounters of a route never share a unique key unless the gap is negative |
| Aggregator.DetectionsCovered | internal/worker/alpr_aggregator.go:480-567 | every detection lies in the window of an encounter of its plate and route |
| Aggregator.AggregatesIff | internal/worker/alpr_aggregator.go:480-567 | what the loop over sorted buckets computes, said without an order: the encounters of a plate are the summaries of the linked stretches of its sightings that all its others are far from |
| Aggregator.EncountersAre | internal/worker/alpr_aggregator.go:480-567 | the same in columns: the first and last time of its detections, their number and their longest pause in whole seconds, over detections with no pause above the gap that all others are further than the gap from |
| Reaggregation.SyncedIsEvidenced | internal/db/alpr_encounters.sql.go:86-108 | tables in step with the aggregator hold no orphan encounter |
| Reaggregation.SomethingToWriteIff | internal/worker/alpr_aggregator.go:480-533 | a route has an encounter to write exactly when it has a detection |
| Reaggregation.ReaggregateRoute | internal/worker/alpr_aggregator.go:378-422 | one re-run goes through exactly when the status is admitted or the route has no detection, and then the route shows its aggregation and all others stay |
| Reaggregation.MergedRouteInSyncIff | internal/api/alpr_corrections.go:465-479 | renamed rows of a route are in step without a re-run if and only if the two plates were never seen on it within the gap of each other |
| Reaggregation.MergeReaggregationIff | internal/api/alpr_corrections.go:536-541 | after a merge and the re-runs of the routes collected before it every route of every device is in step, if and only if the status is admitted or no sightings of the two plates on one route lie within the gap |
| Reaggregation.CorrectedRouteOutOfStep | internal/api/alpr_corrections.go:287-294 | a detection that changed its plate leaves its route out of step |
| Reaggregation.CorrectionReaggregationIff | internal/api/alpr_corrections.go:316-336 | after a correction and the re-runs everything is in step, if and only if the status is admitted or the plate did not change |
| Reaggregation.OpenStatusMergeIff | internal/worker/alpr_aggregator.go:408 | with the status the code writes a merge leaves the tables in step exactly when the plates were never seen together within the gap |
| Reaggregation.OpenStatusCorrectionIff | internal/worker/alpr_aggregator.go:408 | with that status a correction leaves them in step exactly when it changed no plate |
| Reaggregation.EncountersStayEmpty | internal/worker/alpr_aggregator.go:398-414 | with that status an empty table of encounters stays empty over every run of detections, merges, corrections, retention and re-runs, and is in step exactly without detections |
| WatchlistRuns.StepRow | internal/db/alpr_watchlist.sql.go:353-646 | every request acts on the one row of its plate as specified and keeps the table's constraints, the check on the severity included |
| WatchlistRuns.ClearingUpsertNeedsCallRule | internal/db/alpr_watchlist.sql.go:418-475 | the clearing upsert keeps a row from weakening exactly when the new severity is not lower |
| WatchlistRuns.StepKeepsAlert | internal/alpr/heuristic/worker.go:417-462 | short of whitelisting and removal a plate stays listed, no milder and first alerted no later, and loses an ack exactly by strict upgrade, unack, or merging with an unacknowledged row |
| WatchlistRuns.StepKeepsTimes | internal/db/alpr_watchlist.sql.go:418-571 | first alert never exceeds last alert while alert times do not go backwards |
| WatchlistRuns.StepKeepsClean | internal/api/alpr_corrections.go:480-515 | whitelist rows stay free of alert columns exactly unless such a row is merged into a whitelisted plate |
| WatchlistRuns.WhitelistGainsSeverity | internal/api/alpr_corrections.go:480-515 | a run of three requests after which a whitelist row has a severity |
| WatchlistRuns.RunKeepsAlert | internal/db/alpr_watchlist.sql.go:418-646 | over every run and through any merges a plate's severity never falls and its first alert never moves later until it is whitelisted or removed |
| WatchlistRuns.RunSeverities | internal/alpr/heuristic/worker.go:417-462 | over every run from an empty list every severity of a plate lies from 2 to 5 |
| WatchlistRuns.RunKeepsAckIff | internal/db/alpr_watchlist.sql.go:418-646 | an acknowledgement lasts through a run if and only if no step of it is a strict upgrade of the plate, an unack or a merge with an unacknowledged row |
| WatchlistRuns.RunKeepsCleanIff | internal/api/alpr_corrections.go:480-515 | whitelist rows stay free of alert columns through a run if and only if no step merges a row that has some into a whitelisted plate |
| WatchlistRuns.Desk.EvaluatePlate | internal/alpr/heuristic/worker.go:417-462 | what becomes of every column of the plate's row for each score and kind of row, the last alert at the time of a new or stricter alert and an acknowledgement cleared by a strict upgrade, no other plate's row touched, and an alert sent exactly for a new row or a strict upgrade |
| WatchlistRuns.Desk.AddToWhitelist | internal/api/alpr_watchlist.go:650-750 | whitelisting clears all alert columns and reports the silenced alert if there was one |
| WatchlistRuns.Desk.RemoveWhitelistEntry | internal/api/alpr_watchlist.go:759-825 | only a whitelist row is removed, an alert is refused |
| Retention.ListFlaggedPlateHashes | internal/db/alpr_watchlist.sql.go:212-255 | the list holds exactly the hashes of flagged rows, and NULL exactly when a signature-keyed row is flagged |
| Retention.PrunesLeaveSurvivors | internal/db/alpr_detections.sql.go:39-80 | the two deletes together leave exactly the detections at or after their own tier's cutoff |
| Retention.PrunesCommute | internal/db/alpr_detections.sql.go:39-80 | the deletes commute and are idempotent |
| Retention.NullStopsPruning | internal/db/alpr_detections.sql.go:57-80 | a NULL in the flagged set makes the unflagged delete keep everything |
| Retention.TierPolicy | internal/db/alpr_detections.sql.go:57-86 | a flagged plate keeps what the ceiling allows; an unflagged one keeps exactly its own window if and only if the ceiling is not later and no NULL is flagged (or both cutoffs coincide) |
| Retention.FlaggedIffRow | internal/db/alpr_watchlist.sql.go:212-230 | a plate is in the flagged tier exactly through an alert that is open or of severity 4 and above |
| Retention.RunOnce | internal/worker/alpr_cleanup.go:191-262 | a pass keeps, said in columns, exactly what its four tiers leave whichever of them fail: a detection of a plate whose alert is open or of severity 4 and above that is not older than the ceiling, any other that is older than neither cutoff; it reports any failure, keeps exactly the alert events that are younger than 90 days or of listed plates, and leaves no orphan encounter when it succeeds |
| Retention.EarlierPassesIrrelevant | internal/worker/alpr_cleanup.go:191-262 | earlier passes leave no mark on detections or encounters |
| Retention.SweepKeepsEvidence | internal/db/alpr_encounters.sql.go:86-108 | the sweep keeps an encounter exactly when one of its detections survives |
| RetentionPolicy.AlertKeepsEvidence | internal/db/alpr_watchlist.sql.go:212-217 | after an evaluation that lists a plate or strictly upgrades it, and after an unack, a pass keeps of the plate exactly the detections not older than the ceiling |
| RetentionPolicy.AckKeepsEvidenceIff | internal/db/alpr_watchlist.sql.go:212-230 | after an ack it still does exactly for severity 4 and above, and for a milder alert keeps what the unflagged window does |
| RetentionPolicy.WhitelistKeepsToWindow | internal/db/alpr_watchlist.sql.go:212-230 | after whitelisting a plate it keeps of it exactly what the unflagged window does, unless an alert without a plate is flagged |
| BackfillJobs.StepKeepsInvariant | internal/api/alpr_backfill.go:189-430 | every handler and worker write keeps start times ordered, only the newest job running, and a finish time exactly on finished jobs |
| BackfillJobs.WorkerWrites | internal/worker/alpr_backfill.go:400-481 | what the worker's state and progress writes do to every column of the one row they touch |
| BackfillJobs.RunKeepsInvariant | internal/api/alpr_backfill.go:189-430 | over every run done and failed are final, superseded jobs never change state and progress never falls |
| BackfillJobs.HandlersReachRunningJob | internal/api/alpr_backfill.go:189-430 | in every reachable state the running job is the only one and the one the handlers read: pause and cancel reach it and a start is refused |
| BackfillJobs.ResumeReachesNewestOnly | internal/api/alpr_backfill.go:311-355 | a resume makes a job run exactly when it is the newest and paused, without ever meeting the unique index |
| BackfillJobs.StaleWriteSafeIff | internal/worker/alpr_backfill.go:400-481 | any late state write of the worker keeps the invariant and the final fields exactly for the newest unfinished job or when it changes nothing |
| BackfillJobs.CancelledJobRevived | internal/worker/alpr_backfill.go:400-412 | a run in which a cancelled job runs again |
| BackfillJobs.CancelledJobDone | internal/worker/alpr_backfill.go:423-466 | a run in which a cancelled job becomes done and keeps the error of the cancel |
| BackfillJobs.Controller.HandleStart | internal/api/alpr_backfill.go:189-279 | a job starts exactly for a valid request while none runs, with its total capped |
| BackfillJobs.Controller.HandlePause | internal/api/alpr_backfill.go:304-430 | pauses the latest job if running and otherwise reports its state |
| BackfillJobs.Controller.HandleResume | internal/api/alpr_backfill.go:311-355 | resumes exactly a latest job that is paused and that the index admits |
| BackfillJobs.Controller.HandleCancel | internal/api/alpr_backfill.go:361-392 | fails the latest job unless finished, and reports how it stands |
| BackfillWalk.ReadersAgreeIff | internal/api/alpr_backfill.go:437-452 | handler and worker read a job's filters alike exactly when the dongle id is empty or not blank |
| BackfillWalk.BlankDongleMiscounted | internal/api/alpr_backfill.go:437-452 | a filter of one space counts a route that the worker does not list |
| BackfillWalk.AllRoutesSorted | internal/db/alpr_backfill_jobs.sql.go:217-231 | the walk holds exactly the selected routes in strict order of name and id |
| BackfillWalk.JobRoutesAre | internal/db/alpr_backfill_jobs.sql.go:217-300 | a job walks exactly the table's routes of its device that start at or after its first date and before its last, by name and then id, upward or downward |
| BackfillWalk.WindowsSplit | internal/db/alpr_backfill_jobs.sql.go:217-300 | the jobs of two windows that meet share no route and together have those of the whole window, and their counts add up |
| BackfillWalk.CountIs | internal/db/alpr_backfill_jobs.sql.go:14-25 | a handler counts exactly the routes asked for, a blank device standing for all |
| BackfillWalk.TokenLeavesRest | internal/db/alpr_backfill_jobs.sql.go:217-300 | in both directions the token after k routes leaves exactly the routes from k on |
| BackfillWalk.ResumableIff | internal/db/alpr_backfill_jobs.sql.go:217-300 | every resume finds exactly the rest if and only if the job's route names are distinct and not empty |
| BackfillWalk.NamesakeLost | internal/db/alpr_backfill_jobs.sql.go:217-300 | two devices with a route of one name: a resume after the first finds nothing |
| BackfillWalk.CountFromToken | internal/db/alpr_backfill_jobs.sql.go:14-25 | the count from a token is what remains of an ascending walk, but what was passed before the last route of a descending one |
| BackfillWalk.CountIsRestIff | internal/api/alpr_backfill.go:433-436 | a count on resume is what remains exactly at the start, in an ascending job, or in the middle of a descending one |
| BackfillWalk.NewestFirstMiscounted | internal/db/alpr_backfill_jobs.sql.go:14-25 | a newest-first job of two routes, paused between them, counts none while one is left |
| BackfillWorker.Worker.FetchRouteBatch | internal/worker/alpr_backfill.go:488-501 | a batch is the next so many routes of the walk, 50 of them if no size is set, and empty only at its end |
| BackfillWorker.Worker.ProcessRoute | internal/worker/alpr_backfill.go:530-584 | a route is cut short exactly when a check fails before its last segment, and the marks are those of the segments dealt with |
| BackfillWorker.Worker.PassRoute | internal/worker/alpr_backfill.go:468-478 | the route is counted unless a shutdown cut it short or came before the progress write, so also when a pause cut it short |
| BackfillWorker.WalkFollows | internal/worker/alpr_backfill.go:380-481 | the specified pass takes up the next routes in order, never beyond the goal, reports the end exactly there, and gets there when nothing stops it |
| BackfillWorker.Worker.ProcessJob | internal/worker/alpr_backfill.go:380-481 | a pass in batches of any size is exactly the specified one, and moves the job row and the marks by what it counted and dealt with |
| BackfillWorker.Worker.Run | internal/worker/alpr_backfill.go:322-370 | any number of interrupted passes is exactly the specified run, with the job row and the marks it leaves |
| BackfillWorker.RunCountsEachOnce | internal/worker/alpr_backfill.go:380-481 | over any number of interrupted passes the routes counted are the job's routes in order, each once, and a finished job has counted them all up to its ceiling |
| BackfillWorker.MarksAre | internal/worker/alpr_backfill.go:530-584 | a segment is marked exactly when it was before or was dealt with and did not fail |
| BackfillWorker.CountedRouteNotRetried | internal/worker/alpr_backfill.go:468-478 | no later pass marks a segment of a counted route |
| BackfillWorker.FinishedExtractsIff | internal/worker/alpr_backfill.go:530-584 | a finished job has extracted every segment that does not fail if and only if no pass was paused inside a route that still had one open |
| BackfillWorker.ShutdownsLoseNothing | internal/worker/alpr_backfill.go:468-478 | a job stopped by nothing but shutdowns, however often and wherever, has at its end extracted every segment that never failed |
| BackfillWorker.PauseLosesSegment | internal/worker/alpr_backfill.go:538-545 | a finished run with a segment never extracted |
| BackfillWorker.FailedSegmentNotRetried | internal/worker/alpr_backfill.go:525-529 | a finished run that never retried a segment which would have succeeded |
| BackfillWorker.JobRoutesDistinct | internal/db/alpr_backfill_jobs.sql.go:217-231 | the routes of a job have different ids, as the results on its runs ask |
| BackfillWorker.GoalIsTotal | internal/api/alpr_backfill.go:221-249 | the total stored at the start is where the walk ends, when handler and worker read the filters alike and the count fits the column |
| Decimal.AtoiItoa | internal/api/upload.go:518-521 | parsing undoes formatting on all 64-bit integers |
| Decimal.ItoaTen | internal/api/upload.go:518-521 | numbers are written in base ten, the highest digit first |
| UploadPaths.UploadPathRoundTrip | internal/api/upload.go:504-524 | a minted path parses back exactly when the route is named and slash-free and the segment not negative |
| UploadPaths.PutReachesSegmentIff | internal/api/upload.go:274-352 | a PUT reaches its own segment file exactly when, besides, the route is not "boot" and the file type is accepted |
| UploadPaths.MisroutedPutRefused | internal/api/upload.go:274-352 | a PUT for a route called boot or with a slash in its name is refused |
| UploadPaths.DevicePathRoundTrip | internal/api/upload.go:448-473 | the device's name of a file parses back exactly when the route is named and slash-free and the segment not negative, even if the route ends in dashes |
| UploadPaths.BootPathRoundTrip | internal/api/upload.go:481-498 | a boot log's path parses back exactly when its id is not empty and holds no separator and no two dots in a row |
| UploadPaths.PayloadInjective | internal/api/upload_signature.go:35-40 | the signed message determines path and expiry, whatever the path contains |
| UploadPaths.SignatureBindsPathAndExpiry | internal/api/upload_signature.go:70-92 | a signature that opens a path opens its own, with its own expiry and until then, or two different messages share a MAC |
| UploadPaths.SignedUrlVerifies | internal/api/upload_signature.go:45-55 | the parameters written into the URL verify exactly until the expiry |
| UploadPaths.UploadPathInjective | internal/api/upload.go:274-300 | an upload path determines the device and the path after it |
| UploadPaths.SignedLinkAdmitsOwnPut | internal/api/upload_signature.go:70-92 | a link signed for a segment file admits, a MAC collision aside, no PUT but that of this file by this device, until it expires |
| SegmentUploads.KindsAreTrackable | internal/api/route_data_request.go:445-484 | every requested file is tested by the very flag its upload sets, each by its own |
| SegmentUploads.AcceptedNames | internal/api/upload.go:60-74 | the accepted names are a log plain or compressed, a camera's video finished or not, and the preview |
| SegmentUploads.StemColumn | internal/api/upload.go:412-443 | an accepted file sets the column that is named as the file is up to its first dot |
| SegmentUploads.SameFlagIff | internal/api/upload.go:60-74 | two accepted files set the same flag exactly when they agree up to the first dot |
| SegmentUploads.RequestedFiles | internal/api/route_data_request.go:445-466 | the files that each kind of request asks for, and that there is no other kind |
| SegmentUploads.BuildUploadItems | internal/api/route_data_request.go:500-531 | one item for each missing file of each segment, in order, with the address that the PUT goes to and the device's own name of the file |
| SegmentUploads.CountUploadedForKind | internal/api/route_data_request.go:542-556 | the loop counts the wanted files whose flag is set |
| SegmentUploads.CountsConserved | internal/api/route_data_request.go:500-556 | minted plus uploaded is segments times wanted files |
| SegmentUploads.PutRemovesCovered | internal/api/upload.go:356-443 | a PUT of any accepted file takes exactly the file of the same segment off the list that agrees with it up to the first dot |
| SegmentUploads.PutRemovesItsItem | internal/api/upload.go:356-443 | a PUT to a minted address leaves exactly the other items to mint |
| SegmentUploads.PutsLeaveOthers | internal/api/upload.go:356-443 | any uploads of accepted files, wanted or not, in any order and multiplicity leave exactly the items of which no file of the same segment and the same name up to the first dot was uploaded |
| SegmentUploads.AllPutsLeaveNone | internal/api/route_data_request.go:500-531 | uploading all minted items leaves none |
| SegmentUploads.PutTracksOwnSegmentIff | internal/api/upload.go:356-409 | a PUT sets its flag on the segment of the number's low 32 bits and touches no other, and that is the segment named exactly below 2^31 |
| SegmentUploads.WidePutMarksSegmentZero | internal/api/upload.go:389-395 | a PUT for segment 2^32 marks the file of segment 0 |
| UploadStorage.OwnDirectoryIff | internal/storage/storage.go:33-45 | a PUT is stored in its own route's directory if and only if the route is not called . or .., and the traversal check lets all of them through |
| UploadStorage.DevicesShareUpPlace | internal/storage/storage.go:33-45 | two devices write to one place with a route called .. |
| UploadStorage.CanonicalIff | internal/api/upload.go:356-395 | a segment is spelled as readers spell it exactly when it is the plain numeral of a number below 2^31 |
| UploadStorage.LiesWhereReadIff | internal/storage/storage.go:72-75 | a stored file lies where readers of the flagged segment look exactly when the segment is spelled that way |
| UploadStorage.PaddedSegmentMisplaced | internal/api/upload.go:504-524 | a segment with a leading zero is accepted, tracked without it and stored elsewhere |
| UploadStorage.TrackedFlags | internal/api/upload.go:356-409 | whichever statement fails the tables stay valid, and the file's own flag is the one that can be new, set exactly when none failed |
| UploadStorage.UploadKeepsBackedIff | internal/api/upload.go:320-352 | a PUT leaves every set flag backed by a file where readers look, if and only if it sets no new flag for a segment spelled otherwise and is not cut off over the only file of a set flag |
| UploadStorage.UploadsKeepBackedIff | internal/api/upload.go:274-352 | over any course of PUTs, whatever fails in them, the flags mean files throughout if and only if no PUT is one of those two |
| UploadStorage.MintedUploadsKeepBacked | internal/api/route_data_request.go:500-531 | PUTs to minted addresses that are not cut off are none of those |
| UploadStorage.PutTakesOwnStem | internal/api/upload.go:356-443 | whatever the spelling of the PUT, of the files of every kind of request it takes off exactly its own, and a preview or short log takes none off |
| UploadStorage.CutOffLosesFile | internal/storage/storage.go:57-67 | an upload cut off over a stored file leaves the flag set and the file gone |
| UploadStorage.UploadHandler.TrackUpload | internal/api/upload.go:356-409 | finds or creates route and segment and sets the file's flag, or stops where a statement fails with the earlier ones done |
| UploadStorage.UploadHandler.Store | internal/storage/storage.go:33-70 | writes the file, leaves the disk alone, or removes what it had created |
| UploadStorage.UploadHandler.UploadFile | internal/api/upload.go:274-352 | a file that is not stored is not tracked, one that cannot be tracked is stored and reported as a success, and a stored and tracked one takes off every kind of request exactly the file of its own segment and name up to the first dot, a preview or short log none |
| DataRequests.PutsCount | internal/api/route_data_request.go:405-414 | uploads never decrease and rise by exactly what they take off the missing files |
| DataRequests.CompletionRightIff | internal/api/route_data_request.go:416-433 | the completion test is right after every course of uploads exactly when nothing was uploaded at the start and something was wanted |
| DataRequests.CompletesEarly | internal/api/route_data_request.go:416-433 | a request that counts as complete at once, at 200 percent, with its file missing |
| DataRequests.FullExactlyWhenComplete | internal/api/route_data_request.go:405-420 | percentage and completion test agree for every number of uploads if and only if something was requested |
| DataRequests.PercentRange | internal/api/route_data_request.go:405-414 | the percentage never falls, and passes 100 exactly when at least one file in 101 was there at the start |
| DataRequests.AnswersKeepSpacedIff | internal/api/route_data_request.go:266-333 | under a clock that does not run backwards every answer to a request keeps the spacing if and only if no latest failed row shares its instant with a live one inside the window |
| DataRequests.WindowHoldsIffNeverUnlucky | internal/api/route_data_request.go:266-333 | along every run the rows stay spaced however ties are answered if and only if no request meets such a tie |
| DataRequests.DistinctInstantsNeverTied | internal/db/route_data_requests.sql.go:66-73 | rows with instants of their own never tie |
| DataRequests.RunKeepsSpaced | internal/api/route_data_request.go:266-333 | over every run without such a tie whatever follows a request that has not failed follows it by an hour, and failed and complete are final |
| DataRequests.RequestsAnHourApart | internal/api/route_data_request.go:266-333 | in every such run two live requests for a route and kind are at least an hour apart |
| DataRequests.TieReached | internal/api/route_data_request.go:266-333 | two requests at one instant, of which the first fails, leave such a tie |
| DataRequests.TieDefeatsWindow | internal/db/route_data_requests.sql.go:66-73 | answered by the failed one, a third request becomes live a second after the other |
| DataRequests.RequestHandler.RequestFullData | internal/api/route_data_request.go:224-333 | refuses an unknown kind or route, returns a recent live request unchanged, and otherwise mints the missing files and adds a request for exactly that many with the outcome of the dispatch |
| DataRequests.RequestHandler.GetFullDataRequest | internal/api/route_data_request.go:337-441 | for a request of this route reports the percentage and completes the request exactly by the completion test |
| DataRequests.RequestUploadPoll | internal/api/route_data_request.go:224-441 | a POST, any course of stored PUTs and a GET through the handlers: the request is complete exactly by the test against the files minted, and when none was there at the start exactly when none is missing |
| WarnLimiter.StepKeepsInvariant | internal/alpr/client.go:276-291 | every atomic operation of any goroutine keeps the count and the stamps in step |
| WarnLimiter.EveryInterleaving | internal/alpr/client.go:276-291 | under every interleaving errors counted equal errors reported plus the counter, n further stamps take n windows, and each stamp has its log line |
| WarnLimiter.SpacedApart | internal/alpr/client.go:276-291 | stamps n apart are at least n windows apart |
| WarnLimiter.SoloCall | internal/alpr/client.go:276-291 | an uninterrupted call is one of the interleavings and logs exactly when the window is over |
| WarnLimiter.Client.WarnUnreachable | internal/alpr/client.go:276-291 | one call logs exactly when the window is over and then reports all errors since the last line |
| LoginLimiter.RecentIsSuffix | internal/api/session.go:206-236 | on a history in time order the filter drops exactly a prefix |
| LoginLimiter.RecordKeepsRate | internal/api/session.go:206-236 | recording a failure keeps every six failures a window apart exactly when an attempt was still allowed |
| LoginLimiter.RefusedIff | internal/api/session.go:206-220 | an attempt is refused exactly when the fifth failure from the end is less than fifteen minutes old |
| LoginLimiter.WindowHoldsFive | internal/api/session.go:206-236 | no window of a rate-limited history holds more than five failures |
| LoginLimiter.ConcurrentLoginsExceed | internal/api/session.go:99-107 | two logins checked before either is recorded exceed the limit |
| LoginLimiter.TracksAfterPrune | internal/api/session.go:206-220 | a pruned list answers every later window as the full history does |
| LoginLimiter.SessionHandler.Prune | internal/api/session.go:211-217 | the in-place filter over a shared array keeps exactly the recent entries |
| LoginLimiter.SessionHandler.AllowAttempt | internal/api/session.go:206-220 | afterwards the stored list is the full failure history of the last window, and the answer is whether it holds fewer than five |
| LoginLimiter.SessionHandler.RecordAttempt | internal/api/session.go:224-236 | the same with the new failure at the end |
| LoginLimiter.SessionHandler.Login | internal/api/session.go:99-148 | refused exactly when the fifth failure of the address from the end is less than fifteen minutes old, otherwise recorded for this address alone unless it succeeds, and every address stays rate limited |
| LoginLimiter.ServeAll | internal/api/session.go:99-236 | over any sequence of logins from a fresh start no six failures of an address lie within less than fifteen minutes |
| RouteMetadata.Extractor.EmitPoint | internal/cereal/route_metadata.go:351-363 | appends a point exactly when it is not near the last one |
| RouteMetadata.TrackApart | internal/cereal/route_metadata.go:351-363 | neighbours on the track differ by at least epsilon on some axis |
| RouteMetadata.FixesValid | internal/cereal/route_metadata.go:67-81 | every fix is a place on earth other than (0, 0), with a plausible time or none |
| RouteMetadata.FixIff | internal/cereal/route_metadata.go:161-237 | what a fix is in columns: where a satellite fix or a valid estimate places the car, with the time it reads if that lies between 2010 and 2100 |
| RouteMetadata.FixesConcat | internal/cereal/route_metadata.go:129-237 | the fixes of two stretches of a log are those of the first and then those of the second |
| RouteMetadata.TimesAre | internal/cereal/route_metadata.go:335-345 | the times that make up the window are those some event of the log carries with a valid place |
| RouteMetadata.FirstInitIs | internal/cereal/route_metadata.go:129-160 | the initData time is that of the first event that carries one between 2010 and 2100 |
| RouteMetadata.FixCovered | internal/cereal/route_metadata.go:351-363 | every fix is on the track or within epsilon on both axes of the last point kept before it |
| RouteMetadata.DedupeIdempotent | internal/cereal/route_metadata.go:351-363 | deduping a track changes nothing, and only tracks stay unchanged |
| RouteMetadata.Extractor.NoteFallback | internal/cereal/route_metadata.go:335-345 | the window stays the least and greatest usable time |
| RouteMetadata.StartNotAfterEnd | internal/cereal/route_metadata.go:267-291 | in every branch start and end exist together, in order, and the end is the initData time or a fix time |
| RouteMetadata.WindowDependsOnTimes | internal/cereal/route_metadata.go:267-291 | start and end depend on the first plausible initData and the set of fix times alone |
| RouteMetadata.ExtractRouteMetadata | internal/cereal/route_metadata.go:129-294 | the track is the greedy dedupe of all valid fixes; the route starts at the first plausible initData time if and only if no fix has a usable time or the first of them is within a day of it, and otherwise at that first one; the end is the last usable time, or the start if that is later; a day off, the window is exactly that of the fixes, and without any both ends are the initData time |
| RouteMetadata.StartEndPromised | internal/cereal/route_metadata.go:267-291 | the drift rule keeps those promises for every initData time and window of fixes |
| RouteMetadata.OrderIrrelevant | internal/cereal/route_metadata.go:129-294 | logs with the same first initData and the same set of fix times get the same start and end |
| RouteMetadata.GpsTimeExactIff | internal/cereal/route_metadata.go:308-317 | an accepted GPS time is the event's own exactly when the nanosecond product fits 64 bits |
| RouteMetadata.WrappedTimeAccepted | internal/cereal/route_metadata.go:308-317 | a far-future reading that is taken for a time in 2017 |
| Signals.LoadIsFresh | internal/api/signals.go:159-198 | a load answers as a fresh computation whether or not its cache write succeeds, and leaves a true cache |
| Signals.RouteConcat | internal/api/signals.go:79-149 | the five columns of a list of segments are those of its first part followed by those of the rest, and there is an answer exactly when both parts have one |
| Signals.RouteOfOne | internal/api/signals.go:159-198 | a single segment answers with the columns of its rlog, else of its qlog, else with nothing |
| Signals.WriteKeepsCacheTrueIff | internal/api/signals.go:168-175 | a log write leaves a true cache exactly when it is later than the cache, not preferred, or says the same |
| Signals.ReadsAreFresh | internal/api/signals.go:159-218 | after every run of writes under any name and reads with increasing times each read equals a fresh computation from the preferred log |
| Signals.TieServesStale | internal/api/signals.go:168-175 | an equal time serves a stale answer |
| Signals.SignalsHandler.ComputeSegmentSignals | internal/api/signals.go:222-251 | each of the five columns is the parsed log's own, time by time |
| Signals.SignalsHandler.LoadSegmentSignals | internal/api/signals.go:159-198 | answers freshly and changes no log |
| Signals.SignalsHandler.GetRouteSignals | internal/api/signals.go:79-149 | the response is the route computed anew, an error exactly when a log does not parse, with five columns of one length |
| RouteListing.RowsTotallyOrdered | internal/db/routes_custom.go:110-123 | every sort key with its tiebreak is a strict total order over rows with and without values |
| RouteListing.BuildTagExistsClauses | internal/db/routes_custom.go:250-266 | one clause and argument a tag with consecutive placeholders |
| RouteListing.ListRoutesByDeviceFiltered | internal/db/routes_custom.go:290-351 | with arguments bound by position the answer is the asked-for slice of the rows that meet the filter, for every filter, sort key and number of tags |
| RouteListing.CountRoutesByDeviceFilteredCustom | internal/db/routes_custom.go:361-388 | the count is the number of those rows |
| RouteListing.JoinOneRowPerRoute | internal/db/routes_custom.go:199-206 | with at most one trip a route the join has one row for each route |
| RouteListing.MatchingIs | internal/db/routes_custom.go:194-221 | the matching rows are strictly sorted and are exactly the routes that meet the filter, each once |
| RouteListing.MatchingReads | internal/db/routes_custom.go:110-123 | a list reads newest, oldest, longest or farthest first with the rows without a value at the documented end, and among equals the later id first |
| RouteListing.ListIs | internal/db/routes_custom.go:85-123 | for any name of an order the list has the routes that the filter asks for, said in columns, each once with its own trip, and reads by that order |
| RouteListing.PagesCoverMatching | internal/db/routes_custom.go:290-319 | consecutive pages give the matching rows in order without repeats, and all of them exactly when they cover as many as the count reports |
| RouteListing.OrderOfTableIrrelevant | internal/db/routes_custom.go:107-123 | the tiebreak makes the answer independent of the order of the table |
| Ordering.WhereOrderBy | internal/db/alpr_backfill_jobs.sql.go:217-231 | filtering and ordering commute |
| Ordering.SortedSame | internal/db/routes_custom.go:107-123 | a set of rows has one ordering |

## Left out

- HTTP binding, JSON shapes, status codes, authentication and metrics; a response is a small datatype.
- The internals of Postgres: tables are values with their unique keys checked; a database failure is modelled only where a transaction must roll back (merge, correction, aggregation) or a cleanup tier fails.
- Races between a handler's read and its later write: handlers are atomic steps. The exceptions that matter are stated (`StaleWriteSafeIff`, `ConcurrentLoginsExceed`).
- Alert listing, summaries and counts, watchlist rows keyed by a vehicle signature (they appear only as rows without a hash), and the bounding boxes of encounters.
- The queue between a correction and the aggregator, which drops a route when it is full: the theorems speak of the re-runs that do happen.
- The heuristic's score, the turn counts of encounters, the plate keyring, HMAC-SHA-256 (RFC 2104, section 2) and base64url (RFC 4648, section 5): abstract functions, of which at most a round trip is known and that a MAC is not empty.
- Throttling, ffmpeg, frame sinks and the wake channel of the backfill worker; a transient failure of its progress update; and edits of a job's filters while it runs.
- The estimated time of arrival of a backfill job (one rounded quotient) and the route list without filters.
- Base URLs, headers and query encoding of minted upload links; boot log storage; the byte counters; the contents of stored files and their later removal; a second upload that creates the same route at the same moment.
- UploadStorage.UploadKeepsBackedIff: speaks of devices and routes of plain names; what a route called "." or ".." does is stated apart (`OwnDirectoryIff`).
- DataRequests.RequestHandler.RequestFullData: does not wrap the number of items at 2^31, which would take as many missing files on one route.
- Floating point: coordinates and distances are exact reals, so NaN and infinities, which the code rejects, do not occur.
- Cap'n Proto decoding and decompression: a log is a sequence of events, and a parser that returns columns of equal length.
- Deletion of logs and unreadable directories in the signals cache.
- WarnLimiter.EveryInterleaving: does not model the wrap-around of the 64-bit error counter, which would take 2^64 errors within one window.
- BackfillWorker.Worker.Run: takes the set of routes as fixed while the job runs, as the stored total does.
- DataRequests.CompletionRightIff: takes the route's list of segments as fixed after the request.
- DataRequests.RequestsAnHourApart: the dispatcher's visit to a pending row is one step, so a row completed between its read and its write is not covered.
- PlateStore.Store.DistinctRoutes: leaves the order of the routes open, where the statement orders them by dongle and route; only the set of routes to re-aggregate is used.
