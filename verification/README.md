# go-pdf-forge: a verified model of its coordination protocols

This project models, in Dafny, the parts of the PDF service whose correctness rests on the order of
concurrent steps rather than on any single function:

- the durable job queue with leases on `pdf_job`, and its claim under `FOR UPDATE SKIP LOCKED`;
- the resumable upload protocol on `upload_session` and `upload_part`;
- the joint invariant between the two, since a job copies its input from a committed upload;
- the two-scope anonymous quotas with their lock order and fixed windows;
- the migration ledger with its batch runners;
- the register of anonymous sessions.

Run `dafny verify dfyconfig.toml` in this directory to check all of it.

## How it is built

Every table has four layers.

1. **What a call means.** `Job`, `JobTable`, `UploadTables`, `Quota`, `Migrations` and `Sessions` define
   each call as a function from the old tables to the new tables and the answer, by situation: a row
   is ended, released, requeued.
2. **What the code does.** The classes in `JobStore`, `UploadStore`, `QuotaStore`, `Migrator` and
   `SessionStore` follow the statements: the same order of checks, the WHERE clauses, one CASE
   expression a column, real scans for ORDER BY, real loops over a batch. Each method is proved equal
   to its function, state and answer.
3. **What callers are promised.** `JobCalls`, `UploadCalls` and the sections on answers in `Quota`,
   `Sessions` and `Migrations` say each call again in the columns before and after it, its order of
   selection and its answers, without the functions of layer 1.
4. **What always holds.** Inductions over the functions: `JobRow` for one event of one row, `JobLife`
   for the whole life of a row, `Runs` for all interleavings of both stores from empty tables,
   `SkipLocked` and `QuotaLocks` for the insides of transactions, `Draining` for repeated calls,
   `Progress` for what can still be reached.

An SQL statement, or a transaction under its row lock, is one atomic step, except in `SkipLocked` and
`QuotaLocks`, which split it. Every call brings its own clock value and nothing relates two of them.
A statement that would break a constraint, or take the version column past bigint, aborts without
effect. Instants are integer microseconds, tick 0 being the zero time of Go. Identifiers and digests
are opaque values with equality. `int32` and `int64` are range-checked types, so that every operation
on them is proved not to overflow; the bigint version column is an integer with an explicit bound.

## What the proofs found

- **The fence is the worker, not the attempt.** ARCHITECTURE.md:95-100 says that a stale worker
  cannot complete work after lease loss. That holds between distinct worker IDs
  (`JobLife.OldWorkerIsPowerless`, `Runs.OnlyTheLatestClaimantActs`). A worker that loses its lease
  and claims the same job again can still apply a transition of its earlier attempt
  (`JobLife.StaleAttemptOfSameWorkerIsAccepted`).
- **A heartbeat extends the lease only if the clock advanced.** The deadline is overwritten, so a
  clock that went back shortens it (`JobLife.HeartbeatExtendsIffClockAdvances`,
  `Witnesses.HeartbeatCanShortenTheLease`).
- **One change escapes the version.** A repeated deletion observed earlier than the retention deadline
  of the first one lowers `expires_at` without a version bump, and nothing else ever does
  (`JobLife.VersionStampsEvent`, `JobLife.DeletionStamps`,
  `Witnesses.RepeatedDeleteCanChangeSilently`). Two snapshots with one version are the same row
  exactly when no such deletion fell between them (`JobLife.VersionIsFaithfulIff`).
- **Recovery cannot be stopped by a timestamp.** No SQL constraint bounds the lease deadline or the
  attempts, yet no reachable row can abort a recovery batch except by exhausting bigint versions
  (`Runs.RecoveryAbortsIff`).
- **The zero time is the one gap of the scan check.** Rows created after it are always accepted; the
  exact exceptions are in `JobRow.StaysAcceptedIff`, each met by a run in `Witnesses`,
  for every usable setting, one of which `Witnesses.UsableSettingExists` builds.
- **Ties matter only at the top.** Touches of a session can arrive in any order exactly when those at the
  latest instant come from one address (`Sessions.ConvergesIffOneLatestAddress`).
- **Skipping locked rows costs nothing but order.** Claims and recovery passes that lock, rewrite and
  commit in separate steps, with any of them rolled back or dying on the way, leave tables that runs of
  whole statements leave (`SkipLocked.SplitRunsAreAtomicRuns`).
- **Nothing gets stuck, but phases may alternate.** Every open upload can still become a completed job and
  every abandoned job can still be ended; between optimizing and validating, a worker may go back and forth
  without bound (`Progress.UploadCanBecomeACompletedJob`, `Progress.NoJobIsStuck`,
  `Progress.PhasesMayAlternate`).
- **Progress falls only on a requeue**, never within one attempt
  (`JobLife.ProgressFallsOnlyOnRequeue`).

## Files

| file | contents |
|---|---|
| `Common.dfy` | options, fixed-width integers, instants, text bounds, owners |
| `JobStatus.dfy`, `Job.dfy` | the status graph, the row, its validators, guards and effects |
| `JobRow.dfy`, `JobLife.dfy` | one event, and all runs of events, of one row |
| `RowOrder.dfy` | ORDER BY and LIMIT over keyed rows |
| `JobTable.dfy`, `JobStore.dfy`, `JobQueue.dfy` | the table functions, the store, the worker queue |
| `JobCalls.dfy`, `UploadCalls.dfy` | the calls on columns and in their answers |
| `Draining.dfy`, `Progress.dfy` | repeated claims and recoveries; what can still be reached |
| `SkipLocked.dfy` | claims and recovery passes split into lock, write and commit |
| `Isolation.dfy`, `Witnesses.dfy` | owners kept apart; runs that meet the failing side of a condition |
| `Upload.dfy`, `UploadTables.dfy`, `UploadStore.dfy` | geometry, the table functions, the store |
| `Database.dfy`, `Runs.dfy` | both stores together and all their runs |
| `Quota.dfy`, `QuotaStore.dfy`, `QuotaLocks.dfy` | windows and limits, the store, interleaved transactions |
| `Migrations.dfy`, `Migrator.dfy` | history and its meaning, loader and runners |
| `Sessions.dfy`, `SessionStore.dfy` | the register, its store and manager |

## Model

| member | source | states |
|---|---|---|
| `JobStore.PostgresStore.Create` | internal/job/storage_postgres.go:61-122 | The insert-select with its conflict clause leaves the table, and gives the answer, of the table function: refused, not found, existing job of the upload, key conflict or new queued row |
| `JobStore.PostgresStore.Claim` | internal/job/storage_postgres_queue.go:15-54 | The scan for the least eligible unlocked row and the eight column updates amount to taking the first row by (available_at, created_at, id); nothing else changes |
| `JobStore.PostgresStore.Heartbeat` | internal/job/storage_postgres_queue.go:58-96 | Four separate CASE columns are one all-or-nothing extension; a row that was asked to stop is returned unchanged as a cancellation |
| `JobStore.PostgresStore.Move` | internal/job/storage_postgres_queue.go:100-145 | The column-by-column update of Transition is the intended situation: a running phase keeps the lease with new instants, a terminal one releases it and dates completion once |
| `JobStore.PostgresStore.RecoveredColumns` | internal/job/storage_postgres_queue.go:164-213 | Seven independent CASE columns of recovery always agree on one of three outcomes: cancelled, failed as exhausted, or requeued with progress reset |
| `JobStore.PostgresStore.RecoverBatch` | internal/job/storage_postgres_queue.go:163-215 | The loop over the batch rewrites exactly its rows, and aborts iff some rewritten row breaks a constraint |
| `JobStore.PostgresStore.Tally` | internal/job/storage_postgres_queue.go:216-220 | The loop computes the three filtered counts: how many distinct batch rows now have each status |
| `JobStore.PostgresStore.RecoverExpired` | internal/job/storage_postgres_queue.go:149-227 | Bounded selection by (lease_expires_at, id), rewriting and counting, or no effect; the request is refused iff its instants or limit are invalid |
| `JobStore.PostgresStore.Get` | internal/job/storage_postgres.go:125-147 | Not found iff the identifier or owner is malformed or the job is not a visible row of that owner; otherwise the stored row, or a failure where the scan rejects it |
| `JobStore.PostgresStore.Cancel` | internal/job/storage_postgres.go:151-198 | Five CASE columns are one decision: queued work ends cancelled, running work is marked once, anything else is untouched |
| `JobStore.PostgresStore.Delete` | internal/job/storage_postgres.go:202-252 | Seven independently computed columns are cancellation followed by a tombstone, with one version bump for a first deletion and none for a repeated one |
| `RowOrder.First` | internal/job/storage_postgres_queue.go:29-31 | One scan over the candidates finds the least key under ORDER BY and LIMIT 1 |
| `RowOrder.Select` | internal/job/storage_postgres_queue.go:160-162 | Repeated scans return the first limit identifiers of the sorted order |
| `RowOrder.OrderedIsSorted` | internal/job/storage_postgres_queue.go:29-31 | The sorted order lists every keyed row once, strictly ascending |
| `RowOrder.OrderedDrop` | internal/job/storage_postgres_queue.go:160-162 | Taking the first n rows leaves the order of the others |
| `JobTable.StepActsOnRow` | internal/job/storage_postgres_queue.go:15-227 | Each of the seven statements acts on every existing row as exactly one row event whose guard and constraints hold, and removes no row |
| `JobTable.NewRowsAreCreated` | internal/job/storage_postgres.go:68-100 | A row appears only by a valid creation from a committed upload of the same owner that had no job |
| `JobTable.BatchMembers` | internal/job/storage_postgres_queue.go:155-163 | A recovery batch holds min(limit, expired) distinct expired unlocked rows in deadline order |
| `JobTable.CountsAreSizes` | internal/job/storage_postgres_queue.go:216-220 | The three counts of a pass are the sizes of the sets of its rows with each status |
| `JobCalls.CreatedRow` | internal/job/storage_postgres.go:79-100 | A created row carries the seed and the committed upload column by column, is queued and unbegun, and is the answer |
| `JobCalls.CreateRefusals` | internal/job/job.go:309-330 | A seed is refused iff one of the listed conditions on its fields fails; an absent upload is not found |
| `JobCalls.ExistingJobAnswers` | internal/job/storage_postgres.go:94-121 | For an upload that has its job: not found for another owner, a failure if the scan rejects it, a conflict once deletion was requested, otherwise that job; nothing changes |
| `JobCalls.TakenKeysConflict` | internal/job/storage_postgres.go:111-114 | For an upload without a job: a conflict iff the identifier or the input key is taken |
| `JobCalls.ClaimRefusals` | internal/job/storage_postgres_queue.go:15-49 | Refused iff worker or lease is malformed; no job available iff no unlocked row is queued, available, unexpired, below its attempts and free of stop requests |
| `JobCalls.ClaimFollowsOrder` | internal/job/storage_postgres_queue.go:29-31 | The row a claim changes precedes every other unlocked eligible row by available_at, then created_at, then id |
| `JobCalls.ClaimedRow` | internal/job/storage_postgres_queue.go:33-46 | Every column of the row a claim changes, the answer, and that no other row changes |
| `JobCalls.HeartbeatRefusals` | internal/job/storage_postgres_queue.go:58-88 | Malformed iff worker or lease is; lease lost iff the caller holds no unexpired lease on an active row |
| `JobCalls.StoppedWorkerIsTold` | internal/job/storage_postgres_queue.go:92-94 | A holder whose job was asked to stop gets the cancellation with the unchanged row, and nobody else does |
| `JobCalls.BeatenRow` | internal/job/storage_postgres_queue.go:62-85 | Every column of the row a heartbeat changes: the new deadline and heartbeat are those of the call |
| `JobCalls.MoveRefusals` | internal/job/queue.go:159-194 | Malformed iff a listed condition on the request fails; lease lost iff lease, expected status, progress or the stop rule does not match |
| `JobCalls.MovedRow` | internal/job/storage_postgres_queue.go:105-132 | An accepted transition stores status, progress, message and error details as reported, and renews or ends the lease; the answer is the stored row |
| `JobCalls.RecoverRefusals` | internal/job/queue.go:196-204 | A pass is refused iff its clock is zero, its retry lies before it, or its limit is not within 1 and 1000 |
| `JobCalls.BatchFollowsOrder` | internal/job/storage_postgres_queue.go:160-162 | Every row of a batch precedes every unlocked expired row outside it by lease_expires_at, then id |
| `JobCalls.RecoveryFollowsOrder` | internal/job/storage_postgres_queue.go:160-162 | Of two unlocked expired rows of which a pass changes one, the changed one expired first |
| `JobCalls.RecoveredRow` | internal/job/storage_postgres_queue.go:163-214 | Every column of a row a pass changes, for cancelled, exhausted and requeued rows |
| `JobCalls.RecoveryCountsRows` | internal/job/storage_postgres_queue.go:216-220 | The three counts are how many rows the pass changed into each status |
| `JobCalls.CancelRefusals` | internal/job/storage_postgres.go:151-157 | Not found iff malformed, foreign, absent or tombstoned; invalid iff the clock is zero |
| `JobCalls.CancelledRow` | internal/job/storage_postgres.go:160-188 | Every column a cancellation leaves, and that its answer is the stored row |
| `JobCalls.DeleteRefusals` | internal/job/storage_postgres.go:202-211 | Success without effect for malformed, absent and foreign identifiers; which calls are refused |
| `JobCalls.DeletedRow` | internal/job/storage_postgres.go:215-244 | Every column an accepted deletion leaves |
| `JobStatus.EnteredFrom` | internal/job/status.go:70-79 | Read from its targets, which statuses each status can be entered from |
| `JobRow.NewRowInv` | internal/job/job.go:309-330 | A row inserted from a valid seed satisfies the row invariant and the scan check |
| `JobRow.EventKeepsRowInv` | internal/job/storage_postgres_queue.go:15-227 | Every statement with any clock keeps the row invariant: active iff owner, deadline and heartbeat are set; queued implies attempts below the maximum, no progress and no stop request; terminal iff completed_at; failed iff error details; cancelled iff terminal with cancel_requested_at; completed implies progress 100; attempts at most the maximum; deadline after creation |
| `JobRow.EventFollowsEdge` | internal/job/status.go:70-79 | Every status change, raw SQL writes included, is an edge of the transitions table |
| `JobRow.RecoveryAbortsExactlyWhen` | internal/job/storage_postgres_queue.go:163-214 | A recovered row never breaks the timestamp constraint; it cannot be written iff its bigint version is used up |
| `JobRow.MoveAbortsExactlyWhen` | internal/job/storage_postgres_queue.go:105-131 | An allowed transition aborts iff the version is used up or a running phase would record a heartbeat from before creation |
| `JobRow.DeletionAbortsExactlyWhen` | internal/job/storage_postgres.go:214-244 | A deletion aborts iff the stored version is used up and the row has no tombstone yet |
| `JobRow.AbortsExactlyWhen` | db/migrations/20260924100000_pdf_job_repository.sql:51-61 | For every event whose guard passed, a constraint aborts it iff the stored version is used up and the call would write it (claim, move, recovery, undisturbed beat, first cancel or delete), or a heartbeat instant precedes creation |
| `JobRow.AcceptedIffTimesSet` | internal/job/job.go:332-379 | A row of the invariant passes validateStoredJob iff none of its three mandatory instants is the zero time; always when created after it |
| `JobRow.StaysAcceptedIff` | internal/job/job.go:366-369 | From an accepted row, the only outcomes the scan rejects are a requeue scheduled at the zero instant and a deletion of a row created one tick before it |
| `JobLife.RunKeepsRowInv` | internal/job/storage_postgres_queue.go:15-227 | The row invariant holds after every run, and the fixed columns never change |
| `JobLife.RunSplits` | internal/job/storage_postgres_queue.go:15-227 | A run can be cut at any point: both halves are runs |
| `JobLife.RunKeepsFirstInstants` | internal/job/storage_postgres_queue.go:39-40 | First start, completion, cancellation and deletion instants are never replaced; retention only shrinks; updated_at never falls |
| `JobLife.TerminalIsFinal` | internal/job/status.go:35-44 | After a terminal step only the tombstone, retention, updated_at and version can change |
| `JobLife.AtMostOneTerminalStep` | internal/job/status.go:35-44 | A run enters a terminal status at most once, exactly when it ends terminal and did not start so |
| `JobLife.LeaseFollowsClaims` | internal/job/storage_postgres_queue.go:35-38 | attempt_count grows by the number of claims, and an active row is leased to the worker of the latest one |
| `JobLife.Fencing` | internal/job/storage_postgres_queue.go:81-84 | A lease guard passes iff the caller is the worker of the latest claim, the row is active and the deadline lies ahead |
| `JobLife.OldWorkerIsPowerless` | internal/job/storage_postgres_queue.go:121-131 | Once another worker has claimed the job, no heartbeat or transition of the old worker passes |
| `JobLife.StaleAttemptOfSameWorkerIsAccepted` | internal/job/storage_postgres_queue.go:121-125 | Counterexample for every usable row: the same worker ID claims, loses the lease, claims again, and a transition left over from the first attempt is accepted |
| `JobLife.DeadlineFollowsHeartbeat` | internal/job/queue.go:111-131 | When every caller adds one lease duration to its clock, the stored deadline is always the stored heartbeat plus that duration |
| `JobLife.HeartbeatExtendsIffClockAdvances` | internal/job/storage_postgres_queue.go:64-67 | A heartbeat moves the deadline forward iff the clock is ahead of the stored heartbeat, and back iff behind |
| `JobLife.CancellationIsDecisive` | internal/job/storage_postgres_queue.go:62-84 | After a stop request on an active job: it stays frozen (lease, status, progress) or becomes cancelled; never completed, failed or queued |
| `JobLife.RecoveryCancels` | internal/job/storage_postgres_queue.go:165-169 | Such a job can be selected by a recovery iff the frozen deadline has passed, and then becomes cancelled |
| `JobLife.FuelFalls` | internal/job/storage_postgres_queue.go:163-214 | A measure of remaining attempts and activity never rises and falls on every claim, recovery and terminal step |
| `JobLife.RunsOutOfFuel` | internal/job/storage_postgres_queue.go:26-35 | A job is claimed at most max_attempts times and takes a bounded number of claims, recoveries and terminal steps in all |
| `JobLife.AbandonedBalance` | internal/job/storage_postgres_queue.go:163-214 | Without transitions, cancellation or deletion, claims and recoveries balance; such a job ends only as exhausted |
| `JobLife.AbandonedJobFailsAfterMaxClaims` | internal/job/storage_postgres_queue.go:165-201 | A job whose workers always die is failed iff exactly max_attempts claims were recovered |
| `JobLife.VersionStampsEvent` | internal/job/storage_postgres.go:214-243 | An event that changes a row bumps its version by one, except iff a repeated deletion shortens retention |
| `JobLife.VersionIsFaithful` | internal/job/storage_postgres.go:227-239 | Over runs whose repeated deletions are not observed before the stored one, equal versions mean equal rows |
| `JobLife.VersionIsFaithfulIff` | internal/job/storage_postgres.go:227-239 | Over every run, two snapshots with equal version differ in expires_at at most, and are equal iff no repeated deletion in between shortened it silently |
| `JobLife.DeletionStamps` | internal/job/storage_postgres.go:227-239 | A deletion changes a row without a version bump iff it is a repeated one observed before the retention deadline it left |
| `JobLife.CancelIsIdempotent` | internal/job/storage_postgres.go:160-182 | Cancelling twice equals cancelling once for any second instant |
| `JobLife.DeleteIsIdempotentIff` | internal/job/storage_postgres.go:215-239 | Deleting twice equals deleting once iff the second instant is not before the retention deadline the first one left |
| `JobLife.ProgressFallsOnlyOnRequeue` | internal/job/storage_postgres_queue.go:126-126 | Progress never falls over a run in which no recovery requeues the job |
| `Runs.UploadStepKeepsJointInv` | internal/upload/storage_postgres.go:117-340 | No upload call can break the agreement of jobs with their uploads |
| `Runs.JobStepKeepsJointInv` | internal/job/storage_postgres.go:67-102 | No job statement can break it: owner, filename, key, digest and size equal those of the committed upload, one job per upload |
| `Runs.RunKeepsJointInv` | internal/job/storage_postgres.go:59-121 | The joint invariant holds after every run of calls on both stores |
| `Runs.Reachable` | internal/job/storage_postgres.go:59-121 | In every state reached from empty tables the joint invariant holds, row and upload invariants included |
| `Runs.LifeIsARowRun` | internal/job/storage_postgres_queue.go:15-227 | Within any run of the database each job lives a run of its row, and no job disappears |
| `Runs.Birth` | internal/job/storage_postgres.go:79-93 | Every reachable job was inserted queued, with no attempt and version 1, and has lived a run of its row since |
| `Runs.LeaseIsTheLatestClaim` | internal/job/storage_postgres_queue.go:33-38 | In every reachable state the log of claims of a job counts its attempts, and an active job is leased to the last entry |
| `Runs.LogIsBounded` | internal/job/storage_postgres_queue.go:26-35 | No reachable job was claimed more often than max_attempts |
| `Runs.OnlyTheLatestClaimantActs` | internal/job/storage_postgres_queue.go:81-84 | On a reachable store a heartbeat or transition that changes anything names the worker of that job's latest claim |
| `Runs.LaterSnapshot` | internal/job/storage_postgres_queue.go:15-227 | Of any two snapshots of a job, whatever both stores did in between: same fixed columns, first instants kept, a terminal outcome final, a stop request decisive; with equal versions they differ in expires_at at most, and not at all iff no deletion shortened it silently |
| `Runs.EveryStatusChangeIsAnEdge` | internal/job/status.go:70-79 | Each further step of a reachable store moves each job along an edge or not at all |
| `Runs.RecoveryAbortsIff` | internal/job/storage_postgres_queue.go:149-227 | On a reachable store a valid recovery pass fails iff it selects a row whose version has used up bigint |
| `Runs.ReachableRowsAreAccepted` | internal/job/job.go:332-379 | A reachable row passes validateStoredJob iff none of its three mandatory instants is the zero time, so always when created after it |
| `Runs.InputKeyIsFree` | db/migrations/20260915170000_initial.sql:80-80 | The unique input key of an upload is free unless the upload already has its job |
| `Runs.CreateAgain` | internal/job/storage_postgres.go:94-98 | A creation for an upload that has a job finds that job and never fails the owner filter of the conflict clause |
| `Runs.CreateFirst` | internal/job/storage_postgres.go:79-100 | A first creation inserts a queued job that agrees with its upload, or meets a taken identifier |
| `Runs.CreateRetryReturnsTheSameJob` | internal/job/storage_postgres.go:59-121 | After a successful creation and any further run, asking again changes nothing and answers that same job as it then stands; a conflict iff its deletion was requested, a failure iff an instant is the zero time |
| `SkipLocked.ActionKeepsInv` | internal/job/storage_postgres_queue.go:19-46 | Under any interleaving of claims, recovery passes and other calls, rollbacks included: statements in flight hold disjoint rows, each still eligible when rewritten, and attempt numbers granted for one job strictly ascend |
| `SkipLocked.RunKeepsInv` | internal/job/storage_postgres_queue.go:19-46 | ... in every state of every run |
| `SkipLocked.OnlyHeldRowsArePassedOver` | internal/job/storage_postgres_queue.go:29-31 | An eligible row that precedes the one a claim locks is held by another transaction |
| `SkipLocked.OnlyHeldRowsAreLeftBehind` | internal/job/storage_postgres_queue.go:155-163 | An expired row outside a locked batch is held by another transaction, or the batch is full and all its rows precede it |
| `SkipLocked.CommittingRowsFit` | internal/job/storage_postgres_queue.go:33-44 | Every row locked by a statement that is going to commit passes the constraints when it is rewritten |
| `SkipLocked.SplitRunsAreAtomicRuns` | internal/job/storage_postgres_queue.go:19-46 | For every run, with rollbacks, failing rewrites and statements that die in flight: the committed tables are those of a run of whole statements, each committing one happening at its lock, the others not at all |
| `SkipLocked.SkippedRowsAreHeldInVain` | internal/job/storage_postgres_queue.go:29-31 | The whole claim of that run skips a row iff a transaction that will not commit, or a recovery pass, holds it at the lock |
| `SkipLocked.SplitRunsAreReachable` | internal/job/storage_postgres_queue.go:15-54 | From empty tables every split run ends in tables that whole calls reach, so the joint invariant and all results on runs hold of it |
| `SkipLocked.PassAnswers` | internal/job/storage_postgres_queue.go:216-220 | The whole recovery pass of that run answers the counts of the rows that the split one commits |
| `SkipLocked.ClaimAnswers` | internal/job/storage_postgres_queue.go:33-53 | The whole claim of that run answers the row that the split one commits |
| `SkipLocked.CommitsWhatItLocked` | internal/job/storage_postgres_queue.go:33-44 | A transaction commits the rows it locked, rewritten as they were at the lock |
| `SkipLocked.OtherAnswersAlike` | internal/job/storage_postgres.go:61-252 | Every other call gets the answer that the table with all committing transactions already done gives it |
| `SkipLocked.ConcurrentPassesAddUp` | internal/job/storage_postgres_queue.go:155-163 | Two recovery passes in flight share no row, and their counts add up to the rows they change together |
| `Draining.ClaimTakesTheLeast` | internal/job/storage_postgres_queue.go:29-31 | A claim writes the least candidate, removes it and touches no other row; it answers the written row as the scan sees it |
| `Draining.ClaimsDrainInOrder` | internal/job/storage_postgres_queue.go:20-46 | Successive claims at one instant answer every eligible job once in sorted order, each as its worker left it, then report none |
| `Draining.SpentLeastBlocks` | internal/job/storage_postgres_queue.go:29-41 | A least candidate whose version is used up makes every claim fail |
| `Draining.ClaimsEmptyTheQueueIff` | internal/job/storage_postgres_queue.go:20-46 | As many claims as eligible jobs leave none eligible iff no eligible job has used up its version |
| `Draining.AcceptedCandidateIsReturned` | internal/job/storage_postgres_queue.go:46-53 | A claimed row that the scan accepted before is returned |
| `Draining.RecoveredRowOutcome` | internal/job/storage_postgres_queue.go:165-169 | A recovered row is cancelled iff asked to stop, failed iff exhausted, queued otherwise |
| `Draining.PassRemovesItsBatch` | internal/job/storage_postgres_queue.go:155-163 | One pass removes exactly its batch from the expired rows |
| `Draining.PassCounts` | internal/job/storage_postgres_queue.go:216-220 | The three counts of a pass add up to min(limit, remaining) |
| `Draining.PassesEmptyTheBacklog` | internal/job/storage_postgres_queue.go:149-220 | After n passes nothing is left iff the backlog was at most n times the limit; otherwise exactly n times the limit rows were handled |
| `Progress.UploadCanBeFinished` | internal/upload/storage_postgres.go:117-297 | Whatever parts an open upload still lacks, some further calls are accepted that commit it with any given digest, without touching jobs |
| `Progress.JobCanComplete` | internal/job/storage_postgres_queue.go:15-145 | Every claimable job can be claimed and completed, even while all other rows are held |
| `Progress.UploadCanBecomeACompletedJob` | ARCHITECTURE.md:76-84 | From every reachable state of both stores, every open upload can be finished and become a completed job with its digest |
| `Progress.NoJobIsStuck` | internal/job/storage_postgres_queue.go:149-214 | On the store, with all other rows held and untouched, every unfinished job with room in its version column is ended by one recovery or cancellation, or by one of each if a retry is left |
| `Progress.PhasesMayAlternate` | internal/job/status.go:73-74 | The bound on steps covers claims, recoveries and terminal steps only: under one lease, optimizing and validating can alternate at equal progress any number of times the version column has room for |
| `Isolation.AnswersDependOnOwnRows` | internal/job/storage_postgres.go:125-252 | On two tables with the same rows of one owner, Get, Cancel and Delete give that owner the same answers and leave the same rows of that owner |
| `Isolation.ForeignLooksMissing` | ARCHITECTURE.md:106-108 | Taking a foreign job out of the table changes no answer: foreign and missing are indistinguishable |
| `Isolation.ForeignRunSparesJob` | internal/job/storage_postgres.go:183-187 | Over any run of upload calls, creations and calls in the name of other owners a job stays as it is |
| `Isolation.TombstoneHidesForGood` | internal/job/storage_postgres.go:133-137 | Once a tombstone is set, no later run makes the job readable or cancellable to anybody |
| `Isolation.DeletionIsForGood` | internal/job/storage_postgres.go:202-252 | After an accepted deletion of an owned job of a reachable store, every later run leaves it unreadable and uncancellable to everybody |
| `Isolation.ReadsOwnJobsIff` | internal/job/storage_postgres.go:125-147 | On a reachable store an owner reads exactly the own jobs without a tombstone and without a zero instant |
| `Witnesses.HeartbeatCanShortenTheLease` | internal/job/storage_postgres_queue.go:64-67 | A reachable row whose accepted heartbeat, with the same lease duration, moves the deadline from 20 to 15 |
| `Witnesses.RepeatedDeleteCanChangeSilently` | internal/job/storage_postgres.go:227-239 | A reachable row whose repeated deletion lowers expires_at from 100 to 50 at the same version |
| `Witnesses.RequeueAtZeroIsRejected` | internal/job/job.go:366-369 | A reachable row its owner can read before a recovery that schedules the retry at the zero instant, and not after |
| `Witnesses.DeletionAtZeroIsRejected` | internal/job/job.go:366-369 | A reachable accepted row, created one tick before the zero instant, whose deletion the scan rejects |
| `JobQueue.Queue.New` | internal/job/queue.go:88-108 | A queue is built iff the worker ID is well formed, the lease positive, the retry delay not negative and the batch within 1 and 1000; it carries those policies |
| `JobQueue.Queue.Claim` | internal/job/queue.go:111-114 | The store call of this worker with one clock reading; refused by validation iff the clock is zero |
| `JobQueue.Queue.Heartbeat` | internal/job/queue.go:118-121 | Same for a heartbeat |
| `JobQueue.Queue.Move` | internal/job/queue.go:124-132 | Worker, clock and deadline of the request are overwritten, and validating before and in the store is validating once |
| `JobQueue.Queue.RecoverExpired` | internal/job/queue.go:135-140 | The retry instant is derived from the same clock reading; refused iff the clock is zero |
| `JobQueue.ManagerSeedIsValidIff` | internal/job/job.go:248-267 | The seed of the manager passes validateJobSeed iff the creator is valid and neither instant is the zero time |
| `JobQueue.ManagerCreatesJob` | internal/job/job.go:248-267 | A job the manager creates carries its policies and one clock reading |
| `UploadStore.PostgresStore.Create` | internal/upload/storage_postgres.go:58-89 | Insert or conflict, as the table function |
| `UploadStore.PostgresStore.RecordPart` | internal/upload/storage_postgres.go:117-197 | The locked read-check-write sequence is the table function: every refusal in its order, the idempotent retry, or part and counters together |
| `UploadStore.PostgresStore.ReadAllParts` | internal/upload/storage_postgres.go:380-407 | Row by row, the stored parts of one upload in index order |
| `UploadStore.PostgresStore.BeginCommit` | internal/upload/storage_postgres.go:201-245 | Freezes exactly a complete session and returns the plan |
| `UploadStore.PostgresStore.Complete` | internal/upload/storage_postgres.go:248-297 | Commits a frozen session once; a retry succeeds only with the same digest |
| `UploadStore.PostgresStore.Abort` | internal/upload/storage_postgres.go:301-340 | Closes an open session, succeeds again on a closed one, refuses a committed one |
| `UploadStore.ValidateCompleteParts` | internal/upload/storage_postgres.go:531-553 | Accepts exactly the complete part lists; after the counter and size checks neither running-total guard can fire |
| `Upload.CompleteIffPartition` | internal/upload/storage_postgres.go:531-553 | A list is complete iff counters are full, descriptors are in order, and sizes cut the declared size into full chunks and a last non-empty one |
| `Upload.PartitionIffPositional` | internal/upload/storage_postgres.go:601-613 | The positional sizes are the chunked partition of the declared size, and the only one |
| `Upload.EveryByteInExactlyOnePart` | internal/upload/storage_postgres.go:531-553 | Every byte offset of the declared object lies in exactly one part, and none outside |
| `Upload.ExpectedPartSize` | internal/upload/storage_postgres.go:601-613 | The int32 and int64 computation never overflows and gives the positional size for every valid index |
| `Upload.CeilingGeometry` | internal/upload/upload.go:293-305 | The count is a ceiling: the last part is non-empty and no part is longer than a chunk |
| `Upload.PrefixIsClosedForm` | internal/upload/storage_postgres.go:601-613 | Positional sizes of n parts sum to n chunks, all of them to the declared size, a proper prefix to less |
| `Upload.FewestChunks` | internal/upload/upload.go:293-305 | The chunk count is the least number of chunks that hold the declared size |
| `Upload.StartedIsValidIff` | internal/upload/upload.go:278-309 | A session opened by the manager passes the store check iff neither its clock nor its deadline is the zero time |
| `UploadTables.StepKeepsInv` | internal/upload/storage_postgres.go:117-340 | Every call keeps: stored indices are exactly 0 to received - 1, each part has its positional size, received bytes are their sum, frozen sessions are full, object keys distinct |
| `UploadTables.AddPartOutcome` | internal/upload/storage_postgres.go:160-184 | The next part is accepted iff it has its positional size, and no constraint or width can then be broken |
| `UploadTables.PartsAreTheReceivedPrefix` | internal/upload/storage_postgres.go:380-407 | A reader finds part i at position i for every received index |
| `UploadTables.CompleteIffAllReceived` | internal/upload/storage_postgres.go:531-553 | On a stored upload the completeness check is the counter check |
| `UploadTables.BeginCommitIncompleteIff` | internal/upload/storage_postgres.go:201-245 | BeginCommit answers incomplete iff the session is uploading with fewer chunks than expected |
| `UploadTables.NeverFailsInside` | internal/upload/storage_postgres.go:117-340 | No call on a reachable store ends in a storage failure |
| `UploadTables.RetryIsIdempotent` | internal/upload/storage_postgres.go:141-153 | After a part was accepted and any further run of calls, while the session is uploading and unexpired: the same size and digest return the stored descriptor with the current counters, any other is a conflict, and nothing changes |
| `UploadTables.StepPreserves` | internal/upload/storage_postgres.go:117-340 | Committed and aborted sessions never change, identity and geometry never change, accepted parts never change, counters never fall |
| `UploadTables.RunPreserves` | internal/upload/storage_postgres.go:117-340 | Over every run of calls the invariant holds, and committed and aborted sessions, accepted parts, identity and geometry stay |
| `UploadCalls.StartedSession` | internal/upload/storage_postgres.go:58-89 | A session is stored as handed over iff it is valid and neither its identifier nor its object key is taken |
| `UploadCalls.PartAnswers` | internal/upload/storage_postgres.go:131-166 | Which answer a part gets: expired, invalid state, out of order, wrong size or accepted, each by an exact condition |
| `UploadCalls.PartRefusals` | internal/upload/storage_postgres.go:496-516 | Malformed writes are refused, foreign and absent uploads are not found, and neither refusals nor repeats change anything |
| `UploadCalls.AddedPart` | internal/upload/storage_postgres.go:169-196 | An accepted part is stored column by column as sent, and counted once |
| `UploadCalls.CommitRefusals` | internal/upload/storage_postgres.go:518-529 | BeginCommit, Complete and Abort answer not found iff the identifier is malformed or the upload is absent or foreign |
| `UploadCalls.BeginCommitAnswers` | internal/upload/storage_postgres.go:214-229 | Accepted iff open, in time and fully received; which refusal otherwise |
| `UploadCalls.BegunCommit` | internal/upload/storage_postgres.go:230-244 | The session is frozen and returned; its instant moves the first time only |
| `UploadCalls.PlannedParts` | internal/upload/storage_postgres.go:223-244 | The plan holds every stored part at its position |
| `UploadCalls.CompleteAnswers` | internal/upload/storage_postgres.go:261-278 | A committed session succeeds iff the digest is the stored one and is a conflict otherwise; any other needs to be frozen and in time |
| `UploadCalls.CompletedSession` | internal/upload/storage_postgres.go:279-296 | A first completion records the digest and dates the commit |
| `UploadCalls.DigestIsDecidedOnce` | internal/upload/storage_postgres.go:261-268 | After an accepted completion and any further run, completing again succeeds exactly with the same digest and changes nothing |
| `UploadCalls.AbortAnswers` | internal/upload/storage_postgres.go:314-340 | Closes an open session, answers a closed one again, refuses a committed one |
| `Upload.StartedCarriesRequest` | internal/upload/upload.go:278-309 | Which requests become sessions, and what a session carries |
| `QuotaStore.PostgresQuotaStore.SumRows` | internal/anonymous/storage_quota_postgres.go:233-249 | The loop over the rows of a scope computes their sum |
| `QuotaStore.PostgresQuotaStore.Consume` | internal/anonymous/storage_quota_postgres.go:91-161 | Both checks precede both increments; a refusal changes nothing |
| `QuotaStore.PostgresQuotaStore.ConsumeSessionCreation` | internal/anonymous/storage_quota_postgres.go:50-86 | One session is counted for the address, or nothing changes |
| `Quota.Exceeds` | internal/anonymous/storage_quota_postgres.go:272-277 | On non-negative int64 values the subtraction form decides current + delta > limit over the unbounded integers; any negative value counts as exceeding |
| `Quota.CheckLimits` | internal/anonymous/storage_quota_postgres.go:251-270 | No error iff all three sums stay within the limits; otherwise the first metric over its limit, in the order uploads, jobs, bytes, with that limit and the retry instant |
| `Quota.SumTakes` | internal/anonymous/storage_quota_postgres.go:233-249 | A sum does not depend on the order of its rows |
| `Quota.SumAfterAdding` | internal/anonymous/storage_quota_postgres.go:122-137 | An upsert adds the delta to the sums of the scopes that contain its cell and to no other |
| `Quota.ConsumeOutcome` | internal/anonymous/storage_quota_postgres.go:91-161 | Success iff both aggregates stay within their limits; never an inner failure; the answer holds the new sums; limits and conservation are kept |
| `Quota.SpendingKeepsInv` | internal/anonymous/storage_quota_postgres.go:122-153 | Every address counter equals the sum of that address over all sessions, and no aggregate passes its limit, after an admitted spend |
| `Quota.CreationKeepsInv` | internal/anonymous/storage_quota_postgres.go:50-86 | A creation succeeds iff the address is below its limit, and keeps the invariant |
| `Quota.CellsFit` | db/migrations/20260915170000_initial.sql:140-142 | Every stored cell and sum fits its int4 or int8 column |
| `Quota.WindowContainsItsInstant` | internal/anonymous/quota.go:245-248 | A window contains its instant and passes validation iff the instant is not within one window of the zero time |
| `Quota.WindowsPartitionTime` | internal/anonymous/quota.go:245-248 | Every instant of a window has that same window |
| `Quota.WindowsEqualOrDisjoint` | internal/anonymous/quota.go:245-248 | Two windows that share an instant are equal |
| `Quota.IntervalMeetsTwoWindows` | internal/anonymous/quota.go:245-248 | An interval of one window length meets at most its first window and the next |
| `QuotaLocks.LocksStayExclusive` | internal/anonymous/storage_quota_postgres.go:199-231 | No session row and no address row is ever held by two transactions |
| `QuotaLocks.CommitInstalls` | internal/anonymous/storage_quota_postgres.go:122-160 | The rows a commit installs, computed earlier by the two writes, are the increments of the tables as they are at the commit |
| `QuotaLocks.LogRecordsRequests` | internal/anonymous/storage_quota_postgres.go:115-160 | The log of accepted usage records session, address, window, instant and delta of each committed request and nothing else |
| `QuotaLocks.CommitSparesOthers` | internal/anonymous/storage_quota_postgres.go:101-114 | A commit leaves current whatever other transactions have read or written under their locks |
| `QuotaLocks.ActionKeepsInv` | internal/anonymous/storage_quota_postgres.go:91-161 | Under any interleaving of lock, read, check, two separate pending writes, commit and abort: what was checked and written is still current at commit, limits and conservation hold |
| `QuotaLocks.LimitsHoldInEveryRun` | internal/anonymous/storage_quota_postgres.go:91-161 | In every state of every run from empty tables no aggregate is over its limit, counters equal sums and cells fit |
| `QuotaLocks.CommitIsSerial` | internal/anonymous/storage_quota_postgres.go:115-160 | A committing transaction does exactly what the undivided call would do at that instant |
| `QuotaLocks.RejectIsSerial` | internal/anonymous/storage_quota_postgres.go:115-120 | A rejected transaction would be rejected by the undivided call at that instant |
| `QuotaLocks.CreationIsSerial` | internal/anonymous/storage_quota_postgres.go:50-86 | The same for session creation |
| `QuotaLocks.RunIsSerial` | internal/anonymous/storage_quota_postgres.go:50-161 | The tables of every interleaved run are those of the undivided calls, made one after another in the order in which they commit or are turned away |
| `QuotaLocks.SomeTransactionCanStep` | internal/anonymous/storage_quota_postgres.go:101-114 | While any transaction is unfinished, some transaction can take its next step: no deadlock |
| `QuotaLocks.AtMostTwiceTheLimit` | internal/anonymous/quota.go:229-248 | Over every run of requests that carry the manager's windows, usage accepted in any half-open interval of one window length is at most twice the limit, per session and per address |
| `Quota.ConsumeRefusals` | internal/anonymous/storage_quota_postgres.go:176-187 | Malformed iff a listed condition on limits, window or delta fails; inactive iff well formed on an inactive session; no refusal changes anything |
| `Quota.ConsumeStopsAtFirstLimit` | internal/anonymous/storage_quota_postgres.go:115-120 | A consumption over a limit reports the session scope first, then the address, with metric, limit and retry instant |
| `Quota.ConsumeSpends` | internal/anonymous/storage_quota_postgres.go:122-160 | An accepted consumption adds its delta to the sums of its own session and address and to no other, and answers the new sums |
| `Quota.CreationAnswers` | internal/anonymous/storage_quota_postgres.go:50-86 | One more session for its own address and window and nothing else, or the limit it met |
| `Migrations.CheckRecords` | internal/database/migrate.go:220-233 | The first loop passes iff every applied record is a known unchanged migration |
| `Migrations.CheckOrder` | internal/database/migrate.go:235-246 | The second loop passes iff the applied versions are those of a prefix |
| `Migrations.ValidateHistory` | internal/database/migrate.go:220-247 | Succeeds iff the ledger is exactly the records of a prefix of the sorted migrations |
| `Migrations.PrefixOnColumns` | internal/database/migrate.go:225-233 | A ledger is that of the first n migrations iff it holds each of them under its version with its name and checksum, and nothing else |
| `Migrations.PrefixIsUnique` | internal/database/migrate.go:220-247 | That prefix is unique |
| `Migrations.EachMigrationAppliedOnce` | internal/database/migrate.go:98-157 | Calls of Up, serialized by the advisory lock, together apply each missing migration once in order iff one of them would succeed, and otherwise change nothing |
| `Migrations.DownsUndoUps` | internal/database/migrate.go:190-202 | If each down text inverts its up text, reverting in reverse restores the schema |
| `Migrations.DownAllUndoesUp` | internal/database/migrate.go:163-213 | Up on an unmigrated database then DownAll restores it, reports all in reverse and leaves no ledger |
| `Migrator.LoadMigrations` | internal/database/migrate.go:273-322 | Succeeds iff names are well formed, texts parse, versions are distinct and at least one exists; the result is those files strictly ascending |
| `Migrator.SortByVersion` | internal/database/migrate.go:318-320 | A sorted permutation of migrations with distinct versions |
| `Migrator.Runner.Up` | internal/database/migrate.go:98-157 | The loop applies exactly the missing suffix in order and records it, or leaves the database alone |
| `Migrator.Runner.ApplyMissing` | internal/database/migrate.go:135-148 | The loop body over all migrations skips applied ones and runs the rest in order |
| `Migrator.Runner.DownAll` | internal/database/migrate.go:163-213 | The reverse loop reverts exactly the applied prefix and drops the ledger, or leaves the database alone |
| `Migrator.Runner.RevertApplied` | internal/database/migrate.go:190-202 | The reverse loop skips missing ones and reverts the rest newest first |
| `Migrations.UpsRunInOrder` | internal/database/migrate.go:135-148 | A successful batch ran every up text on the schema the one before left, oldest first |
| `Migrations.ChainIsUps` | internal/database/migrate.go:135-148 | Whenever the up texts run in that order, the batch ends in that schema |
| `Migrations.DownsRunInReverse` | internal/database/migrate.go:190-202 | A successful rollback ran every down text on the schema the one before left, newest first |
| `Migrations.ChainIsDowns` | internal/database/migrate.go:190-202 | Whenever the down texts run in that order, the rollback ends in that schema |
| `Migrations.UpAnswers` | internal/database/migrate.go:98-157 | Refused iff the history is no prefix; otherwise reports, applies and records exactly what is missing, or changes nothing |
| `Migrations.DownAllAnswers` | internal/database/migrate.go:163-213 | Refused iff the history is no prefix; otherwise reverts and reports exactly what is applied and drops the ledger, or changes nothing |
| `SessionStore.PostgresSessionStore.Create` | internal/anonymous/storage_postgres.go:54-81 | Insert or unique conflict |
| `SessionStore.PostgresSessionStore.TouchActive` | internal/anonymous/storage_postgres.go:101-120 | The guarded update moves the last use forward only, with its digest |
| `SessionStore.PostgresSessionStore.Revoke` | internal/anonymous/storage_postgres.go:123-141 | The first revocation instant is kept |
| `SessionStore.Manager.Authenticate` | internal/anonymous/session.go:151-181 | Fetch, checks and touch with other callers' events in between |
| `SessionStore.Manager.Revoke` | internal/anonymous/session.go:185-208 | The register ends as after the other callers' events, plus one revocation iff the capability matches a live unrevoked record; which error answers what; on success the session is revoked at the first instant that reached the store |
| `Sessions.RunKeepsFirstRevocation` | internal/anonymous/storage_postgres.go:130-133 | Over any run: identity fixed, last use never falls, revocation is the first one and never replaced |
| `Sessions.FirstRevocationExists` | internal/anonymous/storage_postgres.go:130-133 | A run has a first revocation iff a valid revocation of that session occurs in it |
| `Sessions.UsesReachTheLatest` | internal/anonymous/storage_postgres.go:108-112 | Touches end at the latest of the initial instant and the uses, with the digest of that use |
| `Sessions.TouchesConverge` | internal/anonymous/storage_postgres.go:108-112 | Any two orders of touches that agree on the address at the latest instant end in the same row |
| `Sessions.ConvergesIffOneLatestAddress` | internal/anonymous/storage_postgres.go:108-112 | All orders of the touches end in the same row iff those at the latest instant, not before the stored one, carry one address |
| `Sessions.DistinctTouchesConverge` | internal/anonymous/storage_postgres.go:108-112 | In particular touches with distinct instants converge |
| `Sessions.TiesAreDecidedByArrival` | internal/anonymous/storage_postgres.go:110-110 | Of two touches at one latest instant the later arrival stays |
| `Sessions.TouchRunIsFold` | internal/anonymous/storage_postgres.go:101-120 | On an active session a run of touches before the deadline is exactly that fold |
| `Sessions.AuthenticateIff` | internal/anonymous/session.go:151-181 | Succeeds iff the digest matches, the deadline lies ahead, and no revocation precedes the fetch or falls between fetch and touch |
| `Sessions.ConcurrentRevokeWins` | internal/anonymous/session.go:166-179 | A revocation between fetch and touch makes Authenticate fail and leaves the register as the other callers left it |
| `Sessions.RunKeepsRegisterInv` | internal/anonymous/storage_postgres.go:54-81 | In every reachable register each session sits under its own identifier and no two share a secret |
| `Sessions.CreateAnswers` | internal/anonymous/storage_postgres.go:54-81 | Stored as handed over iff well formed with a fresh identifier and secret; which refusal otherwise |
| `Sessions.TouchAnswers` | internal/anonymous/storage_postgres.go:101-120 | Accepted iff live; moves the last use forward with the address of a use that is not older; which refusal otherwise |
| `Sessions.RevokeAnswers` | internal/anonymous/storage_postgres.go:123-141 | Accepted iff the session is there; sets the instant once; which refusal otherwise |
| `Sessions.AuthenticateErrors` | internal/anonymous/session.go:151-179 | Which error a failed authentication reports, in the order of the checks; it leaves the register to the other callers |
| `Sessions.AuthenticateRecordsUse` | internal/anonymous/session.go:177-180 | Success answers identity, creation and deadline of the session and records the use, nothing else |

## Left out

- pgx, connection pools, contexts, timeouts and rollback plumbing: a transaction either happens as
  modelled or leaves no trace; a lost commit acknowledgement is not modelled.
- Draining.ClaimsDrainInOrder: asks for candidates with room in the version column; a least candidate
  without it blocks the queue (`Draining.SpentLeastBlocks`, `Draining.ClaimsEmptyTheQueueIff`).
- QuotaLocks.AtMostTwiceTheLimit: is about requests whose windows the manager derives, under limits that
  stay fixed over the run, as they do for one configuration.
- SkipLocked.OtherAnswersAlike: is about calls that write; a plain read of a row whose claim is about to
  commit sees the row as it was before the claim.
- The set of rows held by other transactions is a parameter of Claim and RecoverExpired in `JobStore`;
  `SkipLocked` derives it. A call that needs a held row is modelled as running once the row is free.
- Isolation.AnswersDependOnOwnRows: leaves out Create, whose answer also depends on whether a generated
  identifier is free.
- Session activity is a parameter of quota consumption; the session rows are in `Sessions`, and the two
  are not joined. Foreign keys between the packages are not modelled.
- Output columns, the outbox, the purge and the expired statuses: declared in the schema, but nothing
  in the modelled code writes them.
- MIME parsing is an abstract bound on text; filename rules and trimming count characters as bytes and
  know only ASCII white space.
- HMAC, SHA-256, random bytes and the text of UUIDs and tokens: opaque values; two distinct identifiers
  have distinct text. Object keys derived from identifiers are a parameter.
- Limits on the range of PostgreSQL timestamps, sub-microsecond rounding, and the UTC location check
  of quota windows.
- Migration versions are ordered numbers instead of digit strings of one length; SQL texts and schemas
  are opaque. When a history has several faults, which one is reported depends on map order in the
  original and is not fixed here. The advisory lock is the order of calls.
- The upload Get, the session Get with its scan, the constructors of stores and managers that only check
  for nil, and the multi-line reports of QuotaLimits.Validate: easy members.
- Configuration, commands, SMTP, the web client and generated code.
