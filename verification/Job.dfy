/** One row of pdf_job: its columns, the Go and SQL conditions on it, and the effect each
    statement has on a row it selects. Effects are written by situation; the store writes
    them column by column, as the SQL does. */
module Job {
  import opened Common
  import opened JobStatus

  const MAX_PROGRESS_BYTES: nat := 512
  const MAX_IDENTITY_BYTES: nat := 255
  const MAX_EMAIL_BYTES: nat := 320
  const MAX_FILENAME_BYTES: nat := 255
  const MAX_KEY_BYTES: nat := 1024
  const MAX_ERROR_CODE_BYTES: nat := 128
  const MAX_ERROR_MESSAGE_BYTES: nat := 1024
  const MAX_BATCH: int := 1000

  const EXHAUSTED_CODE: string := "lease_attempts_exhausted"
  const EXHAUSTED_MESSAGE: string := "Processing stopped after repeated worker interruption."

  datatype Creator = Creator(externalId: int, login: string, name: string, email: string)

  const NO_CREATOR: Creator := Creator(0, "", "", "")

  /** The columns no statement ever updates. */
  datatype Fixed = Fixed(
    id: nat, uploadId: nat, owner: Owner, creator: Creator,
    filename: string, inputKey: string, inputSha: Digest, inputBytes: int,
    targetBytes: int, maxAttempts: int, createdAt: Time)

  datatype Job = Job(
    fixed: Fixed, status: Status, progress: int, message: string, attempts: int,
    availableAt: Time, leaseOwner: Option<string>, leaseExpiresAt: Option<Time>,
    heartbeatAt: Option<Time>, cancelRequestedAt: Option<Time>,
    errorCode: Option<string>, errorMessage: Option<string>,
    updatedAt: Time, startedAt: Option<Time>, completedAt: Option<Time>, expiresAt: Time,
    deletionRequestedAt: Option<Time>, version: int)

  /** The argument of Create; only the fields that validation or the insert reads. */
  datatype Seed = Seed(
    id: IdText, uploadId: IdText, owner: Owner, creator: Creator,
    filename: string, inputKey: string, inputSha: Digest, inputBytes: int64,
    targetBytes: int64, status: Status, progress: int, message: string, attempts: int32,
    maxAttempts: int32, availableAt: Time, createdAt: Time, updatedAt: Time,
    expiresAt: Time, version: int64)

  datatype Transition = Transition(
    jobId: IdText, worker: string, expected: Status, next: Status, progress: int,
    message: string, errorCode: string, errorMessage: string, now: Time, deadline: Time)

  datatype JobError =
    | Invalid | NotFound | Conflict | NoJobAvailable | LeaseLost
    | CancellationRequested(stored: Job) | StorageFailure

  // ---------------------------------------------------------------- validation in Go

  predicate ValidCreator(owner: Owner, creator: Creator) {
    owner.Valid() &&
    if owner.kind == Anonymous then creator == NO_CREATOR
    else
      creator.externalId > 0 &&
      BoundedText(creator.login, MAX_IDENTITY_BYTES) &&
      BoundedText(creator.name, MAX_IDENTITY_BYTES) &&
      (creator.email == "" || BoundedText(creator.email, MAX_EMAIL_BYTES))
  }

  predicate ValidSeed(seed: Seed) {
    seed.id.Uuid? && seed.uploadId.Uuid? &&
    ValidCreator(seed.owner, seed.creator) &&
    seed.filename == "" && seed.inputKey == "" && seed.inputSha == 0 && seed.inputBytes == 0 &&
    seed.status == Queued && seed.progress == 0 && seed.message == "" && seed.attempts == 0 &&
    seed.targetBytes > 0 && seed.maxAttempts > 0 && seed.version == 1 &&
    seed.createdAt != ZERO_TIME && seed.updatedAt != ZERO_TIME &&
    seed.availableAt != ZERO_TIME && seed.expiresAt != ZERO_TIME &&
    seed.updatedAt >= seed.createdAt && seed.availableAt >= seed.createdAt &&
    seed.expiresAt > seed.createdAt
  }

  predicate ValidWorker(worker: string) {
    Trimmed(worker) && BoundedText(worker, MAX_IDENTITY_BYTES)
  }

  predicate ValidClaim(worker: string, now: Time, deadline: Time) {
    ValidWorker(worker) && now != ZERO_TIME && deadline > now
  }

  predicate ValidMove(t: Transition) {
    ValidWorker(t.worker) &&
    ValidTransition(t.expected, t.next) &&
    t.expected != Queued && !Terminal(t.expected) && t.next != Queued && t.next != Expired &&
    0 <= t.progress <= 100 &&
    |t.message| <= MAX_PROGRESS_BYTES &&
    (t.next == Completed ==> t.progress == 100) &&
    (if t.next == Failed
     then BoundedText(t.errorCode, MAX_ERROR_CODE_BYTES) && BoundedText(t.errorMessage, MAX_ERROR_MESSAGE_BYTES)
     else t.errorCode == "" && t.errorMessage == "") &&
    t.now != ZERO_TIME && t.deadline > t.now
  }

  predicate ValidRecovery(now: Time, retryAt: Time, limit: int) {
    now != ZERO_TIME && retryAt >= now && 0 < limit <= MAX_BATCH
  }

  predicate OptionalTimeOk(t: Option<Time>, createdAt: Time) {
    t.Some? ==> t.value >= createdAt
  }

  function Text(column: Option<string>): string {
    if column.Some? then column.value else ""
  }

  /** The check every scanned row passes through; output columns stay NULL and are left out. */
  predicate ValidStored(j: Job) {
    ValidCreator(j.fixed.owner, j.fixed.creator) &&
    BoundedText(j.fixed.filename, MAX_FILENAME_BYTES) &&
    BoundedText(j.fixed.inputKey, MAX_KEY_BYTES) && j.fixed.inputBytes > 0 &&
    j.status in KNOWN && 0 <= j.progress <= 100 && |j.message| <= MAX_PROGRESS_BYTES &&
    0 <= j.attempts <= j.fixed.maxAttempts && j.fixed.maxAttempts > 0 && j.fixed.targetBytes > 0 &&
    |Text(j.leaseOwner)| <= MAX_IDENTITY_BYTES &&
    |Text(j.errorCode)| <= MAX_ERROR_CODE_BYTES &&
    |Text(j.errorMessage)| <= MAX_ERROR_MESSAGE_BYTES &&
    j.fixed.createdAt != ZERO_TIME && j.updatedAt != ZERO_TIME &&
    j.availableAt != ZERO_TIME && j.expiresAt != ZERO_TIME &&
    j.updatedAt >= j.fixed.createdAt && j.availableAt >= j.fixed.createdAt && j.version > 0 &&
    OptionalTimeOk(j.leaseExpiresAt, j.fixed.createdAt) &&
    OptionalTimeOk(j.heartbeatAt, j.fixed.createdAt) &&
    OptionalTimeOk(j.cancelRequestedAt, j.fixed.createdAt) &&
    OptionalTimeOk(j.startedAt, j.fixed.createdAt) &&
    OptionalTimeOk(j.completedAt, j.fixed.createdAt) &&
    OptionalTimeOk(j.deletionRequestedAt, j.fixed.createdAt)
  }

  // ---------------------------------------------------------------- constraints in SQL

  /** pdf_job_timestamp_order. Note that it says nothing about lease_expires_at. */
  predicate TimestampCheck(j: Job) {
    j.updatedAt >= j.fixed.createdAt && j.availableAt >= j.fixed.createdAt &&
    j.expiresAt > j.fixed.createdAt &&
    OptionalTimeOk(j.startedAt, j.fixed.createdAt) &&
    OptionalTimeOk(j.completedAt, j.fixed.createdAt) &&
    OptionalTimeOk(j.heartbeatAt, j.fixed.createdAt) &&
    OptionalTimeOk(j.cancelRequestedAt, j.fixed.createdAt) &&
    OptionalTimeOk(j.deletionRequestedAt, j.fixed.createdAt)
  }

  /** Every other constraint on columns that change, with the width of the integer columns. */
  predicate ValueCheck(j: Job) {
    j.status in KNOWN && 0 <= j.progress <= 100 && 0 <= j.attempts <= MAX_INT32 &&
    0 < j.version <= MAX_INT64 &&
    |j.message| <= MAX_PROGRESS_BYTES &&
    |Text(j.leaseOwner)| <= MAX_IDENTITY_BYTES &&
    |Text(j.errorCode)| <= MAX_ERROR_CODE_BYTES &&
    |Text(j.errorMessage)| <= MAX_ERROR_MESSAGE_BYTES
  }

  /** A statement that would break this aborts as a whole. */
  predicate RowCheck(j: Job) { TimestampCheck(j) && ValueCheck(j) }

  // ---------------------------------------------------------------- guards and effects

  predicate StopRequested(j: Job) {
    j.cancelRequestedAt.Some? || j.deletionRequestedAt.Some?
  }

  predicate Claimable(j: Job, now: Time) {
    j.status == Queued && j.availableAt <= now && j.expiresAt > now &&
    j.attempts < j.fixed.maxAttempts && !StopRequested(j)
  }

  predicate LeaseExpired(j: Job, now: Time) {
    Active(j.status) && j.leaseExpiresAt.Some? && j.leaseExpiresAt.value <= now
  }

  /** The lease guard shared by Heartbeat and Transition; the deadline is exclusive. */
  predicate HoldsLease(j: Job, worker: string, now: Time) {
    j.leaseOwner == Some(worker) && Active(j.status) &&
    j.leaseExpiresAt.Some? && j.leaseExpiresAt.value > now
  }

  predicate MoveAllowed(j: Job, t: Transition) {
    HoldsLease(j, t.worker, t.now) && j.status == t.expected && j.progress <= t.progress &&
    (t.next == Cancelled <==> StopRequested(j))
  }

  function QueuedJob(seed: Seed, filename: string, key: string, sha: Digest, bytes: int): Job
    requires seed.id.Uuid? && seed.uploadId.Uuid?
  {
    Job(Fixed(seed.id.id, seed.uploadId.id, seed.owner, seed.creator, filename, key, sha, bytes,
              seed.targetBytes as int, seed.maxAttempts as int, seed.createdAt),
        Queued, 0, "", 0, seed.availableAt, None, None, None, None, None, None,
        seed.updatedAt, None, None, seed.expiresAt, None, 1)
  }

  function Touched(j: Job, now: Time): Job {
    j.(updatedAt := Later(j.updatedAt, now), version := j.version + 1)
  }

  function Released(j: Job): Job {
    j.(leaseOwner := None, leaseExpiresAt := None, heartbeatAt := None)
  }

  /** Enters a terminal status; the first completion instant is kept. */
  function Ended(j: Job, status: Status, now: Time): Job {
    j.(status := status, completedAt := Coalesce(j.completedAt, Later(now, j.fixed.createdAt)))
  }

  function ClaimRow(j: Job, worker: string, now: Time, deadline: Time): Job {
    Touched(j, now).(status := Analyzing, attempts := j.attempts + 1,
                     leaseOwner := Some(worker), leaseExpiresAt := Some(deadline), heartbeatAt := Some(now),
                     startedAt := Coalesce(j.startedAt, Later(now, j.fixed.createdAt)))
  }

  function HeartbeatRow(j: Job, now: Time, deadline: Time): Job {
    if StopRequested(j) then j
    else Touched(j, now).(leaseExpiresAt := Some(deadline), heartbeatAt := Some(now))
  }

  function MoveRow(j: Job, t: Transition): Job {
    var moved := Touched(j, t.now).(status := t.next, progress := t.progress, message := t.message);
    if !Terminal(t.next) then moved.(leaseExpiresAt := Some(t.deadline), heartbeatAt := Some(t.now))
    else
      var ended := Released(Ended(moved, t.next, t.now));
      if t.next == Failed then ended.(errorCode := Nullable(t.errorCode), errorMessage := Nullable(t.errorMessage))
      else ended
  }

  function Nullable(text: string): Option<string> { if text == "" then None else Some(text) }

  predicate Retryable(j: Job) { !StopRequested(j) && j.attempts < j.fixed.maxAttempts }

  function RecoverRow(j: Job, now: Time, retryAt: Time): Job {
    var free := Touched(Released(j), now);
    if StopRequested(j) then Ended(free, Cancelled, now)
    else if Retryable(j) then free.(status := Queued, progress := 0, message := "", availableAt := retryAt)
    else Ended(free, Failed, now).(errorCode := Some(EXHAUSTED_CODE), errorMessage := Some(EXHAUSTED_MESSAGE))
  }

  /** Cancellation of a row: queued work stops at once, running work is asked to stop. */
  function CancelRow(j: Job, now: Time): Job {
    var at := Later(now, j.fixed.createdAt);
    if j.status == Queued then
      Ended(Touched(j, now), Cancelled, now).(cancelRequestedAt := Coalesce(j.cancelRequestedAt, at))
    else if Active(j.status) && j.cancelRequestedAt.None? then Touched(j, now).(cancelRequestedAt := Some(at))
    else j
  }

  function Tombstone(j: Job, now: Time): Job {
    j.(deletionRequestedAt := Coalesce(j.deletionRequestedAt, Later(now, j.fixed.createdAt)),
       expiresAt := Earlier(j.expiresAt, Later(now, j.fixed.createdAt + 1)))
  }

  /** Deletion requests cancellation, then tombstones the row and shortens its retention.
      A first deletion always bumps the version once; a repeated one never does. */
  function DeleteRow(j: Job, now: Time): Job {
    var stopped := CancelRow(j, now);
    Tombstone(if stopped == j && j.deletionRequestedAt.None? then Touched(j, now) else stopped, now)
  }
}
