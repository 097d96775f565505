/** The seven statements on pdf_job as functions on the whole table: which rows they select,
    what they return, and when they abort. The locked sets are the rows that other transactions
    hold while FOR UPDATE SKIP LOCKED chooses. */
module JobTable {
  import opened Common
  import opened JobStatus
  import opened Job
  import opened JobRow
  import opened RowOrder
  import U = Upload

  type Table = map<nat, Job>

  // ---------------------------------------------------------------- storing one row

  /** The scan of a returned row; a rejected row is already written. */
  function Scan(j: Job): Result<Job, JobError> {
    if ValidStored(j) then Ok(j) else Err(StorageFailure)
  }

  function Put(jobs: Table, id: nat, j: Job): (Table, Result<Job, JobError>) {
    if RowCheck(j) then (jobs[id := j], Scan(j)) else (jobs, Err(StorageFailure))
  }

  // ---------------------------------------------------------------- create

  /** The source row of the insert: a committed upload with the same owner. */
  predicate IsSource(s: U.Session, owner: Owner) {
    s.owner.Columns() == owner.Columns() && s.status == U.Committed && s.committedSha.Some? &&
    s.committedAt.Some? && s.receivedBytes == s.declaredSize
  }

  ghost predicate UploadHasJob(jobs: Table, upload: nat, id: nat) {
    id in jobs && jobs[id].fixed.uploadId == upload
  }

  /** The unique index on upload_id. */
  ghost predicate OneJobPerUpload(jobs: Table) {
    forall a, b :: a in jobs && b in jobs && a != b ==> jobs[a].fixed.uploadId != jobs[b].fixed.uploadId
  }

  ghost predicate HasJob(jobs: Table, upload: nat) {
    exists id :: UploadHasJob(jobs, upload, id)
  }

  ghost function JobOf(jobs: Table, upload: nat): (id: nat)
    requires HasJob(jobs, upload)
    ensures UploadHasJob(jobs, upload, id)
  {
    var id :| UploadHasJob(jobs, upload, id);
    id
  }

  ghost predicate InputKeyTaken(jobs: Table, key: string) {
    exists id :: id in jobs && jobs[id].fixed.inputKey == key
  }

  /** ON CONFLICT (upload_id): an existing job of the upload is returned if its owner matches. */
  function ReturnExisting(existing: Job, owner: Owner): Result<Job, JobError> {
    if existing.fixed.owner.Columns() != owner.Columns() then Err(NotFound)
    else if !ValidStored(existing) then Err(StorageFailure)
    else if existing.deletionRequestedAt.Some? then Err(Conflict)
    else Ok(existing)
  }

  ghost function Insert(jobs: Table, seed: Seed, s: U.Session): (Table, Result<Job, JobError>)
    requires seed.id.Uuid? && seed.uploadId.Uuid? && s.committedSha.Some?
  {
    if HasJob(jobs, seed.uploadId.id) then
      (jobs, ReturnExisting(jobs[JobOf(jobs, seed.uploadId.id)], seed.owner))
    else if seed.id.id in jobs || InputKeyTaken(jobs, s.objectKey) then (jobs, Err(Conflict))
    else Put(jobs, seed.id.id, QueuedJob(seed, s.filename, s.objectKey, s.committedSha.value, s.declaredSize as int))
  }

  ghost function Create(uploads: map<nat, U.Session>, jobs: Table, seed: Seed): (Table, Result<Job, JobError>) {
    if !ValidSeed(seed) then (jobs, Err(Invalid))
    else if seed.uploadId.id !in uploads || !IsSource(uploads[seed.uploadId.id], seed.owner) then (jobs, Err(NotFound))
    else Insert(jobs, seed, uploads[seed.uploadId.id])
  }

  // ---------------------------------------------------------------- the worker side

  function ClaimKeys(jobs: Table, now: Time, locked: set<nat>): (keys: map<nat, Key>)
    ensures Keyed(keys)
  {
    map id | id in jobs && id !in locked && Claimable(jobs[id], now) ::
      Key(jobs[id].availableAt, jobs[id].fixed.createdAt, id)
  }

  ghost function Claim(jobs: Table, worker: string, now: Time, deadline: Time, locked: set<nat>)
    : (Table, Result<Job, JobError>)
  {
    var keys := ClaimKeys(jobs, now, locked);
    if !ValidClaim(worker, now, deadline) then (jobs, Err(Invalid))
    else if keys == map[] then (jobs, Err(NoJobAvailable))
    else Put(jobs, Least(keys), ClaimRow(jobs[Least(keys)], worker, now, deadline))
  }

  function Heartbeat(jobs: Table, id: IdText, worker: string, now: Time, deadline: Time)
      : (Table, Result<Job, JobError>) {
    if !id.Uuid? then (jobs, Err(LeaseLost))
    else if !ValidClaim(worker, now, deadline) then (jobs, Err(Invalid))
    else if id.id !in jobs || !HoldsLease(jobs[id.id], worker, now) then (jobs, Err(LeaseLost))
    else
      var (r, result) := Put(jobs, id.id, HeartbeatRow(jobs[id.id], now, deadline));
      (r, if result.Ok? && StopRequested(result.value) then Err(CancellationRequested(result.value)) else result)
  }

  function Move(jobs: Table, t: Transition): (Table, Result<Job, JobError>) {
    if !t.jobId.Uuid? then (jobs, Err(LeaseLost))
    else if !ValidMove(t) then (jobs, Err(Invalid))
    else if t.jobId.id !in jobs || !MoveAllowed(jobs[t.jobId.id], t) then (jobs, Err(LeaseLost))
    else Put(jobs, t.jobId.id, MoveRow(jobs[t.jobId.id], t))
  }

  function RecoverKeys(jobs: Table, now: Time, locked: set<nat>): (keys: map<nat, Key>)
    ensures Keyed(keys)
  {
    map id | id in jobs && id !in locked && LeaseExpired(jobs[id], now) ::
      Key(jobs[id].leaseExpiresAt.value, 0, id)
  }

  /** The rows one pass selects: the first ones by deadline, at most limit of them. */
  ghost function Batch(jobs: Table, now: Time, limit: nat, locked: set<nat>): seq<nat> {
    Limited(Ordered(RecoverKeys(jobs, now, locked)), limit)
  }

  function RecoverAll(jobs: Table, ids: set<nat>, now: Time, retryAt: Time): Table {
    map id | id in jobs :: if id in ids then RecoverRow(jobs[id], now, retryAt) else jobs[id]
  }

  ghost predicate BatchFits(after: Table, batch: seq<nat>) {
    forall id :: id in Members(batch) && id in after ==> RowCheck(after[id])
  }

  datatype Recovery = Recovery(requeued: int, cancelled: int, failed: int)

  /** One more returned row in the three count(*) FILTER aggregates. */
  function Counting(r: Recovery, jobs: Table, id: nat): Recovery {
    if id !in jobs then r
    else
      match jobs[id].status
      case Queued => r.(requeued := r.requeued + 1)
      case Cancelled => r.(cancelled := r.cancelled + 1)
      case Failed => r.(failed := r.failed + 1)
      case _ => r
  }

  function Counted(jobs: Table, ids: seq<nat>): Recovery {
    if ids == [] then Recovery(0, 0, 0) else Counting(Counted(jobs, ids[..|ids| - 1]), jobs, ids[|ids| - 1])
  }

  ghost function Recover(jobs: Table, now: Time, retryAt: Time, limit: int, locked: set<nat>)
    : (Table, Result<Recovery, JobError>)
  {
    if !ValidRecovery(now, retryAt, limit) then (jobs, Err(Invalid))
    else
      var batch := Batch(jobs, now, limit, locked);
      var after := RecoverAll(jobs, Members(batch), now, retryAt);
      if !BatchFits(after, batch) then (jobs, Err(StorageFailure))
      else (after, Ok(Counted(after, batch)))
  }

  function WithStatus(jobs: Table, ids: seq<nat>, status: Status): set<nat> {
    set id | id in ids && id in jobs && jobs[id].status == status
  }

  lemma OneMoreWithStatus(jobs: Table, front: seq<nat>, last: nat, status: Status)
    requires last !in front
    ensures |WithStatus(jobs, front + [last], status)| ==
              |WithStatus(jobs, front, status)| + (if last in jobs && jobs[last].status == status then 1 else 0)
  {
    if last in jobs && jobs[last].status == status {
      assert WithStatus(jobs, front + [last], status) == WithStatus(jobs, front, status) + {last};
    } else {
      assert WithStatus(jobs, front + [last], status) == WithStatus(jobs, front, status);
    }
  }

  /** The three counts of distinct rows are how many of them have each status. */
  lemma {:induction false} CountsAreSizes(jobs: Table, ids: seq<nat>)
    requires Distinct(ids)
    ensures Counted(jobs, ids) ==
            Recovery(|WithStatus(jobs, ids, Queued)|, |WithStatus(jobs, ids, Cancelled)|,
                     |WithStatus(jobs, ids, Failed)|)
    decreases |ids|
  {
    if ids != [] {
      var front, last := ids[..|ids| - 1], ids[|ids| - 1];
      assert ids == front + [last];
      CountsAreSizes(jobs, front);
      OneMoreWithStatus(jobs, front, last, Queued);
      OneMoreWithStatus(jobs, front, last, Cancelled);
      OneMoreWithStatus(jobs, front, last, Failed);
    }
  }

  // ---------------------------------------------------------------- the owner side

  predicate Owned(jobs: Table, id: nat, owner: Owner) {
    id in jobs && jobs[id].fixed.owner.Columns() == owner.Columns()
  }

  /** What an owner's reads can see: own rows without a tombstone. */
  predicate Visible(jobs: Table, id: nat, owner: Owner) {
    Owned(jobs, id, owner) && jobs[id].deletionRequestedAt.None?
  }

  function Get(jobs: Table, id: IdText, owner: Owner): Result<Job, JobError> {
    if !id.Uuid? || !owner.Valid() || !Visible(jobs, id.id, owner) then Err(NotFound) else Scan(jobs[id.id])
  }

  function Cancel(jobs: Table, id: IdText, owner: Owner, now: Time): (Table, Result<Job, JobError>) {
    if !id.Uuid? || !owner.Valid() then (jobs, Err(NotFound))
    else if now == ZERO_TIME then (jobs, Err(Invalid))
    else if !Owned(jobs, id.id, owner) || jobs[id.id].deletionRequestedAt.Some? then (jobs, Err(NotFound))
    else Put(jobs, id.id, CancelRow(jobs[id.id], now))
  }

  function Delete(jobs: Table, id: IdText, owner: Owner, now: Time): (Table, Option<JobError>) {
    if !id.Uuid? then (jobs, None)
    else if !owner.Valid() then (jobs, Some(NotFound))
    else if now == ZERO_TIME then (jobs, Some(Invalid))
    else if !Owned(jobs, id.id, owner) then (jobs, None)
    else
      var row := DeleteRow(jobs[id.id], now);
      if RowCheck(row) then (jobs[id.id := row], None) else (jobs, Some(StorageFailure))
  }

  // ---------------------------------------------------------------- one step of the table

  datatype JobEvent =
    | Created(seed: Seed)
    | ClaimAsked(worker: string, now: Time, deadline: Time, locked: set<nat>)
    | BeatSent(id: IdText, worker: string, now: Time, deadline: Time)
    | MoveSent(t: Transition)
    | RecoverAsked(now: Time, retryAt: Time, limit: int, locked: set<nat>)
    | CancelSent(id: IdText, owner: Owner, now: Time)
    | DeleteSent(id: IdText, owner: Owner, now: Time)

  ghost function Step(uploads: map<nat, U.Session>, jobs: Table, e: JobEvent): Table {
    match e
    case Created(seed) => Create(uploads, jobs, seed).0
    case ClaimAsked(worker, now, deadline, locked) => Claim(jobs, worker, now, deadline, locked).0
    case BeatSent(id, worker, now, deadline) => Heartbeat(jobs, id, worker, now, deadline).0
    case MoveSent(t) => Move(jobs, t).0
    case RecoverAsked(now, retryAt, limit, locked) => Recover(jobs, now, retryAt, limit, locked).0
    case CancelSent(id, owner, now) => Cancel(jobs, id, owner, now).0
    case DeleteSent(id, owner, now) => Delete(jobs, id, owner, now).0
  }

  /** What one statement does to one row. */
  ghost function Effect(jobs: Table, e: JobEvent, id: nat): RowEvent
    requires id in jobs
  {
    match e
    case Created(_) => Unaffected
    case ClaimAsked(worker, now, deadline, locked) =>
      var keys := ClaimKeys(jobs, now, locked);
      if ValidClaim(worker, now, deadline) && keys != map[] && Least(keys) == id &&
         RowCheck(ClaimRow(jobs[id], worker, now, deadline))
      then Claimed(worker, now, deadline) else Unaffected
    case BeatSent(target, worker, now, deadline) =>
      if target == Uuid(id) && ValidClaim(worker, now, deadline) && HoldsLease(jobs[id], worker, now) &&
         RowCheck(HeartbeatRow(jobs[id], now, deadline))
      then Beat(worker, now, deadline) else Unaffected
    case MoveSent(t) =>
      if t.jobId == Uuid(id) && ValidMove(t) && MoveAllowed(jobs[id], t) && RowCheck(MoveRow(jobs[id], t))
      then Moved(t) else Unaffected
    case RecoverAsked(now, retryAt, limit, locked) =>
      if Recover(jobs, now, retryAt, limit, locked).1.Ok? && id in Members(Batch(jobs, now, limit, locked))
      then Recovered(now, retryAt) else Unaffected
    case CancelSent(target, owner, now) =>
      if target == Uuid(id) && owner.Valid() && now != ZERO_TIME && Owned(jobs, id, owner) &&
         jobs[id].deletionRequestedAt.None? && RowCheck(CancelRow(jobs[id], now))
      then CancelAsked(now) else Unaffected
    case DeleteSent(target, owner, now) =>
      if target == Uuid(id) && owner.Valid() && now != ZERO_TIME && Owned(jobs, id, owner) &&
         RowCheck(DeleteRow(jobs[id], now))
      then DeleteAsked(now) else Unaffected
  }

  /** A batch is a part of the expired, unlocked rows, each listed once. */
  lemma BatchMembers(jobs: Table, now: Time, limit: nat, locked: set<nat>)
    ensures var batch := Batch(jobs, now, limit, locked);
            var keys := RecoverKeys(jobs, now, locked);
            Members(batch) <= keys.Keys && Distinct(batch) && Ascending(keys, batch) &&
            |batch| == (if |keys| <= limit then |keys| else limit)
  {
    LimitedIsAscending(RecoverKeys(jobs, now, locked), limit);
  }

  lemma BatchRowsExpired(jobs: Table, now: Time, limit: nat, locked: set<nat>, id: nat)
    requires id in Members(Batch(jobs, now, limit, locked))
    ensures id in jobs && id !in locked && LeaseExpired(jobs[id], now)
  {
    BatchMembers(jobs, now, limit, locked);
    assert id in RecoverKeys(jobs, now, locked);
  }

  lemma RecoverActsOnRow(jobs: Table, now: Time, retryAt: Time, limit: int, locked: set<nat>, id: nat)
    requires id in jobs
    ensures var effect := Effect(jobs, RecoverAsked(now, retryAt, limit, locked), id);
            var after := Recover(jobs, now, retryAt, limit, locked).0;
            id in after && after[id] == Apply(jobs[id], effect) && Happens(jobs[id], effect)
  {
    if ValidRecovery(now, retryAt, limit) && id in Members(Batch(jobs, now, limit, locked)) {
      BatchRowsExpired(jobs, now, limit, locked, id);
    }
  }

  lemma ClaimActsOnRow(jobs: Table, worker: string, now: Time, deadline: Time, locked: set<nat>, id: nat)
    requires id in jobs
    ensures var effect := Effect(jobs, ClaimAsked(worker, now, deadline, locked), id);
            var after := Claim(jobs, worker, now, deadline, locked).0;
            id in after && after[id] == Apply(jobs[id], effect) && Happens(jobs[id], effect)
  {
  }

  lemma MoveActsOnRow(jobs: Table, t: Transition, id: nat)
    requires id in jobs
    ensures var effect := Effect(jobs, MoveSent(t), id);
            var after := Move(jobs, t).0;
            id in after && after[id] == Apply(jobs[id], effect) && Happens(jobs[id], effect)
  {
  }

  /** Every statement acts on each existing row as one row event that can happen to it, and
      removes no row. */
  lemma StepActsOnRow(uploads: map<nat, U.Session>, jobs: Table, e: JobEvent, id: nat)
    requires id in jobs
    ensures id in Step(uploads, jobs, e)
    ensures Step(uploads, jobs, e)[id] == Apply(jobs[id], Effect(jobs, e, id))
    ensures Happens(jobs[id], Effect(jobs, e, id))
  {
    match e
    case ClaimAsked(worker, now, deadline, locked) => ClaimActsOnRow(jobs, worker, now, deadline, locked, id);
    case MoveSent(t) => MoveActsOnRow(jobs, t, id);
    case RecoverAsked(now, retryAt, limit, locked) => RecoverActsOnRow(jobs, now, retryAt, limit, locked, id);
    case _ =>
  }

  lemma MoveInvalid(jobs: Table, t: Transition)
    requires t.jobId.Uuid? && !ValidMove(t)
    ensures Move(jobs, t) == (jobs, Err(Invalid))
  {
  }

  /** The only way a row appears. */
  lemma NewRowsAreCreated(uploads: map<nat, U.Session>, jobs: Table, e: JobEvent, id: nat)
    requires id !in jobs && id in Step(uploads, jobs, e)
    ensures e.Created? && ValidSeed(e.seed) && e.seed.id == Uuid(id) &&
            e.seed.uploadId.id in uploads && IsSource(uploads[e.seed.uploadId.id], e.seed.owner)
    ensures var s := uploads[e.seed.uploadId.id];
            Step(uploads, jobs, e)[id] ==
              QueuedJob(e.seed, s.filename, s.objectKey, s.committedSha.value, s.declaredSize as int)
    ensures !HasJob(jobs, e.seed.uploadId.id)
  {
  }

  ghost predicate TableInv(jobs: Table) {
    forall id :: id in jobs ==> jobs[id].fixed.id == id && RowInv(jobs[id])
  }
}
