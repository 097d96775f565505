/** The life of one row: every statement that changes a job does one of these things to it.
    What holds for every run of a row is proved here, by induction over its events. */
module JobRow {
  import opened Common
  import opened JobStatus
  import opened Job

  datatype RowEvent =
    | Unaffected
    | Claimed(worker: string, now: Time, deadline: Time)
    | Beat(worker: string, now: Time, deadline: Time)
    | Moved(t: Transition)
    | Recovered(now: Time, retryAt: Time)
    | CancelAsked(now: Time)
    | DeleteAsked(now: Time)

  function Apply(j: Job, e: RowEvent): Job {
    match e
    case Unaffected => j
    case Claimed(worker, now, deadline) => ClaimRow(j, worker, now, deadline)
    case Beat(_, now, deadline) => HeartbeatRow(j, now, deadline)
    case Moved(t) => MoveRow(j, t)
    case Recovered(now, retryAt) => RecoverRow(j, now, retryAt)
    case CancelAsked(now) => CancelRow(j, now)
    case DeleteAsked(now) => DeleteRow(j, now)
  }

  /** The validators of the call and the WHERE clause of the statement both accepted the row. */
  predicate Guard(j: Job, e: RowEvent) {
    match e
    case Unaffected => true
    case Claimed(worker, now, deadline) => ValidClaim(worker, now, deadline) && Claimable(j, now)
    case Beat(worker, now, deadline) => ValidClaim(worker, now, deadline) && HoldsLease(j, worker, now)
    case Moved(t) => ValidMove(t) && MoveAllowed(j, t)
    case Recovered(now, retryAt) => now != ZERO_TIME && retryAt >= now && LeaseExpired(j, now)
    case CancelAsked(now) => now != ZERO_TIME && j.deletionRequestedAt.None?
    case DeleteAsked(now) => now != ZERO_TIME
  }

  /** ... and no constraint made the statement abort. */
  predicate Happens(j: Job, e: RowEvent) {
    Guard(j, e) && (e.Unaffected? || RowCheck(Apply(j, e)))
  }

  // ---------------------------------------------------------------- the row invariant

  predicate FixedValid(f: Fixed) {
    ValidCreator(f.owner, f.creator) &&
    BoundedText(f.filename, MAX_FILENAME_BYTES) && BoundedText(f.inputKey, MAX_KEY_BYTES) &&
    f.inputBytes > 0 && f.targetBytes > 0 && 0 < f.maxAttempts <= MAX_INT32 && f.createdAt != ZERO_TIME
  }

  /** A lease exists exactly while a worker is active, and it ends after its last heartbeat. */
  predicate LeaseShape(j: Job) {
    (Active(j.status) <==> j.leaseOwner.Some?) &&
    (Active(j.status) <==> j.leaseExpiresAt.Some?) &&
    (Active(j.status) <==> j.heartbeatAt.Some?) &&
    (Active(j.status) ==>
       j.fixed.createdAt <= j.heartbeatAt.value < j.leaseExpiresAt.value && j.attempts >= 1)
  }

  predicate StatusShape(j: Job) {
    j.status != Expired && j.status != Unknown &&
    (j.status == Queued ==>
       j.attempts < j.fixed.maxAttempts && j.progress == 0 && j.message == "" && !StopRequested(j)) &&
    (Terminal(j.status) <==> j.completedAt.Some?) &&
    (j.status == Failed <==> j.errorCode.Some?) &&
    (j.status == Failed <==> j.errorMessage.Some?) &&
    (j.status == Cancelled <==> Terminal(j.status) && j.cancelRequestedAt.Some?) &&
    (j.status == Completed ==> j.progress == 100) &&
    (Active(j.status) && j.deletionRequestedAt.Some? ==> j.cancelRequestedAt.Some?)
  }

  predicate CountShape(j: Job) {
    0 <= j.attempts <= j.fixed.maxAttempts && (j.attempts >= 1 <==> j.startedAt.Some?)
  }

  /** A tombstone shortens retention to its own instant. */
  predicate RetentionShape(j: Job) {
    j.deletionRequestedAt.Some? ==>
      j.expiresAt <= Later(j.deletionRequestedAt.value, j.fixed.createdAt + 1)
  }

  predicate RowInv(j: Job) {
    FixedValid(j.fixed) && RowCheck(j) &&
    LeaseShape(j) && StatusShape(j) && CountShape(j) && RetentionShape(j)
  }

  lemma NewRowInv(seed: Seed, filename: string, key: string, sha: Digest, bytes: int)
    requires ValidSeed(seed)
    requires BoundedText(filename, MAX_FILENAME_BYTES) && BoundedText(key, MAX_KEY_BYTES) && bytes > 0
    ensures RowInv(QueuedJob(seed, filename, key, sha, bytes))
    ensures ValidStored(QueuedJob(seed, filename, key, sha, bytes))
  {
    var j := QueuedJob(seed, filename, key, sha, bytes);
    assert FixedValid(j.fixed);
    assert j.status in KNOWN;
    assert RowCheck(j);
  }

  lemma ClaimKeepsRowInv(j: Job, worker: string, now: Time, deadline: Time)
    requires RowInv(j) && Happens(j, Claimed(worker, now, deadline))
    ensures RowInv(ClaimRow(j, worker, now, deadline)) && ClaimRow(j, worker, now, deadline).fixed == j.fixed
  {
  }

  lemma BeatKeepsRowInv(j: Job, worker: string, now: Time, deadline: Time)
    requires RowInv(j) && Happens(j, Beat(worker, now, deadline))
    ensures RowInv(HeartbeatRow(j, now, deadline)) && HeartbeatRow(j, now, deadline).fixed == j.fixed
  {
  }

  lemma MoveKeepsRowInv(j: Job, t: Transition)
    requires RowInv(j) && Happens(j, Moved(t))
    ensures RowInv(MoveRow(j, t)) && MoveRow(j, t).fixed == j.fixed
  {
    if t.next == Failed {
      assert t.errorCode != "" && t.errorMessage != "";
    }
  }

  lemma RecoverKeepsRowInv(j: Job, now: Time, retryAt: Time)
    requires RowInv(j) && Happens(j, Recovered(now, retryAt))
    ensures RowInv(RecoverRow(j, now, retryAt)) && RecoverRow(j, now, retryAt).fixed == j.fixed
  {
  }

  lemma CancelKeepsRowInv(j: Job, now: Time)
    requires RowInv(j) && RowCheck(CancelRow(j, now))
    ensures RowInv(CancelRow(j, now)) && CancelRow(j, now).fixed == j.fixed
  {
  }

  lemma TombstoneKeepsRowInv(j: Job, now: Time)
    requires RowInv(j) && j.status != Queued && (Active(j.status) ==> j.cancelRequestedAt.Some?)
    ensures RowInv(Tombstone(j, now))
  {
  }

  lemma DeleteKeepsRowInv(j: Job, now: Time)
    requires RowInv(j) && RowCheck(DeleteRow(j, now))
    ensures RowInv(DeleteRow(j, now)) && DeleteRow(j, now).fixed == j.fixed
  {
    var stopped := CancelRow(j, now);
    var bumped := if stopped == j && j.deletionRequestedAt.None? then Touched(j, now) else stopped;
    assert bumped.version == DeleteRow(j, now).version;
    CancelKeepsRowInv(j, now);
    assert RowInv(bumped);
    TombstoneKeepsRowInv(bumped, now);
  }

  lemma WorkerEventKeepsRowInv(j: Job, e: RowEvent)
    requires RowInv(j) && Happens(j, e) && (e.Claimed? || e.Beat? || e.Moved?)
    ensures RowInv(Apply(j, e)) && Apply(j, e).fixed == j.fixed
  {
    match e
    case Claimed(worker, now, deadline) => ClaimKeepsRowInv(j, worker, now, deadline);
    case Beat(worker, now, deadline) => BeatKeepsRowInv(j, worker, now, deadline);
    case Moved(t) => MoveKeepsRowInv(j, t);
  }

  lemma CancellationKeepsRowInv(j: Job, e: RowEvent)
    requires RowInv(j) && Happens(j, e) && e.CancelAsked?
    ensures RowInv(Apply(j, e)) && Apply(j, e).fixed == j.fixed
  {
    CancelKeepsRowInv(j, e.now);
  }

  lemma DeletionKeepsRowInv(j: Job, e: RowEvent)
    requires RowInv(j) && Happens(j, e) && e.DeleteAsked?
    ensures RowInv(Apply(j, e)) && Apply(j, e).fixed == j.fixed
  {
    DeleteKeepsRowInv(j, e.now);
  }

  /** Every statement keeps the invariant, whatever clock value it is given. */
  lemma EventKeepsRowInv(j: Job, e: RowEvent)
    requires RowInv(j) && Happens(j, e)
    ensures RowInv(Apply(j, e)) && Apply(j, e).fixed == j.fixed
  {
    if e.Claimed? || e.Beat? || e.Moved? {
      WorkerEventKeepsRowInv(j, e);
    } else if e.CancelAsked? {
      CancellationKeepsRowInv(j, e);
    } else if e.DeleteAsked? {
      DeletionKeepsRowInv(j, e);
    } else if e.Recovered? {
      RecoverKeepsRowInv(j, e.now, e.retryAt);
    }
  }

  /** Raw SQL status writes included, every status change is an edge of the transitions table. */
  lemma EventFollowsEdge(j: Job, e: RowEvent)
    requires RowInv(j) && Happens(j, e)
    ensures Apply(j, e).status == j.status || CanTransition(j.status, Apply(j, e).status)
  {
    match e
    case Moved(t) =>
      assert t.expected == j.status;
    case _ =>
  }

  /** The clock readings that a timestamp constraint refuses although the guard let them pass: a
      running row may not record a heartbeat from before its creation. */
  predicate ClockBeforeCreation(j: Job, e: RowEvent) {
    match e
    case Beat(_, now, _) => !StopRequested(j) && now < j.fixed.createdAt
    case Moved(t) => !Terminal(t.next) && t.now < j.fixed.createdAt
    case _ => false
  }

  lemma MoveAbortsExactlyWhen(j: Job, t: Transition)
    requires RowInv(j) && Guard(j, Moved(t))
    ensures RowCheck(MoveRow(j, t)) <==> j.version < MAX_INT64 && !ClockBeforeCreation(j, Moved(t))
  {
  }

  lemma RecoveryAbortsExactlyWhen(j: Job, now: Time, retryAt: Time)
    requires RowInv(j) && Guard(j, Recovered(now, retryAt))
    ensures TimestampCheck(RecoverRow(j, now, retryAt))
    ensures RowCheck(RecoverRow(j, now, retryAt)) <==> j.version < MAX_INT64
  {
  }

  /** A deletion writes its version only the first time. */
  lemma DeletionAbortsExactlyWhen(j: Job, now: Time)
    requires RowInv(j)
    ensures RowCheck(DeleteRow(j, now)) <==> j.version < MAX_INT64 || j.deletionRequestedAt.Some?
  {
  }

  lemma ClaimAbortsExactlyWhen(j: Job, worker: string, now: Time, deadline: Time)
    requires RowInv(j) && Guard(j, Claimed(worker, now, deadline))
    ensures RowCheck(ClaimRow(j, worker, now, deadline)) <==> j.version < MAX_INT64
  {
  }

  lemma BeatAbortsExactlyWhen(j: Job, worker: string, now: Time, deadline: Time)
    requires RowInv(j) && Guard(j, Beat(worker, now, deadline))
    ensures RowCheck(HeartbeatRow(j, now, deadline)) <==>
            StopRequested(j) || (j.version < MAX_INT64 && now >= j.fixed.createdAt)
  {
  }

  lemma CancellationAbortsExactlyWhen(j: Job, now: Time)
    requires RowInv(j)
    ensures RowCheck(CancelRow(j, now)) <==> j.version < MAX_INT64 || Quiet(j, CancelAsked(now))
  {
  }

  /** The calls that leave a row's version alone, as their caller can see beforehand. */
  predicate Quiet(j: Job, e: RowEvent) {
    match e
    case Unaffected => true
    case Beat(_, _, _) => StopRequested(j)
    case CancelAsked(_) => Terminal(j.status) || (Active(j.status) && j.cancelRequestedAt.Some?)
    case DeleteAsked(_) => j.deletionRequestedAt.Some?
    case _ => false
  }

  /** Given the guard, exactly these conditions make a statement abort: the version column is used up
      and the call would write it, or a clock reading from before the row's creation. A recovery pass
      is never stopped by a timestamp constraint. */
  lemma AbortsExactlyWhen(j: Job, e: RowEvent)
    requires RowInv(j) && Guard(j, e)
    ensures RowCheck(Apply(j, e)) <==> (j.version < MAX_INT64 || Quiet(j, e)) && !ClockBeforeCreation(j, e)
    ensures e.Recovered? ==> TimestampCheck(Apply(j, e))
  {
    match e
    case Unaffected =>
    case Claimed(worker, now, deadline) => ClaimAbortsExactlyWhen(j, worker, now, deadline);
    case Beat(worker, now, deadline) => BeatAbortsExactlyWhen(j, worker, now, deadline);
    case Moved(t) => MoveAbortsExactlyWhen(j, t);
    case Recovered(now, retryAt) => RecoveryAbortsExactlyWhen(j, now, retryAt);
    case CancelAsked(now) => CancellationAbortsExactlyWhen(j, now);
    case DeleteAsked(now) => DeletionAbortsExactlyWhen(j, now);
  }

  /** The three mandatory instants that calls rewrite are set. */
  predicate TimesSet(j: Job) {
    j.updatedAt != ZERO_TIME && j.availableAt != ZERO_TIME && j.expiresAt != ZERO_TIME
  }

  /** A scanned row is rejected only for an instant that equals Go's zero time. */
  lemma AcceptedIffTimesSet(j: Job)
    requires RowInv(j)
    ensures ValidStored(j) <==> TimesSet(j)
    ensures j.fixed.createdAt > ZERO_TIME ==> ValidStored(j)
  {
  }

  lemma RecoveryStaysAcceptedIff(j: Job, now: Time, retryAt: Time)
    requires RowInv(j) && ValidStored(j) && Happens(j, Recovered(now, retryAt))
    ensures ValidStored(RecoverRow(j, now, retryAt)) <==> !(Retryable(j) && retryAt == ZERO_TIME)
  {
    RecoverKeepsRowInv(j, now, retryAt);
    AcceptedIffTimesSet(RecoverRow(j, now, retryAt));
  }

  lemma DeletionStaysAcceptedIff(j: Job, now: Time)
    requires RowInv(j) && ValidStored(j) && Happens(j, DeleteAsked(now))
    ensures ValidStored(DeleteRow(j, now)) <==> !(j.fixed.createdAt == -1 && now < ZERO_TIME < j.expiresAt)
  {
    DeleteKeepsRowInv(j, now);
    AcceptedIffTimesSet(DeleteRow(j, now));
  }

  /** From an accepted row, the only statements whose outcome the scan can reject are a requeue
      scheduled for the zero instant and a deletion of a row created one tick before it. */
  lemma StaysAcceptedIff(j: Job, e: RowEvent)
    requires RowInv(j) && ValidStored(j) && Happens(j, e)
    ensures ValidStored(Apply(j, e)) <==>
            !(e.Recovered? && Retryable(j) && e.retryAt == ZERO_TIME) &&
            !(e.DeleteAsked? && j.fixed.createdAt == -1 && e.now < ZERO_TIME < j.expiresAt)
  {
    match e
    case Recovered(now, retryAt) => RecoveryStaysAcceptedIff(j, now, retryAt);
    case DeleteAsked(now) => DeletionStaysAcceptedIff(j, now);
    case _ =>
      EventKeepsRowInv(j, e);
      AcceptedIffTimesSet(Apply(j, e));
  }
}
