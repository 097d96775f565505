/** What the callers of the job store are promised, said in the columns of the rows before and after
    a call and in its answers, without the functions that define the calls. */
module JobCalls {
  import opened Common
  import opened JobStatus
  import opened Job
  import opened JobRow
  import opened RowOrder
  import opened JobTable
  import U = Upload
  import R = Runs

  /** A first instant: kept if it was set, otherwise the clock reading or the creation. */
  predicate FirstAt(after: Option<Time>, before: Option<Time>, now: Time, createdAt: Time) {
    after.Some? && if before.Some? then after == before else IsLater(after.value, now, createdAt)
  }

  /** Every mutation that is recorded bumps the version and never moves updated_at back. */
  predicate Recorded(j: Job, k: Job, now: Time) {
    k.version == j.version + 1 && IsLater(k.updatedAt, j.updatedAt, now)
  }

  predicate NoLease(j: Job) {
    j.leaseOwner == None && j.leaseExpiresAt == None && j.heartbeatAt == None
  }

  predicate SameLease(j: Job, k: Job) {
    k.leaseOwner == j.leaseOwner && k.leaseExpiresAt == j.leaseExpiresAt && k.heartbeatAt == j.heartbeatAt
  }

  predicate SameError(j: Job, k: Job) { k.errorCode == j.errorCode && k.errorMessage == j.errorMessage }

  predicate SameRequests(j: Job, k: Job) {
    k.cancelRequestedAt == j.cancelRequestedAt && k.deletionRequestedAt == j.deletionRequestedAt
  }

  predicate SameWork(j: Job, k: Job) {
    k.progress == j.progress && k.message == j.message && k.attempts == j.attempts && k.availableAt == j.availableAt &&
    k.startedAt == j.startedAt
  }

  /** A call changes at most this row. */
  ghost predicate OnlyRow(jobs: Table, r: Table, id: nat) {
    r.Keys == jobs.Keys && forall other :: other in jobs && other != id ==> r[other] == jobs[other]
  }

  // ---------------------------------------------------------------- create

  /** Columns of a new row that come from the seed. */
  predicate FromSeed(j: Job, seed: Seed) {
    seed.id == Uuid(j.fixed.id) && seed.uploadId == Uuid(j.fixed.uploadId) && j.fixed.owner == seed.owner &&
    j.fixed.creator == seed.creator && j.fixed.targetBytes == seed.targetBytes as int &&
    j.fixed.maxAttempts == seed.maxAttempts as int && j.fixed.createdAt == seed.createdAt &&
    j.updatedAt == seed.updatedAt && j.availableAt == seed.availableAt && j.expiresAt == seed.expiresAt
  }

  /** A created row carries the request and the committed upload, and has not begun. */
  lemma CreatedRow(uploads: map<nat, U.Session>, jobs: Table, seed: Seed, id: nat)
    requires id !in jobs && id in Create(uploads, jobs, seed).0
    ensures var (r, answer) := Create(uploads, jobs, seed);
            var k := r[id];
            r == jobs[id := k] && answer == Scan(k) && FromSeed(k, seed) && k.fixed.uploadId in uploads &&
            var s := uploads[k.fixed.uploadId];
            s.status == U.Committed && s.receivedBytes == s.declaredSize && s.owner.Columns() == seed.owner.Columns() &&
            k.fixed.filename == s.filename && k.fixed.inputKey == s.objectKey &&
            Some(k.fixed.inputSha) == s.committedSha &&
            k.fixed.inputBytes == s.declaredSize as int &&
            k.status == Queued && k.progress == 0 && k.message == "" && k.attempts == 0 && k.version == 1 &&
            NoLease(k) && k.cancelRequestedAt.None? && k.deletionRequestedAt.None? && k.startedAt.None? &&
            k.completedAt.None? && k.errorCode.None? && k.errorMessage.None?
  {
  }

  /** An anonymous job has no identity snapshot; any other has a complete one, the e-mail apart. */
  predicate WellFormedCreator(owner: Owner, c: Creator) {
    if owner.kind == Anonymous then c.externalId == 0 && c.login == "" && c.name == "" && c.email == ""
    else c.externalId > 0 && BoundedText(c.login, 255) && BoundedText(c.name, 255) &&
         (c.email == "" || BoundedText(c.email, 320))
  }

  /** Which seeds are refused, and which uploads are not found. */
  lemma CreateRefusals(uploads: map<nat, U.Session>, jobs: Table, seed: Seed)
    ensures var answer := Create(uploads, jobs, seed).1;
            var wellFormed :=
              seed.id.Uuid? && seed.uploadId.Uuid? && seed.owner.Valid() &&
              WellFormedCreator(seed.owner, seed.creator) &&
              seed.filename == "" && seed.inputKey == "" && seed.inputSha == 0 && seed.inputBytes == 0 &&
              seed.status == Queued && seed.progress == 0 && seed.message == "" && seed.attempts == 0 &&
              seed.targetBytes > 0 && seed.maxAttempts > 0 && seed.version == 1 &&
              seed.createdAt != 0 && seed.updatedAt != 0 && seed.availableAt != 0 && seed.expiresAt != 0 &&
              seed.createdAt <= seed.updatedAt && seed.createdAt <= seed.availableAt && seed.createdAt < seed.expiresAt;
            (answer == Err(Invalid) <==> !wellFormed) &&
            (wellFormed && seed.uploadId.id !in uploads ==> answer == Err(NotFound)) &&
            (answer.Err? ==> Create(uploads, jobs, seed).0 == jobs || answer == Err(StorageFailure))
  {
  }

  /** Asking for the job of an upload that has one: not found for another owner, otherwise the job as
      it stands, or a conflict once its deletion was requested. Nothing changes. */
  lemma ExistingJobAnswers(uploads: map<nat, U.Session>, jobs: Table, seed: Seed, id: nat)
    requires OneJobPerUpload(jobs) && ValidSeed(seed) && seed.uploadId.id in uploads
    requires IsSource(uploads[seed.uploadId.id], seed.owner)
    requires id in jobs && jobs[id].fixed.uploadId == seed.uploadId.id
    ensures var mine := jobs[id].fixed.owner.Columns() == seed.owner.Columns();
            var accepted := ValidStored(jobs[id]);
            var (r, answer) := Create(uploads, jobs, seed);
            r == jobs && (answer == Err(NotFound) <==> !mine) &&
            (answer == Err(StorageFailure) <==> mine && !accepted) &&
            (answer == Err(Conflict) <==> mine && accepted && jobs[id].deletionRequestedAt.Some?) &&
            (mine && accepted && jobs[id].deletionRequestedAt.None? ==> answer == Ok(jobs[id]))
  {
    assert UploadHasJob(jobs, seed.uploadId.id, id);
    assert HasJob(jobs, seed.uploadId.id) && JobOf(jobs, seed.uploadId.id) == id;
  }

  /** A generated identifier or an object key that is taken is a conflict. */
  lemma TakenKeysConflict(uploads: map<nat, U.Session>, jobs: Table, seed: Seed)
    requires ValidSeed(seed) && seed.uploadId.id in uploads && IsSource(uploads[seed.uploadId.id], seed.owner)
    requires forall id :: id in jobs ==> jobs[id].fixed.uploadId != seed.uploadId.id
    ensures var key := uploads[seed.uploadId.id].objectKey;
            var taken := seed.id.id in jobs || exists id :: id in jobs && jobs[id].fixed.inputKey == key;
            (Create(uploads, jobs, seed).1 == Err(Conflict) <==> taken) &&
            (taken ==> Create(uploads, jobs, seed).0 == jobs)
  {
    assert forall id :: !UploadHasJob(jobs, seed.uploadId.id, id);
    assert !HasJob(jobs, seed.uploadId.id);
  }

  // ---------------------------------------------------------------- claim

  /** A claim is refused for a bad worker or lease, finds nothing iff no unlocked row is waiting. */
  lemma ClaimRefusals(jobs: Table, worker: string, now: Time, deadline: Time, locked: set<nat>)
    ensures var answer := Claim(jobs, worker, now, deadline, locked).1;
            var wellFormed := Trimmed(worker) && !Blank(worker) && |worker| <= 255 && now != 0 && now < deadline;
            (answer == Err(Invalid) <==> !wellFormed) &&
            (answer == Err(NoJobAvailable) <==>
               wellFormed &&
               !exists id :: id in jobs && id !in locked && jobs[id].status == Queued && jobs[id].availableAt <= now &&
                 now < jobs[id].expiresAt && jobs[id].attempts < jobs[id].fixed.maxAttempts &&
                 jobs[id].cancelRequestedAt.None? && jobs[id].deletionRequestedAt.None?)
  {
    var keys := ClaimKeys(jobs, now, locked);
    if id :| id in jobs && id !in locked && Claimable(jobs[id], now) {
      assert id in keys;
    } else {
      assert keys == map[];
    }
  }

  /** ORDER BY available_at, created_at, id. */
  predicate ClaimedBefore(a: Job, b: Job) {
    a.availableAt < b.availableAt ||
    (a.availableAt == b.availableAt &&
     (a.fixed.createdAt < b.fixed.createdAt || (a.fixed.createdAt == b.fixed.createdAt && a.fixed.id < b.fixed.id)))
  }

  /** The row that a claim changes precedes every other unlocked eligible one in the columns it is
      ordered by. */
  lemma ClaimFollowsOrder(jobs: Table, worker: string, now: Time, deadline: Time, locked: set<nat>, id: nat, other: nat)
    requires id in jobs && id in Claim(jobs, worker, now, deadline, locked).0
    requires Claim(jobs, worker, now, deadline, locked).0[id] != jobs[id]
    requires other in jobs && other != id && other !in locked && Claimable(jobs[other], now)
    requires jobs[id].fixed.id == id && jobs[other].fixed.id == other
    ensures id !in locked && ClaimedBefore(jobs[id], jobs[other])
  {
    var keys := ClaimKeys(jobs, now, locked);
    assert other in keys && Least(keys) in keys;
  }

  /** What a claim does to the row it changes. */
  lemma ClaimedRow(jobs: Table, worker: string, now: Time, deadline: Time, locked: set<nat>, id: nat)
    requires id in jobs && id in Claim(jobs, worker, now, deadline, locked).0
    requires Claim(jobs, worker, now, deadline, locked).0[id] != jobs[id]
    ensures var (r, answer) := Claim(jobs, worker, now, deadline, locked);
            var j, k := jobs[id], r[id];
            OnlyRow(jobs, r, id) && answer == Scan(k) && Claimable(j, now) && k.fixed == j.fixed &&
            k.status == Analyzing && k.attempts == j.attempts + 1 && k.leaseOwner == Some(worker) &&
            k.leaseExpiresAt == Some(deadline) && k.heartbeatAt == Some(now) &&
            FirstAt(k.startedAt, j.startedAt, now, j.fixed.createdAt) && Recorded(j, k, now) &&
            k.progress == j.progress && k.message == j.message && k.availableAt == j.availableAt &&
            k.completedAt == j.completedAt && k.expiresAt == j.expiresAt && SameRequests(j, k) && SameError(j, k)
  {
    var keys := ClaimKeys(jobs, now, locked);
    assert keys != map[] ==> Least(keys) in keys;
  }

  // ---------------------------------------------------------------- heartbeat

  /** The caller holds an unexpired lease on the row. */
  predicate Leased(jobs: Table, id: nat, worker: string, now: Time) {
    id in jobs && jobs[id].leaseOwner == Some(worker) && jobs[id].leaseExpiresAt.Some? &&
    now < jobs[id].leaseExpiresAt.value &&
    (jobs[id].status == Analyzing || jobs[id].status == Optimizing || jobs[id].status == Validating)
  }

  lemma HeartbeatRefusals(jobs: Table, id: IdText, worker: string, now: Time, deadline: Time)
    ensures var (r, answer) := Heartbeat(jobs, id, worker, now, deadline);
            var wellFormed := Trimmed(worker) && !Blank(worker) && |worker| <= 255 && now != 0 && now < deadline;
            (answer == Err(Invalid) <==> id.Uuid? && !wellFormed) &&
            (answer == Err(LeaseLost) <==> !id.Uuid? || (wellFormed && !Leased(jobs, id.id, worker, now))) &&
            (answer == Err(Invalid) || answer == Err(LeaseLost) ==> r == jobs)
  {
  }

  /** A worker whose job was asked to stop is told so, and its lease is not extended; nobody else is
      told so. */
  lemma StoppedWorkerIsTold(jobs: Table, id: nat, worker: string, now: Time, deadline: Time)
    requires ValidClaim(worker, now, deadline) && Leased(jobs, id, worker, now)
    requires RowInv(jobs[id]) && ValidStored(jobs[id])
    ensures var (r, answer) := Heartbeat(jobs, Uuid(id), worker, now, deadline);
            var stop := jobs[id].cancelRequestedAt.Some? || jobs[id].deletionRequestedAt.Some?;
            (answer.Err? && answer.error.CancellationRequested? <==> stop) &&
            (stop ==> r == jobs && answer == Err(CancellationRequested(jobs[id])))
  {
    SelfUpdate(jobs, id);
  }

  lemma SelfUpdate(jobs: Table, id: nat)
    requires id in jobs
    ensures jobs[id := jobs[id]] == jobs
  {
  }

  /** What a heartbeat does to the row it changes. */
  lemma BeatenRow(jobs: Table, id: nat, worker: string, now: Time, deadline: Time)
    requires id in jobs && Heartbeat(jobs, Uuid(id), worker, now, deadline).0 != jobs
    ensures var (r, answer) := Heartbeat(jobs, Uuid(id), worker, now, deadline);
            OnlyRow(jobs, r, id) && Leased(jobs, id, worker, now) && answer == Scan(r[id]) &&
            var j, k := jobs[id], r[id];
            j.cancelRequestedAt.None? && j.deletionRequestedAt.None? && k.fixed == j.fixed && k.status == j.status &&
            k.leaseOwner == Some(worker) && k.leaseExpiresAt == Some(deadline) && k.heartbeatAt == Some(now) &&
            Recorded(j, k, now) && SameWork(j, k) && k.completedAt == j.completedAt && k.expiresAt == j.expiresAt &&
            SameRequests(j, k) && SameError(j, k)
  {
    SelfUpdate(jobs, id);
  }

  // ---------------------------------------------------------------- transition

  /** The request by itself: a worker, an edge from a running phase that a worker may take, a progress,
      texts that fit, and a lease. */
  predicate WellFormedMove(t: Transition) {
    Trimmed(t.worker) && !Blank(t.worker) && |t.worker| <= 255 &&
    (t.expected == Analyzing || t.expected == Optimizing || t.expected == Validating) &&
    t.next in Successors(t.expected) && t.next != Queued && 0 <= t.progress <= 100 && |t.message| <= 512 &&
    (t.next == Completed ==> t.progress == 100) &&
    (if t.next == Failed then BoundedText(t.errorCode, 128) && BoundedText(t.errorMessage, 1024)
     else t.errorCode == "" && t.errorMessage == "") &&
    t.now != 0 && t.now < t.deadline
  }

  lemma WellFormedMoveIsValid(t: Transition)
    ensures ValidMove(t) <==> WellFormedMove(t)
  {
  }

  /** The row it finds: leased to the caller, in the expected status, not ahead in progress, and asked
      to stop exactly if it is to be cancelled. */
  predicate Movable(jobs: Table, t: Transition)
    requires t.jobId.Uuid?
  {
    Leased(jobs, t.jobId.id, t.worker, t.now) && jobs[t.jobId.id].status == t.expected &&
    jobs[t.jobId.id].progress <= t.progress &&
    (t.next == Cancelled <==>
       jobs[t.jobId.id].cancelRequestedAt.Some? || jobs[t.jobId.id].deletionRequestedAt.Some?)
  }

  /** Which transitions are refused as malformed, and which for want of a lease or of the expected
      state. */
  lemma MoveRefusals(jobs: Table, t: Transition)
    ensures var (r, answer) := Move(jobs, t);
            (answer == Err(Invalid) <==> t.jobId.Uuid? && !WellFormedMove(t)) &&
            (answer == Err(LeaseLost) <==> !t.jobId.Uuid? || (WellFormedMove(t) && !Movable(jobs, t))) &&
            (answer == Err(Invalid) || answer == Err(LeaseLost) ==> r == jobs)
  {
    WellFormedMoveIsValid(t);
  }

  lemma AcceptedMove(jobs: Table, t: Transition)
    requires t.jobId.Uuid? && (Move(jobs, t).1.Ok? || Move(jobs, t).0 != jobs)
    ensures ValidMove(t) && t.jobId.id in jobs && MoveAllowed(jobs[t.jobId.id], t)
    ensures var k := MoveRow(jobs[t.jobId.id], t); Move(jobs, t) == (jobs[t.jobId.id := k], Scan(k))
  {
  }

  /** A terminal status ends the lease and is dated once; a running phase renews the lease. */
  predicate LeaseAfterMove(j: Job, k: Job, t: Transition) {
    if t.next == Optimizing || t.next == Validating then
      k.leaseOwner == j.leaseOwner && k.leaseExpiresAt == Some(t.deadline) && k.heartbeatAt == Some(t.now) &&
      k.completedAt == j.completedAt
    else NoLease(k) && FirstAt(k.completedAt, j.completedAt, t.now, j.fixed.createdAt)
  }

  /** The worker's report: stored as it is, with error details exactly on a failure. */
  predicate Reported(j: Job, k: Job, t: Transition) {
    k.status == t.next && k.progress == t.progress && k.message == t.message &&
    if t.next == Failed then k.errorCode == Some(t.errorCode) && k.errorMessage == Some(t.errorMessage)
    else SameError(j, k)
  }

  lemma MovedColumns(j: Job, t: Transition)
    requires ValidMove(t)
    ensures var k := MoveRow(j, t);
            LeaseAfterMove(j, k, t) && Reported(j, k, t) && k.fixed == j.fixed && k.attempts == j.attempts &&
            k.availableAt == j.availableAt && k.startedAt == j.startedAt && k.expiresAt == j.expiresAt &&
            Recorded(j, k, t.now) && SameRequests(j, k)
  {
    assert t.next in Successors(t.expected);
    if t.next == Failed {
      assert t.errorCode != "" && t.errorMessage != "";
    }
  }

  /** What an accepted transition stores, and answers. */
  lemma MovedRow(jobs: Table, t: Transition)
    requires t.jobId.Uuid? && (Move(jobs, t).1.Ok? || Move(jobs, t).0 != jobs)
    ensures var (r, answer) := Move(jobs, t);
            var id := t.jobId.id;
            id in jobs && OnlyRow(jobs, r, id) && answer == Scan(r[id]) &&
            var j, k := jobs[id], r[id];
            LeaseAfterMove(j, k, t) && Reported(j, k, t) && k.fixed == j.fixed && k.attempts == j.attempts &&
            k.availableAt == j.availableAt && k.startedAt == j.startedAt && k.expiresAt == j.expiresAt &&
            Recorded(j, k, t.now) && SameRequests(j, k)
  {
    AcceptedMove(jobs, t);
    MovedColumns(jobs[t.jobId.id], t);
  }

  // ---------------------------------------------------------------- recovery

  /** ORDER BY lease_expires_at, id. */
  predicate ExpiredBefore(a: Job, b: Job)
    requires a.leaseExpiresAt.Some? && b.leaseExpiresAt.Some?
  {
    a.leaseExpiresAt.value < b.leaseExpiresAt.value ||
    (a.leaseExpiresAt.value == b.leaseExpiresAt.value && a.fixed.id < b.fixed.id)
  }

  lemma BatchFollowsOrder(jobs: Table, now: Time, limit: nat, locked: set<nat>, id: nat, other: nat)
    requires id in Members(Batch(jobs, now, limit, locked))
    requires other in jobs && other !in locked && LeaseExpired(jobs[other], now)
    requires other !in Members(Batch(jobs, now, limit, locked))
    requires jobs[other].fixed.id == other && forall k :: k in jobs ==> jobs[k].fixed.id == k
    ensures id in jobs && LeaseExpired(jobs[id], now) && id !in locked && ExpiredBefore(jobs[id], jobs[other])
  {
    var keys := RecoverKeys(jobs, now, locked);
    BatchMembers(jobs, now, limit, locked);
    OrderedIsSorted(keys);
    assert other in Members(Ordered(keys));
    var k :| 0 <= k < |Ordered(keys)| && Ordered(keys)[k] == other;
    var batch := Batch(jobs, now, limit, locked);
    var i :| 0 <= i < |batch| && batch[i] == id;
    assert forall m :: 0 <= m < |batch| ==> batch[m] in Members(batch);
    assert Less(keys[Ordered(keys)[i]], keys[Ordered(keys)[k]]);
  }

  /** A pass is refused for bad instants or a bad limit. */
  lemma RecoverRefusals(jobs: Table, now: Time, retryAt: Time, limit: int, locked: set<nat>)
    ensures Recover(jobs, now, retryAt, limit, locked).1 == Err(Invalid) <==>
            !(now != 0 && now <= retryAt && 1 <= limit <= 1000)
  {
  }

  lemma RecoveredIsExpired(jobs: Table, now: Time, retryAt: Time, limit: int, locked: set<nat>, id: nat)
    requires id in jobs && id in Recover(jobs, now, retryAt, limit, locked).0
    requires Recover(jobs, now, retryAt, limit, locked).0[id] != jobs[id]
    ensures ValidRecovery(now, retryAt, limit) && id in Members(Batch(jobs, now, limit, locked)) && id !in locked
    ensures Recover(jobs, now, retryAt, limit, locked).0[id] == RecoverRow(jobs[id], now, retryAt)
    ensures LeaseExpired(jobs[id], now)
  {
    BatchRowsExpired(jobs, now, limit, locked, id);
  }

  /** A pass that takes one row and leaves another took the one that expired first. */
  lemma RecoveryFollowsOrder(jobs: Table, now: Time, retryAt: Time, limit: int, locked: set<nat>, id: nat, other: nat)
    requires forall k :: k in jobs ==> jobs[k].fixed.id == k
    requires id in jobs && Recover(jobs, now, retryAt, limit, locked).0.Keys == jobs.Keys
    requires Recover(jobs, now, retryAt, limit, locked).0[id] != jobs[id]
    requires other in jobs && other !in locked && LeaseExpired(jobs[other], now)
    requires Recover(jobs, now, retryAt, limit, locked).0[other] == jobs[other]
    ensures LeaseExpired(jobs[id], now) && ExpiredBefore(jobs[id], jobs[other])
  {
    RecoveredIsExpired(jobs, now, retryAt, limit, locked, id);
    if other in Members(Batch(jobs, now, limit, locked)) {
      RecoveryBumps(jobs[other], now, retryAt);
    } else {
      BatchFollowsOrder(jobs, now, limit, locked, id, other);
    }
  }

  lemma RecoveryBumps(j: Job, now: Time, retryAt: Time)
    ensures RecoverRow(j, now, retryAt) != j
  {
    assert RecoverRow(j, now, retryAt).version == j.version + 1;
  }

  /** What a pass does to a row it changes: cancelled if it was asked to stop, failed with the fixed
      error if its attempts are used up, otherwise back in the queue from the beginning. */
  lemma RecoveredRow(jobs: Table, now: Time, retryAt: Time, limit: int, locked: set<nat>, id: nat)
    requires id in jobs && id in Recover(jobs, now, retryAt, limit, locked).0
    requires Recover(jobs, now, retryAt, limit, locked).0[id] != jobs[id]
    ensures var j, k := jobs[id], Recover(jobs, now, retryAt, limit, locked).0[id];
            LeaseExpired(j, now) && k.fixed == j.fixed && NoLease(k) && Recorded(j, k, now) && SameRequests(j, k) &&
            k.attempts == j.attempts && k.startedAt == j.startedAt && k.expiresAt == j.expiresAt &&
            if j.cancelRequestedAt.Some? || j.deletionRequestedAt.Some? then
              k.status == Cancelled && SameWork(j, k) && SameError(j, k) &&
              FirstAt(k.completedAt, j.completedAt, now, j.fixed.createdAt)
            else if j.attempts >= j.fixed.maxAttempts then
              k.status == Failed && SameWork(j, k) && k.errorCode == Some("lease_attempts_exhausted") &&
              k.errorMessage == Some("Processing stopped after repeated worker interruption.") &&
              FirstAt(k.completedAt, j.completedAt, now, j.fixed.createdAt)
            else
              k.status == Queued && k.progress == 0 && k.message == "" && k.availableAt == retryAt &&
              k.completedAt == j.completedAt && SameError(j, k)
  {
    RecoveredIsExpired(jobs, now, retryAt, limit, locked, id);
  }

  /** The rows a pass changed and left in a status. */
  ghost function ChangedInto(jobs: Table, r: Table, status: Status): set<nat> {
    set id | id in jobs && id in r && r[id] != jobs[id] && r[id].status == status
  }

  /** The counts of a pass are how many rows it changed into each status. */
  lemma RecoveryCountsRows(jobs: Table, now: Time, retryAt: Time, limit: int, locked: set<nat>)
    requires Recover(jobs, now, retryAt, limit, locked).1.Ok?
    ensures var (r, answer) := Recover(jobs, now, retryAt, limit, locked);
            answer == Ok(Recovery(|ChangedInto(jobs, r, Queued)|, |ChangedInto(jobs, r, Cancelled)|,
                                  |ChangedInto(jobs, r, Failed)|))
  {
    var batch := Batch(jobs, now, limit, locked);
    var r := RecoverAll(jobs, Members(batch), now, retryAt);
    BatchMembers(jobs, now, limit, locked);
    CountsAreSizes(r, batch);
    forall status
      ensures ChangedInto(jobs, r, status) == WithStatus(r, batch, status)
    {
      ChangedRowsAreTheBatch(jobs, batch, now, retryAt, status);
    }
  }

  lemma ChangedRowsAreTheBatch(jobs: Table, batch: seq<nat>, now: Time, retryAt: Time, status: Status)
    requires Members(batch) <= jobs.Keys
    ensures var r := RecoverAll(jobs, Members(batch), now, retryAt);
            ChangedInto(jobs, r, status) == WithStatus(r, batch, status)
  {
    var r := RecoverAll(jobs, Members(batch), now, retryAt);
    forall id | id in batch
      ensures id in jobs && id in r && r[id] != jobs[id]
    {
      assert id in Members(batch);
      RecoveryBumps(jobs[id], now, retryAt);
    }
  }

  // ---------------------------------------------------------------- cancel and delete

  /** Which owner may cancel what. */
  lemma CancelRefusals(jobs: Table, id: IdText, owner: Owner, now: Time)
    ensures var (r, answer) := Cancel(jobs, id, owner, now);
            var found := id.Uuid? && owner.Valid() && Visible(jobs, id.id, owner);
            (answer == Err(NotFound) <==> !id.Uuid? || !owner.Valid() || (now != 0 && !found)) &&
            (answer == Err(Invalid) <==> id.Uuid? && owner.Valid() && now == 0) &&
            (!found || now == 0 ==> r == jobs)
  {
  }

  /** The request to stop: queued work is cancelled at once, running work is marked once, anything
      else stays. */
  predicate StopAsked(j: Job, k: Job, now: Time) {
    if j.status == Queued then
      k.status == Cancelled && FirstAt(k.cancelRequestedAt, j.cancelRequestedAt, now, j.fixed.createdAt) &&
      FirstAt(k.completedAt, j.completedAt, now, j.fixed.createdAt)
    else
      k.status == j.status && k.completedAt == j.completedAt &&
      if Active(j.status) then FirstAt(k.cancelRequestedAt, j.cancelRequestedAt, now, j.fixed.createdAt)
      else k.cancelRequestedAt == j.cancelRequestedAt
  }

  predicate CancelsNow(j: Job) {
    j.status == Queued || (Active(j.status) && j.cancelRequestedAt.None?)
  }

  /** What an answered cancellation leaves: the answer is the stored row. */
  lemma CancelledRow(jobs: Table, id: nat, owner: Owner, now: Time)
    requires Cancel(jobs, Uuid(id), owner, now).1.Ok?
    ensures var (r, answer) := Cancel(jobs, Uuid(id), owner, now);
            id in jobs && OnlyRow(jobs, r, id) && answer == Ok(r[id]) &&
            var j, k := jobs[id], r[id];
            k.fixed == j.fixed && StopAsked(j, k, now) && SameWork(j, k) && SameLease(j, k) && SameError(j, k) &&
            k.expiresAt == j.expiresAt && k.deletionRequestedAt == j.deletionRequestedAt &&
            if CancelsNow(j) then Recorded(j, k, now) else k == j
  {
  }

  /** Deleting answers nothing but success for what is not there, and refuses malformed calls. */
  lemma DeleteRefusals(jobs: Table, id: IdText, owner: Owner, now: Time)
    ensures var (r, error) := Delete(jobs, id, owner, now);
            (error == Some(NotFound) <==> id.Uuid? && !owner.Valid()) &&
            (error == Some(Invalid) <==> id.Uuid? && owner.Valid() && now == 0) &&
            (!id.Uuid? || !owner.Valid() || now == 0 || !Owned(jobs, id.id, owner) ==> r == jobs) &&
            (id.Uuid? && owner.Valid() && now != 0 && !Owned(jobs, id.id, owner) ==> error == None)
  {
  }

  /** What an accepted deletion leaves: the request to stop, a tombstone that is set once, and a
      retention that ends at the deletion. */
  lemma DeletedRow(jobs: Table, id: nat, owner: Owner, now: Time)
    requires owner.Valid() && now != ZERO_TIME && Owned(jobs, id, owner)
    requires Delete(jobs, Uuid(id), owner, now).1.None?
    ensures var r := Delete(jobs, Uuid(id), owner, now).0;
            id in jobs && OnlyRow(jobs, r, id) &&
            var j, k := jobs[id], r[id];
            k.fixed == j.fixed && StopAsked(j, k, now) && SameWork(j, k) && SameLease(j, k) && SameError(j, k) &&
            FirstAt(k.deletionRequestedAt, j.deletionRequestedAt, now, j.fixed.createdAt) &&
            k.expiresAt <= j.expiresAt &&
            (k.expiresAt == j.expiresAt || IsLater(k.expiresAt, now, j.fixed.createdAt + 1)) &&
            (now <= k.expiresAt || k.expiresAt == j.expiresAt) &&
            (k.expiresAt <= now || k.expiresAt <= j.fixed.createdAt + 1) &&
            if j.deletionRequestedAt.None? || CancelsNow(j) then Recorded(j, k, now)
            else k.version == j.version && k.updatedAt == j.updatedAt
  {
  }
}
