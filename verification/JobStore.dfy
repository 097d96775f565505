/** The PostgreSQL job store: each method is one SQL statement, with its WHERE clause and its
    column-by-column CASE expressions, proved to be the table function of the same name. The
    locked arguments are the rows that other transactions hold when the statement runs. */
module JobStore {
  import opened Common
  import opened JobStatus
  import opened Job
  import opened RowOrder
  import opened Database
  import T = JobTable

  class PostgresStore {
    const database: Database

    constructor (database: Database)
      ensures this.database == database
    {
      this.database := database;
    }

    method Create(seed: Seed) returns (r: Result<Job, JobError>)
      requires T.OneJobPerUpload(database.jobs)
      modifies database`jobs
      ensures (database.jobs, r) == T.Create(database.uploads, old(database.jobs), seed)
      ensures T.OneJobPerUpload(database.jobs)
    {
      if !ValidSeed(seed) {
        return Err(Invalid);
      }
      var upload := seed.uploadId.id;
      if upload !in database.uploads || !T.IsSource(database.uploads[upload], seed.owner) {
        return Err(NotFound);
      }
      var source := database.uploads[upload];
      var existing := FindByUpload(upload);
      if existing.Some? {
        return T.ReturnExisting(database.jobs[existing.value], seed.owner);
      }
      assert forall id :: id in database.jobs ==> !T.UploadHasJob(database.jobs, upload, id);
      var taken := exists id :: id in database.jobs && database.jobs[id].fixed.inputKey == source.objectKey;
      if seed.id.id in database.jobs || taken {
        return Err(Conflict);
      }
      r := Write(seed.id.id, QueuedJob(seed, source.filename, source.objectKey, source.committedSha.value,
                                       source.declaredSize as int));
    }

    /** The row a statement is about to store: stored and scanned, or the statement aborts. */
    method Write(id: nat, row: Job) returns (r: Result<Job, JobError>)
      modifies database`jobs
      ensures (database.jobs, r) == T.Put(old(database.jobs), id, row)
    {
      if !RowCheck(row) {
        return Err(StorageFailure);
      }
      database.jobs := database.jobs[id := row];
      r := T.Scan(row);
    }

    /** The conflicting row of the unique index on upload_id. */
    method FindByUpload(upload: nat) returns (existing: Option<nat>)
      requires T.OneJobPerUpload(database.jobs)
      ensures existing.Some? <==> T.HasJob(database.jobs, upload)
      ensures existing.Some? ==> existing.value in database.jobs && existing.value == T.JobOf(database.jobs, upload)
    {
      var todo := database.jobs.Keys;
      while todo != {}
        invariant todo <= database.jobs.Keys
        invariant forall id :: id in database.jobs && id !in todo ==> !T.UploadHasJob(database.jobs, upload, id)
        decreases todo
      {
        var id :| id in todo;
        if database.jobs[id].fixed.uploadId == upload {
          assert T.UploadHasJob(database.jobs, upload, id);
          return Some(id);
        }
        todo := todo - {id};
      }
      existing := None;
    }

    /** The WHERE and ORDER BY of the candidate, with its locked rows skipped. */
    static function Candidates(jobs: map<nat, Job>, now: Time, locked: set<nat>): (keys: map<nat, Key>)
      ensures keys == T.ClaimKeys(jobs, now, locked)
    {
      map id | id in jobs && id !in locked && jobs[id].status == Queued && jobs[id].availableAt <= now &&
               jobs[id].expiresAt > now && jobs[id].attempts < jobs[id].fixed.maxAttempts &&
               jobs[id].cancelRequestedAt.None? && jobs[id].deletionRequestedAt.None? ::
        Key(jobs[id].availableAt, jobs[id].fixed.createdAt, id)
    }

    method Claim(worker: string, now: Time, deadline: Time, locked: set<nat>) returns (r: Result<Job, JobError>)
      modifies database`jobs
      ensures (database.jobs, r) == T.Claim(old(database.jobs), worker, now, deadline, locked)
    {
      if !ValidClaim(worker, now, deadline) {
        return Err(Invalid);
      }
      var candidates := Candidates(database.jobs, now, locked);
      if candidates == map[] {
        return Err(NoJobAvailable);
      }
      var id := First(candidates);
      var j := database.jobs[id];
      r := Write(id, j.(status := Analyzing,
                        attempts := j.attempts + 1,
                        leaseOwner := Some(worker),
                        leaseExpiresAt := Some(deadline),
                        heartbeatAt := Some(now),
                        startedAt := Coalesce(j.startedAt, Later(now, j.fixed.createdAt)),
                        updatedAt := Later(j.updatedAt, now),
                        version := j.version + 1));
    }

    method Heartbeat(id: IdText, worker: string, now: Time, deadline: Time) returns (r: Result<Job, JobError>)
      modifies database`jobs
      ensures (database.jobs, r) == T.Heartbeat(old(database.jobs), id, worker, now, deadline)
    {
      if !id.Uuid? {
        return Err(LeaseLost);
      }
      if !ValidClaim(worker, now, deadline) {
        return Err(Invalid);
      }
      if id.id !in database.jobs {
        return Err(LeaseLost);
      }
      var j := database.jobs[id.id];
      if !(j.leaseOwner == Some(worker) && Active(j.status) && j.leaseExpiresAt.Some? && j.leaseExpiresAt.value > now) {
        return Err(LeaseLost);
      }
      var running := j.cancelRequestedAt.None? && j.deletionRequestedAt.None?;
      r := Write(id.id, j.(leaseExpiresAt := if running then Some(deadline) else j.leaseExpiresAt,
                           heartbeatAt := if running then Some(now) else j.heartbeatAt,
                           updatedAt := if running then Later(j.updatedAt, now) else j.updatedAt,
                           version := j.version + if running then 1 else 0));
      if r.Ok? && (r.value.cancelRequestedAt.Some? || r.value.deletionRequestedAt.Some?) {
        return Err(CancellationRequested(r.value));
      }
    }

    /** The columns that the transition statement sets, each by its own CASE. */
    static function MovedColumns(j: Job, t: Transition): (k: Job)
      ensures k == MoveRow(j, t)
    {
      var terminal := Terminal(t.next);
      j.(status := t.next,
         progress := t.progress,
         message := t.message,
         errorCode := if t.next == Failed then Nullable(t.errorCode) else j.errorCode,
         errorMessage := if t.next == Failed then Nullable(t.errorMessage) else j.errorMessage,
         leaseOwner := if terminal then None else j.leaseOwner,
         leaseExpiresAt := if terminal then None else Some(t.deadline),
         heartbeatAt := if terminal then None else Some(t.now),
         completedAt := if terminal then Coalesce(j.completedAt, Later(t.now, j.fixed.createdAt)) else j.completedAt,
         updatedAt := Later(j.updatedAt, t.now),
         version := j.version + 1)
    }

    method Move(t: Transition) returns (r: Result<Job, JobError>)
      modifies database`jobs
      ensures (database.jobs, r) == T.Move(old(database.jobs), t)
    {
      if !t.jobId.Uuid? {
        return Err(LeaseLost);
      }
      if !ValidMove(t) {
        return Err(Invalid);
      }
      var id := t.jobId.id;
      if id !in database.jobs {
        return Err(LeaseLost);
      }
      var j := database.jobs[id];
      var stop := j.cancelRequestedAt.Some? || j.deletionRequestedAt.Some?;
      if !(j.leaseOwner == Some(t.worker) && j.status == t.expected && Active(j.status) &&
           j.leaseExpiresAt.Some? && j.leaseExpiresAt.value > t.now && j.progress <= t.progress &&
           ((t.next == Cancelled && stop) || (t.next != Cancelled && !stop))) {
        return Err(LeaseLost);
      }
      r := Write(id, MovedColumns(j, t));
    }

    /** The columns that the recovery statement sets, each by its own CASE. */
    static function RecoveredColumns(j: Job, now: Time, retryAt: Time): (k: Job)
      ensures k == RecoverRow(j, now, retryAt)
    {
      var stop := j.cancelRequestedAt.Some? || j.deletionRequestedAt.Some?;
      var retry := !stop && j.attempts < j.fixed.maxAttempts;
      var exhausted := !stop && j.attempts >= j.fixed.maxAttempts;
      j.(status := if stop then Cancelled else if j.attempts >= j.fixed.maxAttempts then Failed else Queued,
         progress := if retry then 0 else j.progress,
         message := if retry then "" else j.message,
         availableAt := if retry then retryAt else j.availableAt,
         leaseOwner := None,
         leaseExpiresAt := None,
         heartbeatAt := None,
         errorCode := if exhausted then Some(EXHAUSTED_CODE) else j.errorCode,
         errorMessage := if exhausted then Some(EXHAUSTED_MESSAGE) else j.errorMessage,
         completedAt := if stop || exhausted then Coalesce(j.completedAt, Later(now, j.fixed.createdAt))
                        else j.completedAt,
         updatedAt := Later(j.updatedAt, now),
         version := j.version + 1)
    }

    static lemma OneMoreRecovered(jobs: map<nat, Job>, batch: seq<nat>, i: nat, now: Time, retryAt: Time)
      requires i < |batch| && Distinct(batch) && batch[i] in jobs
      ensures T.RecoverAll(jobs, Members(batch[..i + 1]), now, retryAt) ==
              T.RecoverAll(jobs, Members(batch[..i]), now, retryAt)
                [batch[i] := RecoverRow(jobs[batch[i]], now, retryAt)]
    {
      assert Members(batch[..i + 1]) == Members(batch[..i]) + {batch[i]};
    }

    /** The recovered CTE: every row of the batch is rewritten, or none if one breaks a constraint. */
    static method RecoverBatch(jobs: map<nat, Job>, batch: seq<nat>, now: Time, retryAt: Time)
        returns (rows: Option<map<nat, Job>>)
      requires Distinct(batch) && forall i :: 0 <= i < |batch| ==> batch[i] in jobs
      ensures rows.Some? ==> rows.value == T.RecoverAll(jobs, Members(batch), now, retryAt)
      ensures rows.Some? <==>
              forall id :: id in Members(batch) ==> id in jobs && RowCheck(RecoverRow(jobs[id], now, retryAt))
    {
      var next := jobs;
      var i := 0;
      while i < |batch|
        invariant 0 <= i <= |batch|
        invariant next == T.RecoverAll(jobs, Members(batch[..i]), now, retryAt)
        invariant forall k :: 0 <= k < i ==> RowCheck(RecoverRow(jobs[batch[k]], now, retryAt))
      {
        var row := RecoveredColumns(jobs[batch[i]], now, retryAt);
        if !RowCheck(row) {
          assert batch[i] in Members(batch);
          return None;
        }
        OneMoreRecovered(jobs, batch, i, now, retryAt);
        next := next[batch[i] := row];
        i := i + 1;
      }
      assert batch[..|batch|] == batch;
      rows := Some(next);
    }

    /** count(*) FILTER over the recovered rows. */
    static method Tally(rows: map<nat, Job>, batch: seq<nat>) returns (result: T.Recovery)
      requires Distinct(batch) && forall i :: 0 <= i < |batch| ==> batch[i] in rows
      ensures result == T.Counted(rows, batch)
      ensures result == T.Recovery(|T.WithStatus(rows, batch, Queued)|, |T.WithStatus(rows, batch, Cancelled)|,
                                   |T.WithStatus(rows, batch, Failed)|)
    {
      result := T.Recovery(0, 0, 0);
      for i := 0 to |batch|
        invariant result == T.Counted(rows, batch[..i])
      {
        assert batch[..i + 1][..i] == batch[..i];
        var status := rows[batch[i]].status;
        result := T.Recovery(result.requeued + (if status == Queued then 1 else 0),
                             result.cancelled + (if status == Cancelled then 1 else 0),
                             result.failed + (if status == Failed then 1 else 0));
      }
      assert batch[..|batch|] == batch;
      T.CountsAreSizes(rows, batch);
    }

    /** The WHERE and ORDER BY of the expired rows, with the locked ones skipped. */
    static function ExpiredRows(jobs: map<nat, Job>, now: Time, locked: set<nat>): (keys: map<nat, Key>)
      ensures keys == T.RecoverKeys(jobs, now, locked)
    {
      map id | id in jobs && id !in locked && Active(jobs[id].status) && jobs[id].leaseExpiresAt.Some? &&
               jobs[id].leaseExpiresAt.value <= now ::
        Key(jobs[id].leaseExpiresAt.value, 0, id)
    }

    method RecoverExpired(now: Time, retryAt: Time, limit: int, locked: set<nat>)
        returns (r: Result<T.Recovery, JobError>)
      modifies database`jobs
      ensures (database.jobs, r) == T.Recover(old(database.jobs), now, retryAt, limit, locked)
      ensures r == Err(Invalid) <==> !ValidRecovery(now, retryAt, limit)
    {
      if !ValidRecovery(now, retryAt, limit) {
        return Err(Invalid);
      }
      var batch := Select(ExpiredRows(database.jobs, now, locked), limit);
      T.BatchMembers(database.jobs, now, limit, locked);
      assert forall i :: 0 <= i < |batch| ==> batch[i] in Members(batch);
      var rows := RecoverBatch(database.jobs, batch, now, retryAt);
      if rows.None? {
        return Err(StorageFailure);
      }
      var result := Tally(rows.value, batch);
      database.jobs := rows.value;
      r := Ok(result);
    }

    method Get(id: IdText, owner: Owner) returns (r: Result<Job, JobError>)
      ensures r == T.Get(database.jobs, id, owner)
      ensures r == Err(NotFound) <==> !(id.Uuid? && owner.Valid() && T.Visible(database.jobs, id.id, owner))
      ensures r != Err(NotFound) ==>
                r == if ValidStored(database.jobs[id.id]) then Ok(database.jobs[id.id]) else Err(StorageFailure)
    {
      if !id.Uuid? || !owner.Valid() {
        return Err(NotFound);
      }
      if !T.Owned(database.jobs, id.id, owner) || database.jobs[id.id].deletionRequestedAt.Some? {
        return Err(NotFound);
      }
      r := T.Scan(database.jobs[id.id]);
    }

    method Cancel(id: IdText, owner: Owner, now: Time) returns (r: Result<Job, JobError>)
      modifies database`jobs
      ensures (database.jobs, r) == T.Cancel(old(database.jobs), id, owner, now)
    {
      if !id.Uuid? || !owner.Valid() {
        return Err(NotFound);
      }
      if now == ZERO_TIME {
        return Err(Invalid);
      }
      if !T.Owned(database.jobs, id.id, owner) || database.jobs[id.id].deletionRequestedAt.Some? {
        return Err(NotFound);
      }
      var j := database.jobs[id.id];
      var at := Later(now, j.fixed.createdAt);
      var queued := j.status == Queued;
      var effective := queued || (Active(j.status) && j.cancelRequestedAt.None?);
      r := Write(id.id, j.(status := if queued then Cancelled else j.status,
                           cancelRequestedAt := if queued || Active(j.status) then Coalesce(j.cancelRequestedAt, at)
                                                else j.cancelRequestedAt,
                           completedAt := if queued then Coalesce(j.completedAt, at) else j.completedAt,
                           updatedAt := if effective then Later(j.updatedAt, now) else j.updatedAt,
                           version := j.version + if effective then 1 else 0));
    }

    method Delete(id: IdText, owner: Owner, now: Time) returns (error: Option<JobError>)
      modifies database`jobs
      ensures (database.jobs, error) == T.Delete(old(database.jobs), id, owner, now)
    {
      if !id.Uuid? {
        return None;
      }
      if !owner.Valid() {
        return Some(NotFound);
      }
      if now == ZERO_TIME {
        return Some(Invalid);
      }
      if !T.Owned(database.jobs, id.id, owner) {
        return None;
      }
      var j := database.jobs[id.id];
      var at := Later(now, j.fixed.createdAt);
      var queued := j.status == Queued;
      var effective := j.deletionRequestedAt.None? || queued || (Active(j.status) && j.cancelRequestedAt.None?);
      var row := j.(status := if queued then Cancelled else j.status,
                    cancelRequestedAt := if queued || Active(j.status) then Coalesce(j.cancelRequestedAt, at)
                                         else j.cancelRequestedAt,
                    completedAt := if queued then Coalesce(j.completedAt, at) else j.completedAt,
                    deletionRequestedAt := Coalesce(j.deletionRequestedAt, at),
                    expiresAt := Earlier(j.expiresAt, Later(now, j.fixed.createdAt + 1)),
                    updatedAt := if effective then Later(j.updatedAt, now) else j.updatedAt,
                    version := j.version + if effective then 1 else 0);
      if !RowCheck(row) {
        return Some(StorageFailure);
      }
      database.jobs := database.jobs[id.id := row];
      error := None;
    }
  }
}
