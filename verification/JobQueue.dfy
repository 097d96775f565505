/** The policies in front of the store: a worker's queue and the job manager read a clock once
    per call and derive every other instant from it. */
module JobQueue {
  import opened Common
  import opened JobStatus
  import opened Job
  import opened JobStore
  import T = JobTable
  import C = JobCalls
  import U = Upload

  class Queue {
    const store: PostgresStore
    const worker: string
    const leaseDuration: int
    const retryDelay: int
    const recoveryBatch: int

    static predicate PolicyOk(worker: string, leaseDuration: int, retryDelay: int, recoveryBatch: int) {
      ValidWorker(worker) && leaseDuration > 0 && retryDelay >= 0 && 0 < recoveryBatch <= MAX_BATCH
    }

    predicate Valid() { PolicyOk(worker, leaseDuration, retryDelay, recoveryBatch) }

    constructor (store: PostgresStore, worker: string, leaseDuration: int, retryDelay: int, recoveryBatch: int)
      requires PolicyOk(worker, leaseDuration, retryDelay, recoveryBatch)
      ensures Valid() && this.store == store && this.worker == worker && this.leaseDuration == leaseDuration
      ensures this.retryDelay == retryDelay && this.recoveryBatch == recoveryBatch
    {
      this.store := store;
      this.worker := worker;
      this.leaseDuration := leaseDuration;
      this.retryDelay := retryDelay;
      this.recoveryBatch := recoveryBatch;
    }

    /** The checked constructor: an unusable policy is refused. */
    static method New(store: PostgresStore, worker: string, leaseDuration: int, retryDelay: int, recoveryBatch: int)
        returns (q: Option<Queue>)
      ensures q.Some? <==>
                Trimmed(worker) && !Blank(worker) && |worker| <= 255 && leaseDuration > 0 && retryDelay >= 0 &&
                1 <= recoveryBatch <= 1000
      ensures q.Some? ==> q.value.Valid() && q.value.store == store && q.value.worker == worker
      ensures q.Some? ==> q.value.leaseDuration == leaseDuration && q.value.retryDelay == retryDelay
      ensures q.Some? ==> q.value.recoveryBatch == recoveryBatch
    {
      if !PolicyOk(worker, leaseDuration, retryDelay, recoveryBatch) {
        return None;
      }
      var queue := new Queue(store, worker, leaseDuration, retryDelay, recoveryBatch);
      q := Some(queue);
    }

    /** A set clock never makes the store reject the request itself. */
    method Claim(now: Time, locked: set<nat>) returns (r: Result<Job, JobError>)
      requires Valid()
      modifies store.database`jobs
      ensures (store.database.jobs, r) == T.Claim(old(store.database.jobs), worker, now, now + leaseDuration, locked)
      ensures r == Err(Invalid) <==> now == ZERO_TIME
    {
      r := store.Claim(worker, now, now + leaseDuration, locked);
    }

    method Heartbeat(id: IdText, now: Time) returns (r: Result<Job, JobError>)
      requires Valid()
      modifies store.database`jobs
      ensures (store.database.jobs, r) == T.Heartbeat(old(store.database.jobs), id, worker, now, now + leaseDuration)
      ensures r == Err(Invalid) <==> id.Uuid? && now == ZERO_TIME
    {
      r := store.Heartbeat(id, worker, now, now + leaseDuration);
    }

    /** The caller's worker, clock and deadline are overwritten: no worker can act for another. */
    method Move(t: Transition, now: Time) returns (r: Result<Job, JobError>)
      requires Valid()
      modifies store.database`jobs
      ensures (store.database.jobs, r) ==
              T.Move(old(store.database.jobs), t.(worker := worker, now := now, deadline := now + leaseDuration))
    {
      var own := t.(worker := worker, now := now, deadline := now + leaseDuration);
      if own.jobId.Uuid? && !ValidMove(own) {
        T.MoveInvalid(store.database.jobs, own);
        return Err(Invalid);
      }
      r := store.Move(own);
    }

    method RecoverExpired(now: Time, locked: set<nat>) returns (r: Result<T.Recovery, JobError>)
      requires Valid()
      modifies store.database`jobs
      ensures (store.database.jobs, r) ==
              T.Recover(old(store.database.jobs), now, now + retryDelay, recoveryBatch, locked)
      ensures r == Err(Invalid) <==> now == ZERO_TIME
    {
      r := store.RecoverExpired(now, now + retryDelay, recoveryBatch, locked);
    }
  }

  /** What Manager.Create hands to the store. */
  function ManagerSeed(id: nat, upload: nat, owner: Owner, creator: Creator,
                       targetBytes: int64, retention: int, maxAttempts: int32, now: Time): Seed
  {
    Seed(Uuid(id), Uuid(upload), owner, creator, "", "", 0, 0, targetBytes, Queued, 0, "", 0, maxAttempts,
         now, now, now, now + retention, 1)
  }

  /** With positive policies and a valid creator, the manager's seed is rejected only for an
      instant at Go's zero time: a clock reading it, or a retention that ends on it. */
  lemma ManagerSeedIsValidIff(id: nat, upload: nat, owner: Owner, creator: Creator,
                              targetBytes: int64, retention: int, maxAttempts: int32, now: Time)
    requires targetBytes > 0 && retention > 0 && maxAttempts > 0
    ensures ValidSeed(ManagerSeed(id, upload, owner, creator, targetBytes, retention, maxAttempts, now)) <==>
            ValidCreator(owner, creator) && now != ZERO_TIME && now + retention != ZERO_TIME
  {
  }

  /** A job that the manager creates carries its policies and one clock reading. */
  lemma ManagerCreatesJob(uploads: map<nat, U.Session>, jobs: map<nat, Job>, id: nat, upload: nat, owner: Owner,
                          creator: Creator, targetBytes: int64, retention: int, maxAttempts: int32, now: Time)
    requires var seed := ManagerSeed(id, upload, owner, creator, targetBytes, retention, maxAttempts, now);
             id !in jobs && id in T.Create(uploads, jobs, seed).0
    ensures var seed := ManagerSeed(id, upload, owner, creator, targetBytes, retention, maxAttempts, now);
            var j := T.Create(uploads, jobs, seed).0[id];
            j.fixed.id == id && j.fixed.uploadId == upload && j.fixed.owner == owner && j.fixed.creator == creator &&
            j.fixed.targetBytes == targetBytes as int && j.fixed.maxAttempts == maxAttempts as int &&
            j.fixed.createdAt == now && j.updatedAt == now && j.availableAt == now && j.expiresAt == now + retention
  {
    C.CreatedRow(uploads, jobs, ManagerSeed(id, upload, owner, creator, targetBytes, retention, maxAttempts, now), id);
  }
}
