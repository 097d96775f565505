/** Both stores on one database: all runs of uploads and jobs, and what holds in every state
    that any interleaving of their calls reaches. */
module Runs {
  import opened Common
  import opened JobStatus
  import opened Job
  import opened JobRow
  import opened JobLife
  import opened RowOrder
  import opened JobTable
  import U = Upload
  import UT = UploadTables

  datatype World = World(store: UT.Tables, jobs: Table)

  datatype Event = OnUploads(upload: UT.UploadEvent) | OnJobs(job: JobEvent)

  const EMPTY: World := World(UT.Tables(map[], map[]), map[])

  ghost function Step(w: World, e: Event): World {
    match e
    case OnUploads(u) => w.(store := UT.Step(w.store, u))
    case OnJobs(j) => w.(jobs := JobTable.Step(w.store.uploads, w.jobs, j))
  }

  ghost function Run(w: World, es: seq<Event>): World
    decreases |es|
  {
    if es == [] then w else Run(Step(w, es[0]), es[1..])
  }

  lemma {:induction false} RunsCompose(w: World, es: seq<Event>, fs: seq<Event>)
    ensures Run(w, es + fs) == Run(Run(w, es), fs)
    decreases |es|
  {
    if es == [] {
      assert es + fs == fs;
    } else {
      assert (es + fs)[1..] == es[1..] + fs;
      RunsCompose(Step(w, es[0]), es[1..], fs);
    }
  }

  lemma {:induction false} RunAppended(w: World, es: seq<Event>, e: Event)
    ensures Run(w, es + [e]) == Step(Run(w, es), e)
    decreases |es|
  {
    if es == [] {
      assert es + [e] == [e] && [e][1..] == [];
    } else {
      assert (es + [e])[1..] == es[1..] + [e];
      RunAppended(Step(w, es[0]), es[1..], e);
    }
  }

  // ---------------------------------------------------------------- the joint invariant

  /** The job's input is the committed upload's, column for column. */
  ghost predicate Agrees(j: Job, s: U.Session) {
    s.status == U.Committed && s.owner == j.fixed.owner && s.filename == j.fixed.filename &&
    s.objectKey == j.fixed.inputKey && s.committedSha == Some(j.fixed.inputSha) &&
    s.declaredSize as int == j.fixed.inputBytes
  }

  ghost predicate InputsAgree(w: World) {
    forall id :: id in w.jobs ==>
      w.jobs[id].fixed.uploadId in w.store.uploads &&
      Agrees(w.jobs[id], w.store.uploads[w.jobs[id].fixed.uploadId])
  }

  ghost predicate JointInv(w: World) {
    UT.Inv(w.store) && TableInv(w.jobs) && InputsAgree(w) && OneJobPerUpload(w.jobs)
  }

  /** Committed uploads never change, so no call on uploads can break the agreement. */
  lemma UploadStepKeepsJointInv(w: World, u: UT.UploadEvent)
    requires JointInv(w)
    ensures JointInv(Step(w, OnUploads(u)))
  {
    UT.StepKeepsInv(w.store, u);
    UT.StepPreserves(w.store, u);
    forall id | id in w.jobs
      ensures w.jobs[id].fixed.uploadId in Step(w, OnUploads(u)).store.uploads
      ensures Agrees(w.jobs[id], Step(w, OnUploads(u)).store.uploads[w.jobs[id].fixed.uploadId])
    {
      assert UT.SameUpload(w.store.uploads[w.jobs[id].fixed.uploadId],
                           Step(w, OnUploads(u)).store.uploads[w.jobs[id].fixed.uploadId]);
    }
  }

  /** A row after one statement: an old row in the same fixed columns, or a new one that agrees
      with the upload it was created from. */
  lemma JobStepRow(w: World, e: JobEvent, id: nat)
    requires JointInv(w) && id in Step(w, OnJobs(e)).jobs
    ensures var j := Step(w, OnJobs(e)).jobs[id];
            j.fixed.id == id && RowInv(j) && j.fixed.uploadId in w.store.uploads &&
            Agrees(j, w.store.uploads[j.fixed.uploadId]) &&
            (id in w.jobs ==> j.fixed == w.jobs[id].fixed) &&
            (id !in w.jobs ==> forall other :: other in w.jobs ==> w.jobs[other].fixed.uploadId != j.fixed.uploadId)
  {
    var j := Step(w, OnJobs(e)).jobs[id];
    if id in w.jobs {
      StepActsOnRow(w.store.uploads, w.jobs, e, id);
      EventKeepsRowInv(w.jobs[id], Effect(w.jobs, e, id));
    } else {
      NewRowsAreCreated(w.store.uploads, w.jobs, e, id);
      var s := w.store.uploads[e.seed.uploadId.id];
      assert UT.SessionInv(s);
      OwnerColumnsIdentify(s.owner, e.seed.owner);
      FilenameIsText(s.filename);
      NewRowInv(e.seed, s.filename, s.objectKey, s.committedSha.value, s.declaredSize as int);
      forall other | other in w.jobs
        ensures w.jobs[other].fixed.uploadId != j.fixed.uploadId
      {
        assert !UploadHasJob(w.jobs, e.seed.uploadId.id, other);
      }
    }
  }

  lemma FilenameIsText(name: string)
    requires U.SanitizedFilename(name)
    ensures BoundedText(name, MAX_FILENAME_BYTES)
  {
    assert name[0] in name;
  }

  lemma JobStepKeepsJointInv(w: World, e: JobEvent)
    requires JointInv(w)
    ensures JointInv(Step(w, OnJobs(e)))
  {
    var r := Step(w, OnJobs(e));
    forall id | id in r.jobs
      ensures r.jobs[id].fixed.id == id && RowInv(r.jobs[id])
      ensures r.jobs[id].fixed.uploadId in r.store.uploads
      ensures Agrees(r.jobs[id], r.store.uploads[r.jobs[id].fixed.uploadId])
    {
      JobStepRow(w, e, id);
    }
    forall a, b | a in r.jobs && b in r.jobs && a != b
      ensures r.jobs[a].fixed.uploadId != r.jobs[b].fixed.uploadId
    {
      JobStepRow(w, e, a);
      JobStepRow(w, e, b);
      if a !in w.jobs {
        NewRowsAreCreated(w.store.uploads, w.jobs, e, a);
      }
      if b !in w.jobs {
        NewRowsAreCreated(w.store.uploads, w.jobs, e, b);
      }
    }
  }

  lemma {:induction false} RunKeepsJointInv(w: World, es: seq<Event>)
    requires JointInv(w)
    ensures JointInv(Run(w, es))
    decreases |es|
  {
    if es != [] {
      if es[0].OnUploads? {
        UploadStepKeepsJointInv(w, es[0].upload);
      } else {
        JobStepKeepsJointInv(w, es[0].job);
      }
      RunKeepsJointInv(Step(w, es[0]), es[1..]);
    }
  }

  /** In every state reached from an empty database, by any interleaving and with any clocks:
      uploads are sound, every row satisfies its invariant, every job agrees with its committed
      upload, and no upload has two jobs. */
  lemma Reachable(es: seq<Event>)
    ensures JointInv(Run(EMPTY, es))
  {
    RunKeepsJointInv(EMPTY, es);
  }

  // ---------------------------------------------------------------- one job within a run

  /** What a run does to one job. */
  ghost function Life(w: World, es: seq<Event>, id: nat): seq<RowEvent>
    requires id in w.jobs
    decreases |es|
  {
    if es == [] then []
    else
      match es[0]
      case OnUploads(_) => [Unaffected] + Life(Step(w, es[0]), es[1..], id)
      case OnJobs(e) =>
        StepActsOnRow(w.store.uploads, w.jobs, e, id);
        [Effect(w.jobs, e, id)] + Life(Step(w, es[0]), es[1..], id)
  }

  /** Jobs never disappear, and within a run of the database each one lives a run of its row. */
  lemma {:induction false} LifeIsARowRun(w: World, es: seq<Event>, id: nat)
    requires id in w.jobs
    ensures id in Run(w, es).jobs
    ensures RowRun(w.jobs[id], Life(w, es, id))
    ensures Run(w, es).jobs[id] == After(w.jobs[id], Life(w, es, id))
    decreases |es|
  {
    if es != [] {
      if es[0].OnJobs? {
        StepActsOnRow(w.store.uploads, w.jobs, es[0].job, id);
      }
      LifeIsARowRun(Step(w, es[0]), es[1..], id);
      assert Life(w, es, id)[1..] == Life(Step(w, es[0]), es[1..], id);
    }
  }

  lemma {:induction false} BirthWithin(w: World, es: seq<Event>, id: nat) returns (n: nat)
    requires id !in w.jobs && id in Run(w, es).jobs
    ensures n < |es| && id !in Run(w, es[..n]).jobs
    ensures es[n].OnJobs? && id in Step(Run(w, es[..n]), es[n]).jobs
    decreases |es|
  {
    if id in Step(w, es[0]).jobs {
      n := 0;
      assert es[..0] == [];
    } else {
      var m := BirthWithin(Step(w, es[0]), es[1..], id);
      n := m + 1;
      assert es[..n] == [es[0]] + es[1..][..m];
    }
  }

  lemma NewbornRow(w: World, e: JobEvent, id: nat)
    requires JointInv(w) && id !in w.jobs && id in Step(w, OnJobs(e)).jobs
    ensures var born := Step(w, OnJobs(e)).jobs[id];
            RowInv(born) && born.status == Queued && born.attempts == 0 && born.version == 1
  {
    NewRowsAreCreated(w.store.uploads, w.jobs, e, id);
    JobStepRow(w, e, id);
  }

  lemma RunFrom(w: World, es: seq<Event>, n: nat)
    requires n < |es|
    ensures Run(w, es) == Run(Step(Run(w, es[..n]), es[n]), es[n + 1..])
  {
    assert es == es[..n] + [es[n]] + es[n + 1..];
    RunsCompose(w, es[..n] + [es[n]], es[n + 1..]);
    RunAppended(w, es[..n], es[n]);
  }

  /** Every job of a reachable state was inserted once, queued and unclaimed, and has lived a run
      of its row since. */
  lemma Birth(es: seq<Event>, id: nat) returns (born: Job, life: seq<RowEvent>)
    requires id in Run(EMPTY, es).jobs
    ensures RowInv(born) && born.status == Queued && born.attempts == 0 && born.version == 1
    ensures RowRun(born, life) && Run(EMPTY, es).jobs[id] == After(born, life)
  {
    var n := BirthWithin(EMPTY, es, id);
    Reachable(es[..n]);
    NewbornRow(Run(EMPTY, es[..n]), es[n].job, id);
    var w := Step(Run(EMPTY, es[..n]), es[n]);
    born := w.jobs[id];
    life := Life(w, es[n + 1..], id);
    LifeIsARowRun(w, es[n + 1..], id);
    RunFrom(EMPTY, es, n);
  }

  // ---------------------------------------------------------------- main results on runs

  lemma RunLast(w: World, es: seq<Event>)
    requires es != []
    ensures Run(w, es) == Step(Run(w, es[..|es| - 1]), es[|es| - 1])
  {
    assert es == es[..|es| - 1] + [es[|es| - 1]];
    RunAppended(w, es[..|es| - 1], es[|es| - 1]);
  }

  /** The log of claims: the workers that the run gave the job to, in order. */
  ghost function ClaimLog(es: seq<Event>, id: nat): seq<string> {
    if es == [] then []
    else ClaimLog(es[..|es| - 1], id) + Granted(Run(EMPTY, es[..|es| - 1]), es[|es| - 1], id)
  }

  ghost function Granted(w: World, e: Event, id: nat): seq<string> {
    if e.OnJobs? && id in w.jobs && Effect(w.jobs, e.job, id).Claimed? then [Effect(w.jobs, e.job, id).worker] else []
  }

  lemma GrantedRow(w: World, e: JobEvent, id: nat)
    requires TableInv(w.jobs) && id in w.jobs
    ensures id in Step(w, OnJobs(e)).jobs
    ensures var j, k, granted := w.jobs[id], Step(w, OnJobs(e)).jobs[id], Granted(w, OnJobs(e), id);
            k.attempts == j.attempts + |granted| && |granted| <= 1 &&
            (Active(k.status) && granted == [] ==> Active(j.status) && k.leaseOwner == j.leaseOwner) &&
            (granted != [] ==> k.leaseOwner == Some(granted[0]))
  {
    StepActsOnRow(w.store.uploads, w.jobs, e, id);
    LeaseFollowsEvent(w.jobs[id], Effect(w.jobs, e, id));
  }

  /** The log counts the job's attempts, and a running job is leased to its last entry. */
  ghost predicate LogMatches(jobs: Table, log: seq<string>, id: nat) {
    (id !in jobs ==> log == []) &&
    (id in jobs ==>
       |log| == jobs[id].attempts &&
       (Active(jobs[id].status) ==> log != [] && jobs[id].leaseOwner == Some(log[|log| - 1])))
  }

  lemma RowKeepsLog(w: World, e: JobEvent, log: seq<string>, id: nat)
    requires TableInv(w.jobs) && id in w.jobs && LogMatches(w.jobs, log, id)
    ensures LogMatches(Step(w, OnJobs(e)).jobs, log + Granted(w, OnJobs(e), id), id)
  {
    GrantedRow(w, e, id);
  }

  lemma NewbornKeepsLog(w: World, e: JobEvent, log: seq<string>, id: nat)
    requires JointInv(w) && id !in w.jobs && log == []
    ensures LogMatches(Step(w, OnJobs(e)).jobs, log + Granted(w, OnJobs(e), id), id)
  {
    if id in Step(w, OnJobs(e)).jobs {
      NewbornRow(w, e, id);
    }
  }

  lemma UploadCallKeepsLog(w: World, u: UT.UploadEvent, log: seq<string>, id: nat)
    requires LogMatches(w.jobs, log, id)
    ensures LogMatches(Step(w, OnUploads(u)).jobs, log + Granted(w, OnUploads(u), id), id)
  {
    assert log + Granted(w, OnUploads(u), id) == log;
  }

  lemma EventKeepsLog(w: World, e: Event, log: seq<string>, id: nat)
    requires JointInv(w) && LogMatches(w.jobs, log, id)
    ensures LogMatches(Step(w, e).jobs, log + Granted(w, e, id), id)
  {
    if e.OnJobs? {
      if id in w.jobs {
        RowKeepsLog(w, e.job, log, id);
      } else {
        NewbornKeepsLog(w, e.job, log, id);
      }
    } else {
      UploadCallKeepsLog(w, e.upload, log, id);
    }
  }

  lemma {:induction false} LeaseIsTheLatestClaim(es: seq<Event>, id: nat)
    ensures LogMatches(Run(EMPTY, es).jobs, ClaimLog(es, id), id)
  {
    if es == [] {
      assert Run(EMPTY, es) == EMPTY;
    } else {
      var front, last := es[..|es| - 1], es[|es| - 1];
      LeaseIsTheLatestClaim(front, id);
      Reachable(front);
      EventKeepsLog(Run(EMPTY, front), last, ClaimLog(front, id), id);
      RunLast(EMPTY, es);
    }
  }

  lemma LogIsBounded(es: seq<Event>, id: nat)
    requires id in Run(EMPTY, es).jobs
    ensures |ClaimLog(es, id)| == Run(EMPTY, es).jobs[id].attempts <= Run(EMPTY, es).jobs[id].fixed.maxAttempts
  {
    LeaseIsTheLatestClaim(es, id);
    Reachable(es);
  }

  /** Fencing over whole runs: whoever a reachable store lets heartbeat or transition a job is the
      worker of that job's latest claim. */
  lemma OnlyTheLatestClaimantActs(es: seq<Event>, id: nat, worker: string, now: Time, deadline: Time, t: Transition)
    requires id in Run(EMPTY, es).jobs
    ensures Heartbeat(Run(EMPTY, es).jobs, Uuid(id), worker, now, deadline).0 != Run(EMPTY, es).jobs ==>
              ClaimLog(es, id) != [] && ClaimLog(es, id)[|ClaimLog(es, id)| - 1] == worker
    ensures t.jobId == Uuid(id) && Move(Run(EMPTY, es).jobs, t).0 != Run(EMPTY, es).jobs ==>
              ClaimLog(es, id) != [] && ClaimLog(es, id)[|ClaimLog(es, id)| - 1] == t.worker
  {
    LeaseIsTheLatestClaim(es, id);
  }

  /** Two snapshots of one job, the later taken after any further run of both stores. */
  lemma LaterSnapshot(es: seq<Event>, fs: seq<Event>, id: nat)
    requires id in Run(EMPTY, es).jobs
    ensures id in Run(EMPTY, es + fs).jobs
    ensures var j, k := Run(EMPTY, es).jobs[id], Run(EMPTY, es + fs).jobs[id];
            k.fixed == j.fixed && k.version >= j.version && FirstInstantsKept(j, k) &&
            (Terminal(j.status) ==> OnlyTombstoned(j, k)) &&
            (Active(j.status) && j.cancelRequestedAt.Some? ==> k.status == Cancelled || OnlyTombstoned(j, k)) &&
            (k.version == j.version ==>
               k == j.(expiresAt := k.expiresAt) && (k == j <==> !Silent(j, Life(Run(EMPTY, es), fs, id))))
  {
    var w := Run(EMPTY, es);
    var j, life := w.jobs[id], Life(w, fs, id);
    Reachable(es);
    RunsCompose(EMPTY, es, fs);
    LifeIsARowRun(w, fs, id);
    RunKeepsRowInv(j, life);
    RunKeepsFirstInstants(j, life);
    VersionNeverFalls(j, life);
    if Terminal(j.status) {
      TerminalIsFinal(j, life);
    } else if Active(j.status) && j.cancelRequestedAt.Some? {
      CancellationIsDecisive(j, life);
    }
    if After(j, life).version == j.version {
      VersionIsFaithfulIff(j, life);
    }
  }

  /** Every status change of a reachable job is an edge of the transitions table, those that raw
      SQL writes included. */
  lemma EveryStatusChangeIsAnEdge(es: seq<Event>, e: Event, id: nat)
    requires id in Run(EMPTY, es).jobs
    ensures id in Step(Run(EMPTY, es), e).jobs
    ensures var before, after := Run(EMPTY, es).jobs[id].status, Step(Run(EMPTY, es), e).jobs[id].status;
            after == before || CanTransition(before, after)
  {
    var w := Run(EMPTY, es);
    Reachable(es);
    if e.OnJobs? {
      StepActsOnRow(w.store.uploads, w.jobs, e.job, id);
      EventFollowsEdge(w.jobs[id], Effect(w.jobs, e.job, id));
    }
  }

  lemma SelectedRowAbortsIff(jobs: Table, now: Time, retryAt: Time, limit: nat, locked: set<nat>, id: nat)
    requires TableInv(jobs) && now != ZERO_TIME && retryAt >= now && id in Members(Batch(jobs, now, limit, locked))
    ensures id in jobs && (RowCheck(RecoverRow(jobs[id], now, retryAt)) <==> jobs[id].version < MAX_INT64)
  {
    BatchRowsExpired(jobs, now, limit, locked, id);
    RecoveryAbortsExactlyWhen(jobs[id], now, retryAt);
  }

  ghost predicate SelectsSpentRow(jobs: Table, ids: set<nat>) {
    exists id :: id in ids && id in jobs && jobs[id].version >= MAX_INT64
  }

  lemma BatchFitsIff(jobs: Table, now: Time, retryAt: Time, limit: nat, locked: set<nat>)
    requires TableInv(jobs) && now != ZERO_TIME && retryAt >= now
    ensures var batch := Batch(jobs, now, limit, locked);
            BatchFits(RecoverAll(jobs, Members(batch), now, retryAt), batch) <==> !SelectsSpentRow(jobs, Members(batch))
  {
    var batch := Batch(jobs, now, limit, locked);
    var after := RecoverAll(jobs, Members(batch), now, retryAt);
    forall id | id in Members(batch)
      ensures id in jobs && id in after && (RowCheck(after[id]) <==> jobs[id].version < MAX_INT64)
    {
      SelectedRowAbortsIff(jobs, now, retryAt, limit, locked, id);
    }
  }

  lemma PassAbortsIff(jobs: Table, now: Time, retryAt: Time, limit: int, locked: set<nat>)
    requires TableInv(jobs) && ValidRecovery(now, retryAt, limit)
    ensures Recover(jobs, now, retryAt, limit, locked).1.Err? <==>
            SelectsSpentRow(jobs, Members(Batch(jobs, now, limit, locked)))
  {
    BatchFitsIff(jobs, now, retryAt, limit, locked);
  }

  /** On a reachable store a valid recovery pass aborts iff a selected row has used up its version
      column; no row can stop the batch for any other reason. */
  lemma RecoveryAbortsIff(es: seq<Event>, now: Time, retryAt: Time, limit: int, locked: set<nat>)
    requires ValidRecovery(now, retryAt, limit)
    ensures Recover(Run(EMPTY, es).jobs, now, retryAt, limit, locked).1.Err? <==>
            SelectsSpentRow(Run(EMPTY, es).jobs, Members(Batch(Run(EMPTY, es).jobs, now, limit, locked)))
  {
    Reachable(es);
    PassAbortsIff(Run(EMPTY, es).jobs, now, retryAt, limit, locked);
  }

  /** A reachable row passes the check of every scan exactly when no mandatory instant is Go's zero
      time, so always when it was created after that. */
  lemma ReachableRowsAreAccepted(es: seq<Event>, id: nat)
    requires id in Run(EMPTY, es).jobs
    ensures ValidStored(Run(EMPTY, es).jobs[id]) <==> TimesSet(Run(EMPTY, es).jobs[id])
    ensures Run(EMPTY, es).jobs[id].fixed.createdAt > ZERO_TIME ==> ValidStored(Run(EMPTY, es).jobs[id])
  {
    Reachable(es);
    AcceptedIffTimesSet(Run(EMPTY, es).jobs[id]);
  }

  // ---------------------------------------------------------------- creation

  /** The input key is free unless the upload already has its job. */
  lemma InputKeyIsFree(w: World, upload: nat)
    requires JointInv(w) && upload in w.store.uploads && !HasJob(w.jobs, upload)
    ensures !InputKeyTaken(w.jobs, w.store.uploads[upload].objectKey)
  {
    forall id | id in w.jobs
      ensures w.jobs[id].fixed.inputKey != w.store.uploads[upload].objectKey
    {
      assert Agrees(w.jobs[id], w.store.uploads[w.jobs[id].fixed.uploadId]);
      assert !UploadHasJob(w.jobs, upload, id);
    }
  }

  lemma ExistingJobOwner(w: World, upload: nat, owner: Owner)
    requires JointInv(w) && upload in w.store.uploads && HasJob(w.jobs, upload)
    requires owner.Valid() && IsSource(w.store.uploads[upload], owner)
    ensures w.jobs[JobOf(w.jobs, upload)].fixed.owner == owner
  {
    var s := w.store.uploads[upload];
    assert Agrees(w.jobs[JobOf(w.jobs, upload)], s);
    assert UT.SessionInv(s);
    OwnerColumnsIdentify(s.owner, owner);
  }

  lemma FreshJobIsStored(w: World, seed: Seed)
    requires JointInv(w) && ValidSeed(seed) && seed.uploadId.id in w.store.uploads
    requires IsSource(w.store.uploads[seed.uploadId.id], seed.owner)
    ensures var s := w.store.uploads[seed.uploadId.id];
            var j := QueuedJob(seed, s.filename, s.objectKey, s.committedSha.value, s.declaredSize as int);
            RowInv(j) && ValidStored(j) && Agrees(j, s)
  {
    var s := w.store.uploads[seed.uploadId.id];
    assert UT.SessionInv(s);
    OwnerColumnsIdentify(s.owner, seed.owner);
    FilenameIsText(s.filename);
    NewRowInv(seed, s.filename, s.objectKey, s.committedSha.value, s.declaredSize as int);
  }

  /** A creation whose upload already has a job returns that job: the owner filter of the conflict
      clause never applies. */
  lemma CreateAgain(w: World, seed: Seed)
    requires JointInv(w) && ValidSeed(seed) && seed.uploadId.id in w.store.uploads
    requires IsSource(w.store.uploads[seed.uploadId.id], seed.owner) && HasJob(w.jobs, seed.uploadId.id)
    ensures var existing := w.jobs[JobOf(w.jobs, seed.uploadId.id)];
            existing.fixed.owner == seed.owner &&
            Create(w.store.uploads, w.jobs, seed) ==
              (w.jobs, if !ValidStored(existing) then Err(StorageFailure)
                       else if existing.deletionRequestedAt.Some? then Err(Conflict) else Ok(existing))
  {
    ExistingJobOwner(w, seed.uploadId.id, seed.owner);
  }

  /** A first creation inserts a queued job that agrees with its upload; the only unique column that
      can collide is the generated identifier. */
  lemma CreateFirst(w: World, seed: Seed)
    requires JointInv(w) && ValidSeed(seed) && seed.uploadId.id in w.store.uploads
    requires IsSource(w.store.uploads[seed.uploadId.id], seed.owner) && !HasJob(w.jobs, seed.uploadId.id)
    ensures var (r, result) := Create(w.store.uploads, w.jobs, seed);
            if seed.id.id in w.jobs then r == w.jobs && result == Err(Conflict)
            else
              result.Ok? && r == w.jobs[seed.id.id := result.value] && result.value.fixed.id == seed.id.id &&
              result.value.fixed.uploadId == seed.uploadId.id && result.value.fixed.owner == seed.owner &&
              result.value.status == Queued && Agrees(result.value, w.store.uploads[seed.uploadId.id])
  {
    InputKeyIsFree(w, seed.uploadId.id);
    FreshJobIsStored(w, seed);
  }

  lemma OnlyJobOf(w: World, upload: nat, id: nat)
    requires JointInv(w) && UploadHasJob(w.jobs, upload, id)
    ensures HasJob(w.jobs, upload) && JobOf(w.jobs, upload) == id
  {
    assert HasJob(w.jobs, upload);
  }

  lemma CreatedIsJobOf(w: World, seed: Seed)
    requires JointInv(w) && Create(w.store.uploads, w.jobs, seed).1.Ok?
    ensures var (r, result) := Create(w.store.uploads, w.jobs, seed);
            var id := result.value.fixed.id;
            id in r && r[id] == result.value &&
            result.value.fixed.uploadId == seed.uploadId.id && result.value.fixed.owner == seed.owner
  {
    if HasJob(w.jobs, seed.uploadId.id) {
      CreateAgain(w, seed);
    } else {
      CreateFirst(w, seed);
    }
  }

  lemma CommittedIsSource(s: U.Session, owner: Owner)
    requires UT.SessionInv(s) && s.status == U.Committed && s.owner == owner
    ensures IsSource(s, owner)
  {
    U.PrefixIsClosedForm(s, s.receivedChunks as int);
  }

  /** The answer to a repeated creation: the job as it stands; a conflict once its deletion was
      requested; a failure of the scan where an instant is Go's zero time. */
  function Again(j: Job): Result<Job, JobError> {
    if !TimesSet(j) then Err(StorageFailure)
    else if j.deletionRequestedAt.Some? then Err(Conflict)
    else Ok(j)
  }

  /** Asking again for the job of an upload changes nothing. */
  lemma RetryReturns(w: World, id: nat, again: Seed)
    requires JointInv(w) && id in w.jobs
    requires ValidSeed(again) && again.uploadId == Uuid(w.jobs[id].fixed.uploadId) &&
             again.owner == w.jobs[id].fixed.owner
    ensures Create(w.store.uploads, w.jobs, again) == (w.jobs, Again(w.jobs[id]))
    ensures w.jobs[id].fixed.createdAt > ZERO_TIME ==> TimesSet(w.jobs[id])
  {
    var upload := w.jobs[id].fixed.uploadId;
    assert Agrees(w.jobs[id], w.store.uploads[upload]);
    CommittedIsSource(w.store.uploads[upload], again.owner);
    assert UploadHasJob(w.jobs, upload, id);
    OnlyJobOf(w, upload, id);
    AcceptedIffTimesSet(w.jobs[id]);
    CreateAgain(w, again);
  }

  /** Retried creation after any further run of both stores returns the same job. */
  lemma CreateRetryReturnsTheSameJob(w: World, seed: Seed, es: seq<Event>, again: Seed)
    requires JointInv(w) && Create(w.store.uploads, w.jobs, seed).1.Ok?
    requires ValidSeed(again) && again.uploadId == seed.uploadId && again.owner == seed.owner
    ensures var first := Create(w.store.uploads, w.jobs, seed).1.value;
            var later := Run(Step(w, OnJobs(Created(seed))), es);
            first.fixed.id in later.jobs && later.jobs[first.fixed.id].fixed == first.fixed &&
            Create(later.store.uploads, later.jobs, again) == (later.jobs, Again(later.jobs[first.fixed.id])) &&
            (first.fixed.createdAt > ZERO_TIME ==> TimesSet(later.jobs[first.fixed.id]))
  {
    var first := Create(w.store.uploads, w.jobs, seed).1.value;
    var id := first.fixed.id;
    var next := Step(w, OnJobs(Created(seed)));
    CreatedIsJobOf(w, seed);
    JobStepKeepsJointInv(w, Created(seed));
    LifeIsARowRun(next, es, id);
    RunKeepsRowInv(next.jobs[id], Life(next, es, id));
    RunKeepsJointInv(next, es);
    RetryReturns(Run(next, es), id, again);
  }
}
