/** Nothing gets stuck: from every reachable state, an open upload can still be finished and turned
    into a completed job, and every unfinished job can still be ended. */
module Progress {
  import opened Common
  import opened JobStatus
  import opened Job
  import opened JobRow
  import opened JobLife
  import opened RowOrder
  import opened JobTable
  import opened Runs
  import U = Upload
  import UT = UploadTables

  // ---------------------------------------------------------------- uploads

  /** The session still takes parts or a commit at this instant. */
  predicate Open(s: U.Session, now: Time) {
    (s.status == U.Uploading || s.status == U.Committing) && s.createdAt <= now < s.expiresAt && now != ZERO_TIME
  }

  /** The next part of a session, whatever its content. */
  function NextPart(u: nat, s: U.Session, now: Time): U.PartWrite
    requires 0 < U.PartSize(s, s.receivedChunks as int) <= 0x7fff_ffff
  {
    U.PartWrite(Uuid(u), s.owner, s.receivedChunks, U.PartSize(s, s.receivedChunks as int) as int64, 0, "p", now)
  }

  lemma NextPartHasASize(s: U.Session)
    requires UT.SessionInv(s) && s.receivedChunks < s.expectedChunks
    ensures 0 < U.PartSize(s, s.receivedChunks as int) <= 0x7fff_ffff
  {
    U.CeilingGeometry(s);
  }

  lemma NextPartIsAdded(t: UT.Tables, u: nat, now: Time)
    requires UT.Inv(t) && u in t.uploads && Open(t.uploads[u], now) && t.uploads[u].status == U.Uploading
    requires var s := t.uploads[u];
             s.receivedChunks < s.expectedChunks && 0 < U.PartSize(s, s.receivedChunks as int) <= 0x7fff_ffff
    ensures var s := t.uploads[u];
            var w := NextPart(u, s, now);
            UT.SessionInv(s) && U.ValidWrite(w) &&
            UT.RecordPart(t, w) == UT.AddPart(t, s, UT.PartKey(u, w.index as nat), w)
  {
    var s := t.uploads[u];
    assert UT.SessionInv(s);
    assert UT.PartKey(u, s.receivedChunks as nat) !in t.parts;
    assert 'p' in NextPart(u, s, now).backendId;
  }

  lemma NextPartIsAccepted(t: UT.Tables, u: nat, now: Time)
    requires UT.Inv(t) && u in t.uploads && Open(t.uploads[u], now) && t.uploads[u].status == U.Uploading
    requires var s := t.uploads[u];
             s.receivedChunks < s.expectedChunks && 0 < U.PartSize(s, s.receivedChunks as int) <= 0x7fff_ffff
    ensures var s := t.uploads[u];
            var r := UT.RecordPart(t, NextPart(u, s, now)).0;
            u in r.uploads && Open(r.uploads[u], now) && UT.OnlyAdvanced(s, r.uploads[u]) &&
            r.uploads[u].receivedChunks == s.receivedChunks + 1
  {
    NextPartIsAdded(t, u, now);
    var w := NextPart(u, t.uploads[u], now);
    UT.AddPartOutcome(t, t.uploads[u], UT.PartKey(u, w.index as nat), w);
  }

  /** How many parts are still missing. */
  function Missing(s: U.Session): int { s.expectedChunks as int - s.receivedChunks as int }

  lemma OnePartLess(w: World, u: nat, now: Time) returns (e: UT.UploadEvent)
    requires JointInv(w) && u in w.store.uploads && Open(w.store.uploads[u], now) && Missing(w.store.uploads[u]) > 0
    ensures var r := UT.Step(w.store, e).uploads;
            u in r && Open(r[u], now) && UT.OnlyAdvanced(w.store.uploads[u], r[u]) &&
            Missing(r[u]) == Missing(w.store.uploads[u]) - 1
  {
    var s := w.store.uploads[u];
    assert UT.SessionInv(s);
    NextPartHasASize(s);
    NextPartIsAccepted(w.store, u, now);
    e := UT.PartSent(NextPart(u, s, now));
  }

  lemma CommitIsAccepted(t: UT.Tables, u: nat, sha: Digest, now: Time)
    requires UT.Inv(t) && u in t.uploads && Open(t.uploads[u], now)
    requires t.uploads[u].receivedChunks == t.uploads[u].expectedChunks
    ensures var s := t.uploads[u];
            var r := UT.BeginCommit(t, Uuid(u), s.owner, now).0;
            var d := UT.Complete(r, Uuid(u), s.owner, sha, now).0;
            u in d.uploads && UT.OnlyAdvanced(s, d.uploads[u]) &&
            d.uploads[u].status == U.Committed && d.uploads[u].committedSha == Some(sha)
  {
    UT.CompleteIffAllReceived(t, u);
    UT.BeginCommitKeepsInv(t, Uuid(u), t.uploads[u].owner, now);
    var r := UT.BeginCommit(t, Uuid(u), t.uploads[u].owner, now).0;
    assert UT.SessionInv(r.uploads[u]);
  }

  lemma CommitAtWorld(w: World, u: nat, sha: Digest, now: Time) returns (es: seq<Event>)
    requires JointInv(w) && u in w.store.uploads && Open(w.store.uploads[u], now) && Missing(w.store.uploads[u]) == 0
    ensures FinishedBy(w, es, u, sha)
  {
    CommitIsAccepted(w.store, u, sha, now);
    var owner := w.store.uploads[u].owner;
    es := CommitEvents(w, u, owner, sha, now);
  }

  lemma CommitEvents(w: World, u: nat, owner: Owner, sha: Digest, now: Time) returns (es: seq<Event>)
    ensures var r := UT.BeginCommit(w.store, Uuid(u), owner, now).0;
            Run(w, es) == w.(store := UT.Complete(r, Uuid(u), owner, sha, now).0)
  {
    var e, f := OnUploads(UT.CommitBegun(Uuid(u), owner, now)), OnUploads(UT.CommitDone(Uuid(u), owner, sha, now));
    es := [e, f];
    TwoSteps(w, e, f);
  }

  /** A run that commits one upload with one digest and leaves the jobs alone. */
  ghost predicate FinishedBy(w: World, es: seq<Event>, u: nat, sha: Digest)
    requires u in w.store.uploads
  {
    Run(w, es).jobs == w.jobs && u in Run(w, es).store.uploads &&
    var r := Run(w, es).store.uploads[u];
    UT.OnlyAdvanced(w.store.uploads[u], r) && r.status == U.Committed && r.committedSha == Some(sha)
  }

  lemma FinishedAfter(w: World, e: UT.UploadEvent, es: seq<Event>, u: nat, sha: Digest)
    requires u in w.store.uploads && u in UT.Step(w.store, e).uploads
    requires UT.OnlyAdvanced(w.store.uploads[u], UT.Step(w.store, e).uploads[u])
    requires FinishedBy(w.(store := UT.Step(w.store, e)), es, u, sha)
    ensures FinishedBy(w, [OnUploads(e)] + es, u, sha)
  {
    assert ([OnUploads(e)] + es)[1..] == es;
  }

  lemma MissingIsNat(w: World, u: nat)
    requires JointInv(w) && u in w.store.uploads
    ensures Missing(w.store.uploads[u]) >= 0
  {
    assert UT.SessionInv(w.store.uploads[u]);
  }

  /** Every open upload can be finished: its missing parts are accepted one after another, then the
      commit with any digest. No other upload and no job is needed for it. */
  lemma {:induction false} UploadCanBeFinished(w: World, u: nat, sha: Digest, now: Time) returns (es: seq<Event>)
    requires JointInv(w) && u in w.store.uploads && Open(w.store.uploads[u], now)
    ensures FinishedBy(w, es, u, sha)
    decreases Missing(w.store.uploads[u])
  {
    MissingIsNat(w, u);
    if Missing(w.store.uploads[u]) > 0 {
      var e := OnePartLess(w, u, now);
      UploadStepKeepsJointInv(w, e);
      var rest := UploadCanBeFinished(w.(store := UT.Step(w.store, e)), u, sha, now);
      FinishedAfter(w, e, rest, u, sha);
      es := [OnUploads(e)] + rest;
    } else {
      es := CommitAtWorld(w, u, sha, now);
    }
  }

  lemma TwoSteps(w: World, e: Event, f: Event)
    ensures Run(w, [e, f]) == Runs.Step(Runs.Step(w, e), f)
  {
    assert [e, f][1..] == [f] && [f][1..] == [];
    assert Run(Runs.Step(Runs.Step(w, e), f), []) == Runs.Step(Runs.Step(w, e), f);
  }

  // ---------------------------------------------------------------- jobs

  /** A worker that finds the source already good enough completes the job in one transition. */
  function Finish(j: Job, worker: string, now: Time): Transition {
    Transition(Uuid(j.fixed.id), worker, Analyzing, Completed, 100, "", "", "", now, now + 1)
  }

  lemma ClaimedJobCanComplete(j: Job, worker: string, now: Time)
    requires RowInv(j) && ValidWorker(worker) && Claimable(j, now) && now != ZERO_TIME && j.version + 2 <= MAX_INT64
    ensures Happens(j, Claimed(worker, now, now + 1))
    ensures var k := ClaimRow(j, worker, now, now + 1);
            Happens(k, Moved(Finish(j, worker, now))) && MoveRow(k, Finish(j, worker, now)).status == Completed &&
            MoveRow(k, Finish(j, worker, now)).fixed == j.fixed
  {
    ClaimHappens(j, worker, now, now + 1);
    assert ValidTransition(Analyzing, Completed);
    MoveAbortsExactlyWhen(ClaimRow(j, worker, now, now + 1), Finish(j, worker, now));
  }

  lemma ClaimTakesTheOnlyFreeRow(w: World, id: nat, worker: string, now: Time)
    requires id in w.jobs && ValidWorker(worker) && Claimable(w.jobs[id], now) && now != ZERO_TIME
    requires RowCheck(ClaimRow(w.jobs[id], worker, now, now + 1))
    ensures Claim(w.jobs, worker, now, now + 1, w.jobs.Keys - {id}).0 ==
            w.jobs[id := ClaimRow(w.jobs[id], worker, now, now + 1)]
  {
    var keys := ClaimKeys(w.jobs, now, w.jobs.Keys - {id});
    assert id in keys && keys.Keys == {id};
    assert Least(keys) == id;
  }

  lemma ClaimStep(w: World, id: nat, worker: string, now: Time)
    requires id in w.jobs && ValidWorker(worker) && Claimable(w.jobs[id], now) && now != ZERO_TIME
    requires RowCheck(ClaimRow(w.jobs[id], worker, now, now + 1))
    ensures Runs.Step(w, OnJobs(ClaimAsked(worker, now, now + 1, w.jobs.Keys - {id}))) ==
            w.(jobs := w.jobs[id := ClaimRow(w.jobs[id], worker, now, now + 1)])
  {
    ClaimTakesTheOnlyFreeRow(w, id, worker, now);
  }

  lemma MoveWrites(jobs: Table, t: Transition)
    requires t.jobId.Uuid? && t.jobId.id in jobs && Happens(jobs[t.jobId.id], Moved(t))
    ensures Move(jobs, t).0 == jobs[t.jobId.id := MoveRow(jobs[t.jobId.id], t)]
  {
  }

  /** Every claimable job can be completed, even while all other rows are held. */
  lemma JobCanComplete(w: World, id: nat, worker: string, now: Time) returns (es: seq<Event>)
    requires TableInv(w.jobs) && id in w.jobs && ValidWorker(worker) && Claimable(w.jobs[id], now) && now != ZERO_TIME
    requires w.jobs[id].version + 2 <= MAX_INT64
    ensures id in Run(w, es).jobs && Run(w, es).jobs[id].status == Completed
    ensures Run(w, es).jobs[id].fixed == w.jobs[id].fixed && Run(w, es).store == w.store
  {
    var j := w.jobs[id];
    var e := OnJobs(ClaimAsked(worker, now, now + 1, w.jobs.Keys - {id}));
    var f := OnJobs(MoveSent(Finish(j, worker, now)));
    es := [e, f];
    TwoSteps(w, e, f);
    ClaimedJobCanComplete(j, worker, now);
    ClaimStep(w, id, worker, now);
    CompletionStep(w.(jobs := w.jobs[id := ClaimRow(j, worker, now, now + 1)]), id, Finish(j, worker, now));
  }

  lemma CompletionStep(w: World, id: nat, t: Transition)
    requires id in w.jobs && t.jobId == Uuid(id) && Happens(w.jobs[id], Moved(t))
    ensures Runs.Step(w, OnJobs(MoveSent(t))) == w.(jobs := w.jobs[id := MoveRow(w.jobs[id], t)])
  {
    MoveWrites(w.jobs, t);
  }

  lemma RecoverTakesTheOnlyFreeRow(w: World, id: nat, at: Time)
    requires id in w.jobs && at != ZERO_TIME && LeaseExpired(w.jobs[id], at) && RowCheck(RecoverRow(w.jobs[id], at, at))
    ensures Recover(w.jobs, at, at, 1, w.jobs.Keys - {id}).0 == w.jobs[id := RecoverRow(w.jobs[id], at, at)]
  {
    var locked := w.jobs.Keys - {id};
    var keys := RecoverKeys(w.jobs, at, locked);
    BatchMembers(w.jobs, at, 1, locked);
    assert keys.Keys == {id};
    assert |keys| == 1;
    var batch := Batch(w.jobs, at, 1, locked);
    assert batch[0] in Members(batch);
    assert batch == [id];
  }

  lemma RecoverStep(w: World, id: nat, at: Time)
    requires id in w.jobs && at != ZERO_TIME && LeaseExpired(w.jobs[id], at) && RowCheck(RecoverRow(w.jobs[id], at, at))
    ensures Runs.Step(w, OnJobs(RecoverAsked(at, at, 1, w.jobs.Keys - {id}))) ==
            w.(jobs := w.jobs[id := RecoverRow(w.jobs[id], at, at)])
  {
    RecoverTakesTheOnlyFreeRow(w, id, at);
  }

  /** Cancelling a queued job in its owner's name ends it. */
  lemma CancelStep(w: World, id: nat)
    requires id in w.jobs && RowInv(w.jobs[id]) && w.jobs[id].status == Queued && w.jobs[id].version < MAX_INT64
    ensures var d := Runs.Step(w, OnJobs(CancelSent(Uuid(id), w.jobs[id].fixed.owner, 1)));
            d == w.(jobs := w.jobs[id := CancelRow(w.jobs[id], 1)]) && CancelRow(w.jobs[id], 1).status == Cancelled
  {
    CancellationAbortsExactlyWhen(w.jobs[id], 1);
  }

  /** How many calls it takes to end an unfinished job that nobody works on. */
  function CallsToEnd(j: Job): nat { if Active(j.status) && Retryable(j) then 2 else 1 }

  /** Only one row differs, and it is finished. */
  ghost predicate OnlyEnded(w: World, d: World, id: nat) {
    d.store == w.store && id in d.jobs && Terminal(d.jobs[id].status) && d == w.(jobs := w.jobs[id := d.jobs[id]])
  }

  lemma ExpiryOf(j: Job) returns (at: Time)
    requires RowInv(j) && Active(j.status) && j.version < MAX_INT64
    ensures at != ZERO_TIME && LeaseExpired(j, at) && RowCheck(RecoverRow(j, at, at)) && RowInv(RecoverRow(j, at, at))
    ensures var k := RecoverRow(j, at, at);
            k.fixed == j.fixed && k.version == j.version + 1 &&
            (if Retryable(j) then k.status == Queued else Terminal(k.status))
  {
    at := if j.leaseExpiresAt.value == ZERO_TIME then 1 else j.leaseExpiresAt.value;
    RecoveryAbortsExactlyWhen(j, at, at);
    RecoverKeepsRowInv(j, at, at);
  }

  lemma QueuedJobEnds(w: World, id: nat) returns (e: Event)
    requires TableInv(w.jobs) && id in w.jobs && w.jobs[id].status == Queued && w.jobs[id].version < MAX_INT64
    ensures e.OnJobs? && e.job.CancelSent? && OnlyEnded(w, Runs.Step(w, e), id)
  {
    e := OnJobs(CancelSent(Uuid(id), w.jobs[id].fixed.owner, 1));
    CancelStep(w, id);
  }

  lemma PutKeepsTableInv(jobs: Table, id: nat, j: Job)
    requires TableInv(jobs) && id in jobs && RowInv(j) && j.fixed == jobs[id].fixed
    ensures TableInv(jobs[id := j])
  {
  }

  /** A recovery ends a job that has no retry left and requeues any other. */
  lemma ActiveJobRecovers(w: World, id: nat) returns (e: Event)
    requires TableInv(w.jobs) && id in w.jobs && Active(w.jobs[id].status) && w.jobs[id].version < MAX_INT64
    ensures e.OnJobs? && e.job.RecoverAsked?
    ensures var d := Runs.Step(w, e);
            id in d.jobs && d == w.(jobs := w.jobs[id := d.jobs[id]]) && TableInv(d.jobs) &&
            d.jobs[id].version == w.jobs[id].version + 1 &&
            (if Retryable(w.jobs[id]) then d.jobs[id].status == Queued else Terminal(d.jobs[id].status))
  {
    var at := ExpiryOf(w.jobs[id]);
    RecoverStep(w, id, at);
    PutKeepsTableInv(w.jobs, id, RecoverRow(w.jobs[id], at, at));
    e := OnJobs(RecoverAsked(at, at, 1, w.jobs.Keys - {id}));
  }

  lemma EndedInTwo(w: World, d: World, r: World, id: nat)
    requires id in d.jobs && d == w.(jobs := w.jobs[id := d.jobs[id]]) && OnlyEnded(d, r, id)
    ensures OnlyEnded(w, r, id)
  {
  }

  lemma RetryableJobEnds(w: World, id: nat) returns (e: Event, f: Event)
    requires TableInv(w.jobs) && id in w.jobs && Active(w.jobs[id].status) && Retryable(w.jobs[id])
    requires w.jobs[id].version + 2 <= MAX_INT64
    ensures e.OnJobs? && e.job.RecoverAsked? && f.OnJobs? && f.job.CancelSent?
    ensures OnlyEnded(w, Run(w, [e, f]), id)
  {
    e := ActiveJobRecovers(w, id);
    var d := Runs.Step(w, e);
    f := QueuedJobEnds(d, id);
    TwoSteps(w, e, f);
    EndedInTwo(w, d, Runs.Step(d, f), id);
  }

  lemma UnfinishedStatus(jobs: Table, id: nat)
    requires TableInv(jobs) && id in jobs && !Terminal(jobs[id].status)
    ensures jobs[id].status == Queued || Active(jobs[id].status)
  {
    assert RowInv(jobs[id]);
  }

  /** On the store, every unfinished job that nobody works on can be ended, with all other rows held
      and none of them touched: a recovery at its deadline, then a cancellation by its owner if that
      put it back in the queue. All it takes is room in its version column. */
  lemma NoJobIsStuck(w: World, id: nat) returns (es: seq<Event>)
    requires TableInv(w.jobs) && id in w.jobs && !Terminal(w.jobs[id].status)
    requires w.jobs[id].version + CallsToEnd(w.jobs[id]) <= MAX_INT64
    ensures |es| == CallsToEnd(w.jobs[id]) && OnlyEnded(w, Run(w, es), id)
    ensures forall e :: e in es ==> e.OnJobs? && (e.job.RecoverAsked? || e.job.CancelSent?)
  {
    UnfinishedStatus(w.jobs, id);
    if CallsToEnd(w.jobs[id]) == 2 {
      var e, f := RetryableJobEnds(w, id);
      es := [e, f];
    } else {
      var e := OneCallEnds(w, id);
      es := [e];
    }
  }

  lemma OneCallEnds(w: World, id: nat) returns (e: Event)
    requires TableInv(w.jobs) && id in w.jobs && !Terminal(w.jobs[id].status) && CallsToEnd(w.jobs[id]) == 1
    requires w.jobs[id].version < MAX_INT64
    ensures e.OnJobs? && (e.job.RecoverAsked? || e.job.CancelSent?) && OnlyEnded(w, Run(w, [e]), id)
  {
    UnfinishedStatus(w.jobs, id);
    if w.jobs[id].status == Queued {
      e := QueuedJobEnds(w, id);
    } else {
      e := ActiveJobRecovers(w, id);
    }
    OneStep(w, e);
  }

  lemma OneStep(w: World, e: Event)
    ensures Run(w, [e]) == Runs.Step(w, e)
  {
    RunAppended(w, [], e);
    assert [] + [e] == [e];
  }

  /** The two phases that lead to each other. */
  function OtherPhase(s: Status): Status { if s == Optimizing then Validating else Optimizing }

  function Alternate(j: Job, worker: string, now: Time, deadline: Time): Transition {
    Transition(Uuid(j.fixed.id), worker, j.status, OtherPhase(j.status), j.progress, j.message, "", "", now, deadline)
  }

  /** A worker holds an undisturbed lease in one of the two phases. */
  predicate MayAlternate(j: Job, worker: string, now: Time) {
    RowInv(j) && (j.status == Optimizing || j.status == Validating) && !StopRequested(j) &&
    ValidWorker(worker) && HoldsLease(j, worker, now) && now >= j.fixed.createdAt && now != ZERO_TIME
  }

  lemma PhaseCanAlternate(j: Job, worker: string, now: Time, deadline: Time) returns (e: RowEvent, k: Job)
    requires MayAlternate(j, worker, now) && deadline > now && j.version < MAX_INT64
    ensures e.Moved? && Happens(j, e) && Apply(j, e) == k && MayAlternate(k, worker, now)
    ensures k.status == OtherPhase(j.status) && k.progress == j.progress && k.version == j.version + 1
    ensures Fuel(k) == Fuel(j)
  {
    var t := Alternate(j, worker, now, deadline);
    assert ValidTransition(j.status, OtherPhase(j.status));
    MoveAbortsExactlyWhen(j, t);
    MoveKeepsRowInv(j, t);
    e, k := Moved(t), MoveRow(j, t);
  }

  /** After n changes of phase, progress and fuel are where they were. */
  predicate Alternated(j: Job, k: Job, n: nat) {
    k.status == (if n % 2 == 0 then j.status else OtherPhase(j.status)) && k.progress == j.progress &&
    Fuel(k) == Fuel(j)
  }

  lemma RunOneMore(j: Job, e: RowEvent, k: Job, es: seq<RowEvent>)
    requires Happens(j, e) && Apply(j, e) == k && RowRun(k, es)
    ensures RowRun(j, [e] + es) && After(j, [e] + es) == After(k, es)
  {
    assert ([e] + es)[1..] == es;
  }

  lemma AlternatedOnceMore(j: Job, k: Job, last: Job, n: nat)
    requires (j.status == Optimizing || j.status == Validating) && k.status == OtherPhase(j.status)
    requires k.progress == j.progress && Fuel(k) == Fuel(j) && Alternated(k, last, n)
    ensures Alternated(j, last, n + 1)
  {
  }

  /** Only claims, recoveries and terminal steps are bounded: a worker that keeps its lease may go
      back and forth between optimizing and validating at equal progress as often as it likes, up
      to the width of the version column. */
  lemma {:induction false} PhasesMayAlternate(j: Job, worker: string, now: Time, deadline: Time, n: nat)
      returns (es: seq<RowEvent>)
    requires MayAlternate(j, worker, now) && deadline > now && j.version + n <= MAX_INT64
    ensures |es| == n && (forall i :: 0 <= i < n ==> es[i].Moved?)
    ensures RowRun(j, es) && Alternated(j, After(j, es), n)
    decreases n
  {
    if n == 0 {
      es := [];
    } else {
      var e, k := PhaseCanAlternate(j, worker, now, deadline);
      var rest := PhasesMayAlternate(k, worker, now, deadline, n - 1);
      RunOneMore(j, e, k, rest);
      AlternatedOnceMore(j, k, After(k, rest), n - 1);
      es := [e] + rest;
    }
  }

  // ---------------------------------------------------------------- from upload to result

  /** The seed of a job for a session, created and available at one instant. */
  predicate SeedFor(seed: Seed, u: nat, owner: Owner, now: Time) {
    ValidSeed(seed) && seed.uploadId == Uuid(u) && seed.owner == owner &&
    seed.createdAt == now && seed.availableAt == now
  }

  lemma CommittedUploadCanBeProcessed(w: World, u: nat, sha: Digest, seed: Seed, worker: string, now: Time)
      returns (es: seq<Event>)
    requires JointInv(w) && u in w.store.uploads && w.store.uploads[u].status == U.Committed
    requires w.store.uploads[u].committedSha == Some(sha) && !HasJob(w.jobs, u) && seed.id.Uuid? &&
             seed.id.id !in w.jobs
    requires SeedFor(seed, u, w.store.uploads[u].owner, now) && ValidWorker(worker)
    ensures seed.id.id in Run(w, es).jobs && Processed(Run(w, es).jobs[seed.id.id], u, sha)
  {
    CommittedIsSource(w.store.uploads[u], seed.owner);
    CreateFirst(w, seed);
    var create := OnJobs(Created(seed));
    JobStepKeepsJointInv(w, create.job);
    var c := Runs.Step(w, create);
    FreshJobIsStored(w, seed);
    var work := JobCanComplete(c, seed.id.id, worker, now);
    es := [create] + work;
    assert es[1..] == work;
  }

  predicate Processed(j: Job, u: nat, sha: Digest) {
    j.status == Completed && j.fixed.uploadId == u && j.fixed.inputSha == sha
  }

  /** From every reachable state, every open upload can be finished and become a completed job. */
  lemma UploadCanBecomeACompletedJob(past: seq<Event>, u: nat, sha: Digest, seed: Seed, worker: string, now: Time)
      returns (es: seq<Event>)
    requires u in Run(EMPTY, past).store.uploads && Open(Run(EMPTY, past).store.uploads[u], now)
    requires SeedFor(seed, u, Run(EMPTY, past).store.uploads[u].owner, now) && ValidWorker(worker)
    requires seed.id.id !in Run(EMPTY, past).jobs
    ensures seed.id.id in Run(EMPTY, past + es).jobs && Processed(Run(EMPTY, past + es).jobs[seed.id.id], u, sha)
  {
    var w := Run(EMPTY, past);
    Reachable(past);
    OpenUploadHasNoJob(w, u, now);
    var upload := UploadCanBeFinished(w, u, sha, now);
    RunKeepsJointInv(w, upload);
    var work := CommittedUploadCanBeProcessed(Run(w, upload), u, sha, seed, worker, now);
    es := upload + work;
    RunsCompose(w, upload, work);
    RunsCompose(EMPTY, past, es);
  }

  lemma UploadOfAJobIsCommitted(w: World, u: nat, id: nat)
    requires JointInv(w) && UploadHasJob(w.jobs, u, id)
    ensures u in w.store.uploads && w.store.uploads[u].status == U.Committed
  {
    assert Agrees(w.jobs[id], w.store.uploads[u]);
  }

  lemma OpenUploadHasNoJob(w: World, u: nat, now: Time)
    requires JointInv(w) && u in w.store.uploads && Open(w.store.uploads[u], now)
    ensures !HasJob(w.jobs, u)
  {
    if HasJob(w.jobs, u) {
      UploadOfAJobIsCommitted(w, u, JobOf(w.jobs, u));
    }
  }
}
