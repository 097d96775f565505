/** Reachable states in which the code does not do what a reader might expect: each of the exact
    conditions proved elsewhere is met on its failing side by a run from empty tables. */
module Witnesses {
  import opened Common
  import opened JobStatus
  import opened Job
  import opened JobRow
  import opened RowOrder
  import opened JobTable
  import P = Progress
  import R = Runs
  import U = Upload
  import UT = UploadTables

  /** Whoever asks, and whatever one-chunk upload it is about. */
  datatype Setting = Setting(owner: Owner, name: string, contentType: string, key: string, size: int64) {
    predicate Usable() {
      owner.Valid() && owner.kind == Anonymous && U.SanitizedFilename(name) && U.NormalizedType(contentType) &&
      BoundedText(key, U.MAX_KEY_BYTES) && 0 < size <= 0x7fff_ffff
    }
  }

  lemma UsableSettingExists() returns (x: Setting)
    ensures x.Usable()
  {
    OneCharacterIsText('b', U.MAX_TYPE_BYTES);
    OneCharacterIsText('k', U.MAX_KEY_BYTES);
    OneCharacterIsAName('-');
    x := Setting(Owner(Anonymous, 0, Uuid(0)), ['-'], ['b'], ['k'], 1);
  }

  /** A one-chunk upload as it is opened at an instant. */
  ghost predicate OneChunkUpload(s: U.Session, x: Setting, at: Time) {
    U.ValidNew(s) && s.id == Uuid(0) && s.owner == x.owner && s.filename == x.name && s.objectKey == x.key &&
    s.declaredSize == x.size && s.createdAt == at && s.expiresAt == at + 1000
  }

  function SeedAt(x: Setting, at: Time): Seed {
    Seed(Uuid(0), Uuid(0), x.owner, NO_CREATOR, "", "", 0, 0, 1, Queued, 0, "", 0, 3, at, at, at, at + 1000, 1)
  }

  /** The only job of a database whose only upload was opened, committed and used at one instant. */
  function JobAt(x: Setting, at: Time): Job { QueuedJob(SeedAt(x, at), x.name, x.key, 7, x.size as int) }

  /** The database holds exactly this job. */
  ghost predicate Holds(es: seq<R.Event>, j: Job) {
    R.Run(R.EMPTY, es).jobs == map[0 := j]
  }

  lemma OneCharacterIsText(c: char, maximum: nat)
    requires !Space(c) && maximum > 0
    ensures BoundedText([c], maximum)
  {
    assert c in [c];
  }

  lemma OneCharacterIsAName(c: char)
    requires ' ' < c < '/'
    requires c != '.'
    ensures U.SanitizedFilename([c])
  {
    assert [c][0] == c;
    assert [c] != "." && [c] != "..";
  }

  lemma OneChunkGeometry(s: U.Session)
    requires 0 < s.declaredSize == s.chunkSize <= 0x7fff_ffff && s.expectedChunks == 1
    ensures U.Geometry(s)
  {
    U.QuotientIsUnique(s.declaredSize as int, s.chunkSize as int, 1);
  }

  lemma OneChunkSessionIsNew(s: U.Session)
    requires s.id.Uuid? && s.owner.Valid() && U.Geometry(s) && s.multipartId == []
    requires U.SanitizedFilename(s.filename) && U.NormalizedType(s.contentType) &&
             BoundedText(s.objectKey, U.MAX_KEY_BYTES)
    requires s.receivedChunks == 0 && s.receivedBytes == 0 && s.status == U.Uploading
    requires s.committedSha.None? && s.committedAt.None? && s.updatedAt == s.createdAt < s.expiresAt
    requires s.createdAt != ZERO_TIME && s.expiresAt != ZERO_TIME
    ensures U.ValidNew(s)
  {
  }

  lemma OneChunkUploadExists(x: Setting, at: Time) returns (s: U.Session)
    requires x.Usable() && at != ZERO_TIME && at + 1000 != ZERO_TIME
    ensures OneChunkUpload(s, x, at)
  {
    s := U.Session(Uuid(0), x.owner, x.name, x.contentType, x.size, x.size, 1, 0, 0, U.Uploading, x.key, [], None,
                   at, at, None, at + 1000);
    OneChunkGeometry(s);
    OneChunkSessionIsNew(s);
  }

  lemma SeedIsValid(x: Setting, at: Time)
    requires x.Usable() && at != ZERO_TIME && at + 1000 != ZERO_TIME
    ensures ValidSeed(SeedAt(x, at))
  {
  }

  lemma SessionIsStored(w: R.World, s: U.Session)
    requires w.store.uploads == map[] && w.jobs == map[] && U.ValidNew(s) && s.id == Uuid(0)
    ensures R.Step(w, R.OnUploads(UT.Started(s))) == w.(store := w.store.(uploads := map[0 := s]))
  {
  }

  lemma JobAfterStart(w: R.World, x: Setting, at: Time) returns (es: seq<R.Event>)
    requires R.JointInv(w) && w.jobs == map[] && 0 in w.store.uploads && OneChunkUpload(w.store.uploads[0], x, at)
    requires at != ZERO_TIME && ValidSeed(SeedAt(x, at))
    ensures R.Run(w, es).jobs == map[0 := JobAt(x, at)] && RowInv(JobAt(x, at))
  {
    var upload := P.UploadCanBeFinished(w, 0, 7, at);
    var d := R.Run(w, upload);
    R.RunKeepsJointInv(w, upload);
    R.CommittedIsSource(d.store.uploads[0], x.owner);
    JobIsCreated(d, x, at);
    es := upload + [R.OnJobs(Created(SeedAt(x, at)))];
    R.RunAppended(w, upload, R.OnJobs(Created(SeedAt(x, at))));
  }

  lemma FirstSession(w: R.World, s: U.Session)
    requires R.JointInv(w) && w.store.uploads == map[] && w.jobs == map[] && U.ValidNew(s) && s.id == Uuid(0)
    ensures var d := R.Run(w, [R.OnUploads(UT.Started(s))]);
            R.JointInv(d) && d.jobs == map[] && 0 in d.store.uploads && d.store.uploads[0] == s
  {
    var e := R.OnUploads(UT.Started(s));
    SessionIsStored(w, s);
    R.RunAppended(w, [], e);
    assert [] + [e] == [e];
    R.UploadStepKeepsJointInv(w, UT.Started(s));
  }

  lemma StartIsReachable(x: Setting, at: Time) returns (es: seq<R.Event>)
    requires x.Usable() && at != ZERO_TIME && at + 1000 != ZERO_TIME
    ensures var w := R.Run(R.EMPTY, es);
            R.JointInv(w) && w.jobs == map[] && 0 in w.store.uploads && OneChunkUpload(w.store.uploads[0], x, at)
  {
    var s := OneChunkUploadExists(x, at);
    R.Reachable([]);
    es := [R.OnUploads(UT.Started(s))];
    FirstSession(R.EMPTY, s);
  }

  lemma JobIsReachable(x: Setting, at: Time) returns (es: seq<R.Event>)
    requires x.Usable() && at != ZERO_TIME && at + 1000 != ZERO_TIME
    ensures Holds(es, JobAt(x, at)) && RowInv(JobAt(x, at))
  {
    SeedIsValid(x, at);
    var start := StartIsReachable(x, at);
    var rest := JobAfterStart(R.Run(R.EMPTY, start), x, at);
    es := start + rest;
    R.RunsCompose(R.EMPTY, start, rest);
  }

  lemma JobIsCreated(d: R.World, x: Setting, at: Time)
    requires R.JointInv(d) && ValidSeed(SeedAt(x, at)) && d.jobs == map[] && 0 in d.store.uploads
    requires var s := d.store.uploads[0];
             IsSource(s, x.owner) && s.filename == x.name && s.objectKey == x.key && s.committedSha == Some(7) &&
             s.declaredSize == x.size
    ensures R.Step(d, R.OnJobs(Created(SeedAt(x, at)))).jobs == map[0 := JobAt(x, at)] && RowInv(JobAt(x, at))
  {
    R.CreateFirst(d, SeedAt(x, at));
    R.FreshJobIsStored(d, SeedAt(x, at));
    NewRowsAreCreated(d.store.uploads, d.jobs, Created(SeedAt(x, at)), 0);
  }

  lemma OneMoreCall(es: seq<R.Event>, j: Job, e: JobEvent, k: Job)
    requires Holds(es, j) && forall uploads :: JobTable.Step(uploads, map[0 := j], e) == map[0 := k]
    ensures Holds(es + [R.OnJobs(e)], k)
  {
    R.RunAppended(R.EMPTY, es, R.OnJobs(e));
  }

  lemma OnlyRowIsClaimed(j: Job, worker: string, now: Time, deadline: Time)
    requires j.fixed.id == 0 && ValidClaim(worker, now, deadline) && Claimable(j, now)
    requires RowCheck(ClaimRow(j, worker, now, deadline))
    ensures Claim(map[0 := j], worker, now, deadline, {}).0 == map[0 := ClaimRow(j, worker, now, deadline)]
  {
    var keys := ClaimKeys(map[0 := j], now, {});
    assert 0 in keys && Least(keys) in keys;
  }

  lemma OnlyRowIsRecovered(j: Job, now: Time, retryAt: Time)
    requires j.fixed.id == 0 && ValidRecovery(now, retryAt, 1) && LeaseExpired(j, now)
    requires RowCheck(RecoverRow(j, now, retryAt))
    ensures Recover(map[0 := j], now, retryAt, 1, {}).0 == map[0 := RecoverRow(j, now, retryAt)]
  {
    var keys := RecoverKeys(map[0 := j], now, {});
    BatchMembers(map[0 := j], now, 1, {});
    assert keys.Keys == {0};
    assert |keys| == 1;
    var batch := Batch(map[0 := j], now, 1, {});
    assert batch[0] in Members(batch);
    assert batch == [0];
  }

  /** The only job, claimed by a worker. */
  lemma ClaimedJobIsReachable(x: Setting, at: Time, now: Time, deadline: Time) returns (es: seq<R.Event>)
    requires x.Usable() && at != ZERO_TIME && at + 1000 != ZERO_TIME && now != ZERO_TIME && at <= now < at + 1000
    requires now < deadline
    ensures Holds(es, ClaimRow(JobAt(x, at), "w", now, deadline)) && RowInv(ClaimRow(JobAt(x, at), "w", now, deadline))
  {
    var past := JobIsReachable(x, at);
    var j, e := JobAt(x, at), ClaimAsked("w", now, deadline, {});
    assert 'w' in "w";
    ClaimAbortsExactlyWhen(j, "w", now, deadline);
    OnlyRowIsClaimed(j, "w", now, deadline);
    OneMoreCall(past, j, e, ClaimRow(j, "w", now, deadline));
    ClaimKeepsRowInv(j, "w", now, deadline);
    es := past + [R.OnJobs(e)];
  }

  lemma OnlyRowIsBeaten(j: Job, worker: string, now: Time, deadline: Time)
    requires RowInv(j) && ValidClaim(worker, now, deadline) && HoldsLease(j, worker, now) && !StopRequested(j)
    requires j.version < MAX_INT64 && ZERO_TIME < j.fixed.createdAt <= now
    ensures Heartbeat(map[0 := j], Uuid(0), worker, now, deadline) ==
            (map[0 := HeartbeatRow(j, now, deadline)], Ok(HeartbeatRow(j, now, deadline)))
    ensures HeartbeatRow(j, now, deadline).leaseExpiresAt == Some(deadline)
  {
    BeatAbortsExactlyWhen(j, worker, now, deadline);
    BeatKeepsRowInv(j, worker, now, deadline);
    AcceptedIffTimesSet(HeartbeatRow(j, now, deadline));
    assert map[0 := j][0 := HeartbeatRow(j, now, deadline)] == map[0 := HeartbeatRow(j, now, deadline)];
  }

  /** A worker claims at 10 with a lease of ten; its clock goes back to 5, and its heartbeat with the
      same lease of ten moves the deadline from 20 to 15. */
  lemma HeartbeatCanShortenTheLease(x: Setting) returns (es: seq<R.Event>)
    requires x.Usable()
    ensures 0 in R.Run(R.EMPTY, es).jobs && R.Run(R.EMPTY, es).jobs[0].leaseExpiresAt == Some(20)
    ensures var (after, result) := Heartbeat(R.Run(R.EMPTY, es).jobs, Uuid(0), "w", 5, 15);
            result.Ok? && 0 in after && after[0].leaseExpiresAt == Some(15)
  {
    es := ClaimedJobIsReachable(x, 1, 10, 20);
    assert 'w' in "w";
    OnlyRowIsBeaten(ClaimRow(JobAt(x, 1), "w", 10, 20), "w", 5, 15);
  }

  /** A job deleted at 100 and again at 50 keeps its version while its retention deadline falls from
      100 to 50. */
  lemma RepeatedDeleteCanChangeSilently(x: Setting) returns (es: seq<R.Event>)
    requires x.Usable()
    ensures 0 in R.Run(R.EMPTY, es).jobs && R.Run(R.EMPTY, es).jobs[0].expiresAt == 100
    ensures var jobs := R.Run(R.EMPTY, es).jobs;
            var (after, error) := Delete(jobs, Uuid(0), x.owner, 50);
            error.None? && 0 in after && after[0].expiresAt == 50 && after[0].version == jobs[0].version
  {
    es := JobIsReachable(x, 1);
    var j, e := JobAt(x, 1), DeleteSent(Uuid(0), x.owner, 100);
    DeletionAbortsExactlyWhen(j, 100);
    DeleteKeepsRowInv(j, 100);
    OneMoreCall(es, j, e, DeleteRow(j, 100));
    es := es + [R.OnJobs(e)];
    DeletionAbortsExactlyWhen(DeleteRow(j, 100), 50);
  }

  lemma OnlyRowIsRead(j: Job, owner: Owner)
    requires RowInv(j) && owner.Valid() && j.fixed.owner == owner && j.deletionRequestedAt.None?
    ensures Get(map[0 := j], Uuid(0), owner) == if TimesSet(j) then Ok(j) else Err(StorageFailure)
  {
    AcceptedIffTimesSet(j);
  }

  lemma RequeuedAtZero(k: Job, now: Time)
    requires RowInv(k) && now < ZERO_TIME && LeaseExpired(k, now) && Retryable(k) && k.version < MAX_INT64
    ensures var r := RecoverRow(k, now, ZERO_TIME);
            RowCheck(r) && RowInv(r) && !TimesSet(r) && r.fixed == k.fixed && r.deletionRequestedAt.None?
  {
    RecoveryAbortsExactlyWhen(k, now, ZERO_TIME);
    RecoverKeepsRowInv(k, now, ZERO_TIME);
  }

  /** A job created, claimed and recovered before the zero instant, with its retry scheduled at that
      instant: its owner could read it before the recovery and cannot read it after. */
  lemma RequeueAtZeroIsRejected(x: Setting) returns (es: seq<R.Event>)
    requires x.Usable()
    ensures Get(R.Run(R.EMPTY, es).jobs, Uuid(0), x.owner).Ok?
    ensures var (after, result) := Recover(R.Run(R.EMPTY, es).jobs, -30, ZERO_TIME, 1, {});
            result.Ok? && Get(after, Uuid(0), x.owner) == Err(StorageFailure)
  {
    es := ClaimedJobIsReachable(x, -100, -50, -40);
    var k := ClaimRow(JobAt(x, -100), "w", -50, -40);
    OnlyRowIsRead(k, x.owner);
    RequeuedAtZero(k, -30);
    OnlyRowIsRecovered(k, -30, ZERO_TIME);
    PassOnOneRow(k, -30, ZERO_TIME);
    OnlyRowIsRead(RecoverRow(k, -30, ZERO_TIME), x.owner);
  }

  lemma PassOnOneRow(j: Job, now: Time, retryAt: Time)
    requires j.fixed.id == 0 && ValidRecovery(now, retryAt, 1) && LeaseExpired(j, now)
    requires RowCheck(RecoverRow(j, now, retryAt))
    ensures Recover(map[0 := j], now, retryAt, 1, {}).1.Ok?
  {
    BatchMembers(map[0 := j], now, 1, {});
  }

  /** A job created one tick before the zero instant and deleted before it gets the zero instant as
      its retention deadline, which no later scan accepts. */
  lemma DeletionAtZeroIsRejected(x: Setting) returns (es: seq<R.Event>)
    requires x.Usable()
    ensures 0 in R.Run(R.EMPTY, es).jobs && ValidStored(R.Run(R.EMPTY, es).jobs[0])
    ensures var (after, error) := Delete(R.Run(R.EMPTY, es).jobs, Uuid(0), x.owner, -5);
            error.None? && 0 in after && !ValidStored(after[0])
  {
    es := JobIsReachable(x, -1);
    AcceptedIffTimesSet(JobAt(x, -1));
    DeletionAbortsExactlyWhen(JobAt(x, -1), -5);
  }
}
