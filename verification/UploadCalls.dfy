/** What the callers of the upload store are promised, said in the columns of the rows before and
    after a call and in its answers, without the functions that define the calls. */
module UploadCalls {
  import opened Common
  import opened Upload
  import opened UploadTables

  /** The call names an upload in its owner's name at a set clock. */
  ghost predicate Named(t: Tables, id: IdText, owner: Owner, now: Time) {
    id.Uuid? && id.id in t.uploads && t.uploads[id.id].owner == owner && now != ZERO_TIME
  }

  /** The session may still change at this instant. */
  predicate Timely(s: Session, now: Time) { s.createdAt <= now < s.expiresAt }

  /** A call changes at most this session and no part. */
  ghost predicate OnlySession(t: Tables, r: Tables, u: nat) {
    r.parts == t.parts && r.uploads.Keys == t.uploads.Keys &&
    forall v :: v in t.uploads && v != u ==> r.uploads[v] == t.uploads[v]
  }

  lemma OwnerMatches(t: Tables, id: IdText, owner: Owner, now: Time)
    requires Inv(t) && Named(t, id, owner, now)
    ensures owner.Valid() && Lock(t, id.id, owner) == Ok(t.uploads[id.id]) && SessionInv(t.uploads[id.id])
  {
    assert SessionInv(t.uploads[id.id]);
  }

  // ---------------------------------------------------------------- start

  /** A session by itself: identified, owned, named, cut into the ceiling of its size over its chunk,
      dated, and empty. */
  predicate WellFormedNew(s: Session) {
    s.id.Uuid? && s.owner.Valid() && SanitizedFilename(s.filename) && NormalizedType(s.contentType) &&
    s.declaredSize > 0 && 0 < s.chunkSize <= 0x7fff_ffff && s.expectedChunks > 0 &&
    (s.expectedChunks as int - 1) * s.chunkSize as int < s.declaredSize as int &&
    s.declaredSize as int <= s.expectedChunks as int * s.chunkSize as int &&
    !Blank(s.objectKey) && |s.objectKey| <= 1024 && |s.multipartId| <= 2048 &&
    s.createdAt != 0 && s.updatedAt != 0 && s.expiresAt != 0 && s.createdAt <= s.updatedAt &&
    s.createdAt < s.expiresAt && s.receivedChunks == 0 && s.receivedBytes == 0 && s.status == Uploading &&
    s.committedSha.None? && s.committedAt.None?
  }

  lemma WellFormedNewIsValid(s: Session)
    ensures ValidNew(s) <==> WellFormedNew(s)
  {
    if s.declaredSize > 0 && 0 < s.chunkSize <= 0x7fff_ffff && s.expectedChunks > 0 {
      if Geometry(s) {
        CeilingGeometry(s);
      }
      var d, c, n := s.declaredSize as int, s.chunkSize as int, s.expectedChunks as int;
      if (n - 1) * c < d <= n * c {
        QuotientIsUnique(d, c, n);
      }
    }
  }

  /** A new session is stored exactly as it was handed over, unless its identifier or its object key
      is taken. */
  lemma StartedSession(t: Tables, s: Session)
    ensures var (r, answer) := Create(t, s);
            var taken := s.id.Uuid? &&
                         (s.id.id in t.uploads || exists u :: u in t.uploads && t.uploads[u].objectKey == s.objectKey);
            (answer == Err(Invalid) <==> !WellFormedNew(s)) &&
            (answer == Err(Conflict) <==> WellFormedNew(s) && taken) &&
            (answer.Ok? <==> WellFormedNew(s) && !taken) && (answer.Err? ==> r == t) &&
            (answer.Ok? ==>
               answer == Ok(s) && s.id.Uuid? && r.parts == t.parts && r.uploads == t.uploads[s.id.id := s])
  {
    WellFormedNewIsValid(s);
  }

  // ---------------------------------------------------------------- parts

  /** Sending a part in the owner's name: which answer it gets. */
  lemma PartAnswers(t: Tables, w: PartWrite)
    requires Inv(t) && ValidWrite(w) && Named(t, w.uploadId, w.owner, w.now)
    ensures var answer, s := RecordPart(t, w).1, t.uploads[w.uploadId.id];
            var open := s.status == Uploading && Timely(s, w.now);
            (answer == Err(SessionExpired) <==> w.now >= s.expiresAt) &&
            (answer == Err(InvalidState) <==> w.now < s.expiresAt && s.status != Uploading) &&
            (answer == Err(Invalid) <==> s.status == Uploading && w.now < s.expiresAt && w.now < s.createdAt) &&
            (answer == Err(PartOutOfOrder) <==>
               open && w.index >= s.receivedChunks && (w.index > s.receivedChunks || w.index >= s.expectedChunks)) &&
            (answer == Err(WrongPartSize) <==>
               open && w.index == s.receivedChunks < s.expectedChunks &&
               w.byteSize as int != PartSize(s, w.index as int)) &&
            (answer.Ok? && !answer.value.alreadyPresent <==>
               open && w.index == s.receivedChunks < s.expectedChunks &&
               w.byteSize as int == PartSize(s, w.index as int))
  {
    var s := t.uploads[w.uploadId.id];
    var key := PartKey(w.uploadId.id, w.index as nat);
    OwnerMatches(t, w.uploadId, w.owner, w.now);
    assert key in t.parts <==> w.index < s.receivedChunks;
    if w.index == s.receivedChunks < s.expectedChunks {
      AddPartOutcome(t, s, key, w);
    }
  }

  /** An accepted part is stored as it was sent, and counted once. */
  lemma AddedPart(t: Tables, w: PartWrite)
    requires RecordPart(t, w).1.Ok? && !RecordPart(t, w).1.value.alreadyPresent
    ensures var (r, answer) := RecordPart(t, w);
            var u, key := w.uploadId.id, PartKey(w.uploadId.id, w.index as nat);
            var part := Part(w.uploadId, w.index, w.byteSize, w.sha, w.backendId, w.now);
            u in t.uploads && u in r.uploads && key !in t.parts && r.parts == t.parts[key := part] &&
            r.uploads == t.uploads[u := r.uploads[u]] &&
            var s, k := t.uploads[u], r.uploads[u];
            k == s.(receivedChunks := k.receivedChunks, receivedBytes := k.receivedBytes, updatedAt := k.updatedAt) &&
            k.receivedChunks as int == s.receivedChunks as int + 1 &&
            k.receivedBytes as int == s.receivedBytes as int + w.byteSize as int &&
            IsLater(k.updatedAt, s.updatedAt, w.now) &&
            answer == Ok(Receipt(part, false, k.receivedChunks, k.receivedBytes))
  {
  }

  /** A malformed write is refused, and an upload that is not there or not the caller's is not found;
      a refused or repeated part changes nothing. */
  lemma PartRefusals(t: Tables, w: PartWrite)
    requires Inv(t)
    ensures var (r, answer) := RecordPart(t, w);
            var wellFormed := w.uploadId.Uuid? && w.owner.Valid() && w.index >= 0 && 0 < w.byteSize <= 0x7fff_ffff &&
                              !Blank(w.backendId) && |w.backendId| <= 2048 && w.now != 0;
            (!wellFormed ==> answer == Err(Invalid)) &&
            (answer == Err(NotFound) <==>
               wellFormed && (w.uploadId.id !in t.uploads || t.uploads[w.uploadId.id].owner != w.owner)) &&
            (answer.Err? || answer.value.alreadyPresent ==> r == t)
  {
    if w.uploadId.Uuid? && w.uploadId.id in t.uploads && w.owner.Valid() {
      assert SessionInv(t.uploads[w.uploadId.id]);
      OwnerColumnsIdentify(t.uploads[w.uploadId.id].owner, w.owner);
    }
  }

  // ---------------------------------------------------------------- commit

  lemma CommitRefusals(t: Tables, id: IdText, owner: Owner, now: Time)
    requires Inv(t)
    ensures var absent := !id.Uuid? ||
                          (owner.Valid() && now != 0 && (id.id !in t.uploads || t.uploads[id.id].owner != owner));
            (BeginCommit(t, id, owner, now).1 == Err(NotFound) <==> absent) &&
            (forall sha :: Complete(t, id, owner, sha, now).1 == Err(NotFound) <==> absent) &&
            (Abort(t, id, owner, now).1 == Err(NotFound) <==> absent)
  {
    if id.Uuid? && id.id in t.uploads && owner.Valid() {
      assert SessionInv(t.uploads[id.id]);
      OwnerColumnsIdentify(t.uploads[id.id].owner, owner);
    }
  }

  /** Beginning a commit in the owner's name: which answer it gets. */
  lemma BeginCommitAnswers(t: Tables, id: IdText, owner: Owner, now: Time)
    requires Inv(t) && Named(t, id, owner, now)
    ensures var (r, answer) := BeginCommit(t, id, owner, now);
            var s := t.uploads[id.id];
            var open := s.status == Uploading || s.status == Committing;
            (answer == Err(SessionExpired) <==> now >= s.expiresAt) &&
            (answer == Err(InvalidState) <==> now < s.expiresAt && !open) &&
            (answer.Ok? <==> open && Timely(s, now) && s.receivedChunks == s.expectedChunks) &&
            (answer.Err? ==> r == t)
  {
    OwnerMatches(t, id, owner, now);
    CompleteIffAllReceived(t, id.id);
  }

  lemma FrozenColumns(s: Session, now: Time)
    requires s.status == Uploading || s.status == Committing
    ensures var k := Frozen(s, now);
            k == s.(status := Committing, updatedAt := k.updatedAt) &&
            if s.status == Uploading then IsLater(k.updatedAt, s.updatedAt, now) else k.updatedAt == s.updatedAt
  {
  }

  /** A begun commit freezes the session: its status, and its instant the first time. */
  lemma BegunCommit(t: Tables, id: IdText, owner: Owner, now: Time)
    requires BeginCommit(t, id, owner, now).1.Ok?
    ensures var (r, answer) := BeginCommit(t, id, owner, now);
            id.Uuid? && id.id in t.uploads && OnlySession(t, r, id.id) &&
            var s, k := t.uploads[id.id], r.uploads[id.id];
            answer.value.session == k && k == s.(status := Committing, updatedAt := k.updatedAt) &&
            if s.status == Uploading then IsLater(k.updatedAt, s.updatedAt, now) else k.updatedAt == s.updatedAt
  {
    BeginCommitFreezes(t, id, owner, now);
    FrozenColumns(t.uploads[id.id], now);
  }

  lemma PlanHoldsParts(t: Tables, id: IdText, owner: Owner, now: Time)
    requires BeginCommit(t, id, owner, now).1.Ok?
    ensures id.Uuid? && id.id in t.uploads && BeginCommit(t, id, owner, now).1.value.parts == PartsOf(t, id.id)
    ensures t.uploads[id.id].receivedChunks == t.uploads[id.id].expectedChunks
  {
  }

  /** ... and hands out every part at its position. */
  lemma PlannedParts(t: Tables, id: IdText, owner: Owner, now: Time)
    requires Inv(t) && BeginCommit(t, id, owner, now).1.Ok?
    ensures id.Uuid? && id.id in t.uploads
    ensures var parts := BeginCommit(t, id, owner, now).1.value.parts;
            |parts| == t.uploads[id.id].expectedChunks as int &&
            forall i :: 0 <= i < |parts| ==> PartKey(id.id, i) in t.parts && parts[i] == t.parts[PartKey(id.id, i)]
  {
    PlanHoldsParts(t, id, owner, now);
    PartsAreTheReceivedPrefix(t, id.id);
  }

  /** Completing in the owner's name: a committed session answers by its digest, whatever the clock;
      any other needs to be frozen and unexpired. */
  lemma CompleteAnswers(t: Tables, id: IdText, owner: Owner, sha: Digest, now: Time)
    requires Inv(t) && Named(t, id, owner, now)
    ensures var (r, answer) := Complete(t, id, owner, sha, now);
            var s := t.uploads[id.id];
            if s.status == Committed then
              r == t && (if s.committedSha == Some(sha) then answer == Ok(s) else answer == Err(Conflict))
            else
              (answer == Err(SessionExpired) <==> now >= s.expiresAt) &&
              (answer == Err(InvalidState) <==> now < s.expiresAt && s.status != Committing) &&
              (answer.Ok? <==> s.status == Committing && Timely(s, now)) && (answer.Err? ==> r == t)
  {
    OwnerMatches(t, id, owner, now);
  }

  /** A first completion records the digest and dates the commit. */
  lemma CompletedSession(t: Tables, id: IdText, owner: Owner, sha: Digest, now: Time)
    requires Inv(t) && Named(t, id, owner, now) && t.uploads[id.id].status != Committed
    requires Complete(t, id, owner, sha, now).1.Ok?
    ensures var (r, answer) := Complete(t, id, owner, sha, now);
            OnlySession(t, r, id.id) && answer == Ok(r.uploads[id.id]) &&
            var s, k := t.uploads[id.id], r.uploads[id.id];
            k == s.(status := Committed, committedSha := Some(sha), committedAt := Some(k.updatedAt),
                    updatedAt := k.updatedAt) &&
            IsLater(k.updatedAt, s.updatedAt, now)
  {
    OwnerMatches(t, id, owner, now);
  }

  /** The digest of an upload is decided once: after an accepted completion and any further run of
      calls, completing again succeeds exactly with the same digest, answers the same session, and
      changes nothing. */
  lemma DigestIsDecidedOnce(t: Tables, id: IdText, owner: Owner, sha: Digest, now: Time, es: seq<UploadEvent>,
                            other: Digest, later: Time)
    requires Inv(t) && Named(t, id, owner, now) && Complete(t, id, owner, sha, now).1.Ok? && later != ZERO_TIME
    ensures var (r, first) := Complete(t, id, owner, sha, now);
            var d := Run(r, es);
            Complete(d, id, owner, other, later) == (d, if other == sha then first else Err(Conflict))
  {
    CompleteAnswers(t, id, owner, sha, now);
    if t.uploads[id.id].status != Committed {
      CompletedSession(t, id, owner, sha, now);
    }
    var r := Complete(t, id, owner, sha, now).0;
    CompleteKeepsInv(t, id, owner, sha, now);
    RunPreserves(r, es);
    assert SameUpload(r.uploads[id.id], Run(r, es).uploads[id.id]);
    CompleteAnswers(Run(r, es), id, owner, other, later);
  }

  // ---------------------------------------------------------------- abort

  /** Aborting in the owner's name closes an open session, answers a closed one again, and refuses a
      committed one. */
  lemma AbortAnswers(t: Tables, id: IdText, owner: Owner, now: Time)
    requires Inv(t) && Named(t, id, owner, now)
    ensures var (r, answer) := Abort(t, id, owner, now);
            var s := t.uploads[id.id];
            (answer == Err(InvalidState) <==> s.status == Committed) &&
            (answer.Ok? <==> s.status == Aborted || (s.status != Committed && now >= s.createdAt)) &&
            (answer.Err? ==> r == t) &&
            (answer.Ok? ==>
               OnlySession(t, r, id.id) && answer == Ok(r.uploads[id.id]) &&
               var k := r.uploads[id.id];
               k == s.(status := Aborted, updatedAt := k.updatedAt) &&
               if s.status == Aborted then k == s else IsLater(k.updatedAt, s.updatedAt, now))
  {
    OwnerMatches(t, id, owner, now);
    if t.uploads[id.id].status == Aborted {
      assert t.uploads[id.id := t.uploads[id.id]] == t.uploads;
    }
  }
}
