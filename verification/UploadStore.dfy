/** The PostgreSQL upload store: each method is one transaction under the row lock of its
    session, proved to be the table function of the same name. */
module UploadStore {
  import opened Common
  import opened Upload
  import opened RowOrder
  import opened Database
  import T = UploadTables

  /** Which branch of the completeness check decided. */
  datatype Verdict = Accepted | CountersShort | BadPart | TotalOverrun | TotalShort

  /** The check of BeginCommit, with its running total in int64. It accepts exactly the complete
      part lists; once the counters and the sizes pass, neither guard on the total can fire. */
  method ValidateCompleteParts(s: Session, parts: seq<Part>) returns (verdict: Verdict)
    requires Geometry(s)
    ensures verdict == Accepted <==> CompleteParts(s, parts)
    ensures verdict != TotalOverrun && verdict != TotalShort
    ensures verdict == CountersShort <==>
            s.receivedChunks != s.expectedChunks || s.receivedBytes != s.declaredSize ||
            |parts| != s.expectedChunks as int {
    if s.receivedChunks != s.expectedChunks || s.receivedBytes != s.declaredSize || |parts| != s.expectedChunks as int {
      return CountersShort;
    }
    CeilingGeometry(s);
    var total: int64 := 0;
    var index := 0;
    while index < |parts|
      invariant 0 <= index <= |parts|
      invariant total as int == PrefixBytes(s, index) && 0 <= total <= s.declaredSize
      invariant forall k :: 0 <= k < index ==>
        parts[k].uploadId == s.id && parts[k].index as int == k && !Blank(parts[k].backendId) &&
        parts[k].byteSize as int == PartSize(s, k)
    {
      var part := parts[index];
      if part.uploadId != s.id || part.index as int != index || Blank(part.backendId) {
        return BadPart;
      }
      var expected := ExpectedPartSize(s, part.index);
      if expected.None? || part.byteSize != expected.value {
        return BadPart;
      }
      PrefixIsClosedForm(s, index + 1);
      if total > s.declaredSize - part.byteSize {
        return TotalOverrun;
      }
      total := total + part.byteSize;
      index := index + 1;
    }
    PrefixIsClosedForm(s, index);
    if total != s.declaredSize {
      return TotalShort;
    }
    verdict := Accepted;
  }

  class PostgresStore {
    const database: Database

    constructor (database: Database)
      ensures this.database == database
    {
      this.database := database;
    }

    method Create(s: Session) returns (r: Result<Session, UploadError>)
      modifies database`uploads
      ensures (database.Uploads(), r) == T.Create(old(database.Uploads()), s)
    {
      if !ValidNew(s) {
        return Err(Invalid);
      }
      if s.id.id in database.uploads || T.ObjectKeyTaken(database.uploads, s.objectKey) {
        return Err(Conflict);
      }
      database.uploads := database.uploads[s.id.id := s];
      r := Ok(s);
    }

    method RecordPart(w: PartWrite) returns (r: Result<Receipt, UploadError>)
      modifies database`uploads, database`parts
      ensures (database.Uploads(), r) == T.RecordPart(old(database.Uploads()), w)
    {
      if !ValidWrite(w) {
        return Err(Invalid);
      }
      var locked := LockOwnedSession(w.uploadId.id, w.owner);
      if locked.Err? {
        return Err(locked.error);
      }
      var s := locked.value;
      if w.now >= s.expiresAt {
        return Err(SessionExpired);
      }
      if s.status != Uploading {
        return Err(InvalidState);
      }
      if w.now < s.createdAt {
        return Err(Invalid);
      }
      var key := T.PartKey(w.uploadId.id, w.index as nat);
      if key in database.parts {
        var existing := database.parts[key];
        if existing.byteSize != w.byteSize || existing.sha != w.sha {
          return Err(PartConflict);
        }
        return Ok(Receipt(existing, true, s.receivedChunks, s.receivedBytes));
      }
      if w.index != s.receivedChunks || w.index >= s.expectedChunks {
        return Err(PartOutOfOrder);
      }
      var expected := ExpectedPartSize(s, w.index);
      if expected.None? {
        return Err(StorageFailure);
      }
      if w.byteSize != expected.value {
        return Err(WrongPartSize);
      }
      var part := Part(w.uploadId, w.index, w.byteSize, w.sha, w.backendId, w.now);
      // CHECK (received_bytes <= declared_size); a violation rolls the insert back as well.
      if s.receivedBytes as int + w.byteSize as int > s.declaredSize as int {
        return Err(StorageFailure);
      }
      database.parts := database.parts[key := part];
      database.uploads := database.uploads[key.upload := s.(receivedChunks := s.receivedChunks + 1,
                                                           receivedBytes := s.receivedBytes + w.byteSize,
                                                           updatedAt := Later(w.now, s.updatedAt))];
      r := Ok(Receipt(part, false, s.receivedChunks + 1, s.receivedBytes + w.byteSize));
    }

    method LockOwnedSession(id: nat, owner: Owner) returns (r: Result<Session, UploadError>)
      ensures r == T.Lock(database.Uploads(), id, owner)
    {
      if id !in database.uploads || database.uploads[id].owner.Columns() != owner.Columns() {
        return Err(NotFound);
      }
      if !ValidStored(database.uploads[id]) {
        return Err(StorageFailure);
      }
      r := Ok(database.uploads[id]);
    }

    /** The scan of the selected rows, one by one. */
    static method ScanParts(stored: map<T.PartKey, Part>, id: nat, order: seq<nat>) returns (parts: seq<Part>)
      requires T.AllStored(stored, id, order)
      ensures parts == T.PartsAt(stored, id, order)
    {
      parts := [];
      for i := 0 to |order|
        invariant |parts| == i
        invariant forall k :: 0 <= k < i ==> parts[k] == stored[T.PartKey(id, order[k])]
      {
        parts := parts + [stored[T.PartKey(id, order[i])]];
      }
    }

    /** SELECT ... ORDER BY part_index. */
    method ReadAllParts(id: nat) returns (parts: seq<Part>)
      ensures parts == T.PartsOf(database.Uploads(), id)
    {
      var keys := T.IndexKeys(T.Tables(database.uploads, database.parts), id);
      var order := Select(keys, |keys|);
      OrderedMembers(keys);
      T.OrderedPartsAreStored(T.Tables(database.uploads, database.parts), id);
      parts := ScanParts(database.parts, id, order);
    }

    method BeginCommit(id: IdText, owner: Owner, now: Time) returns (r: Result<CommitPlan, UploadError>)
      modifies database`uploads
      ensures (database.Uploads(), r) == T.BeginCommit(old(database.Uploads()), id, owner, now)
    {
      if !id.Uuid? {
        return Err(NotFound);
      }
      if !owner.Valid() || now == ZERO_TIME {
        return Err(Invalid);
      }
      var locked := LockOwnedSession(id.id, owner);
      if locked.Err? {
        return Err(locked.error);
      }
      var s := locked.value;
      if now >= s.expiresAt {
        return Err(SessionExpired);
      }
      if s.status != Uploading && s.status != Committing {
        return Err(InvalidState);
      }
      if now < s.createdAt {
        return Err(Invalid);
      }
      var parts := ReadAllParts(id.id);
      var verdict := ValidateCompleteParts(s, parts);
      if verdict != Accepted {
        return Err(Incomplete);
      }
      if s.status == Uploading {
        s := s.(status := Committing, updatedAt := Later(now, s.updatedAt));
        database.uploads := database.uploads[id.id := s];
      }
      assert database.uploads == old(database.uploads)[id.id := s];
      r := Ok(CommitPlan(s, parts));
    }

    method Complete(id: IdText, owner: Owner, sha: Digest, now: Time) returns (r: Result<Session, UploadError>)
      modifies database`uploads
      ensures (database.Uploads(), r) == T.Complete(old(database.Uploads()), id, owner, sha, now)
    {
      if !id.Uuid? {
        return Err(NotFound);
      }
      if !owner.Valid() || now == ZERO_TIME {
        return Err(Invalid);
      }
      var locked := LockOwnedSession(id.id, owner);
      if locked.Err? {
        return Err(locked.error);
      }
      var s := locked.value;
      if s.status == Committed {
        if s.committedSha.None? || s.committedSha.value != sha {
          return Err(Conflict);
        }
        return Ok(s);
      }
      if now >= s.expiresAt {
        return Err(SessionExpired);
      }
      if s.status != Committing {
        return Err(InvalidState);
      }
      if now < s.createdAt {
        return Err(Invalid);
      }
      var at := Later(now, s.updatedAt);
      s := s.(status := Committed, committedSha := Some(sha), committedAt := Some(at), updatedAt := at);
      database.uploads := database.uploads[id.id := s];
      r := Ok(s);
    }

    method Abort(id: IdText, owner: Owner, now: Time) returns (r: Result<Session, UploadError>)
      modifies database`uploads
      ensures (database.Uploads(), r) == T.Abort(old(database.Uploads()), id, owner, now)
    {
      if !id.Uuid? {
        return Err(NotFound);
      }
      if !owner.Valid() || now == ZERO_TIME {
        return Err(Invalid);
      }
      var locked := LockOwnedSession(id.id, owner);
      if locked.Err? {
        return Err(locked.error);
      }
      var s := locked.value;
      if s.status == Aborted || s.status == Expired {
        return Ok(s);
      }
      if s.status != Uploading && s.status != Committing {
        return Err(InvalidState);
      }
      if now < s.createdAt {
        return Err(Invalid);
      }
      s := s.(status := Aborted, updatedAt := Later(now, s.updatedAt));
      database.uploads := database.uploads[id.id := s];
      r := Ok(s);
    }
  }
}
