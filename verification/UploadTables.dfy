/** The upload store as functions on its two tables, and what every call keeps. */
module UploadTables {
  import opened Common
  import opened RowOrder
  import opened Upload

  datatype PartKey = PartKey(upload: nat, index: nat)

  datatype Tables = Tables(uploads: map<nat, Session>, parts: map<PartKey, Part>)

  // ---------------------------------------------------------------- the calls

  predicate ObjectKeyTaken(uploads: map<nat, Session>, key: string) {
    exists u :: u in uploads && uploads[u].objectKey == key
  }

  function Create(t: Tables, s: Session): (Tables, Result<Session, UploadError>) {
    if !ValidNew(s) then (t, Err(Invalid))
    else if s.id.id in t.uploads || ObjectKeyTaken(t.uploads, s.objectKey) then (t, Err(Conflict))
    else (t.(uploads := t.uploads[s.id.id := s]), Ok(s))
  }

  /** The locked row, when the owner columns match and the scan accepts it. */
  function Lock(t: Tables, id: nat, owner: Owner): Result<Session, UploadError> {
    if id !in t.uploads || t.uploads[id].owner.Columns() != owner.Columns() then Err(NotFound)
    else if !ValidStored(t.uploads[id]) then Err(StorageFailure)
    else Ok(t.uploads[id])
  }

  function RecordPart(t: Tables, w: PartWrite): (Tables, Result<Receipt, UploadError>) {
    if !ValidWrite(w) then (t, Err(Invalid))
    else
      var locked := Lock(t, w.uploadId.id, w.owner);
      if locked.Err? then (t, Err(locked.error))
      else
        var s := locked.value;
        if w.now >= s.expiresAt then (t, Err(SessionExpired))
        else if s.status != Uploading then (t, Err(InvalidState))
        else if w.now < s.createdAt then (t, Err(Invalid))
        else
          var key := PartKey(w.uploadId.id, w.index as nat);
          if key in t.parts then (t, Retry(s, t.parts[key], w))
          else if w.index != s.receivedChunks || w.index >= s.expectedChunks then (t, Err(PartOutOfOrder))
          else AddPart(t, s, key, w)
  }

  function Retry(s: Session, existing: Part, w: PartWrite): Result<Receipt, UploadError> {
    if existing.byteSize != w.byteSize || existing.sha != w.sha then Err(PartConflict)
    else Ok(Receipt(existing, true, s.receivedChunks, s.receivedBytes))
  }

  function AddPart(t: Tables, s: Session, key: PartKey, w: PartWrite): (Tables, Result<Receipt, UploadError>)
    requires s.chunkSize <= 0x7fff_ffff && 0 <= s.receivedChunks < s.expectedChunks
    requires s.receivedBytes >= 0 && w.byteSize > 0
  {
    var size := ExpectedPartSize(s, w.index);
    if size.None? then (t, Err(StorageFailure))
    else if w.byteSize != size.value then (t, Err(WrongPartSize))
    else if s.receivedBytes as int + w.byteSize as int > s.declaredSize as int then (t, Err(StorageFailure))
    else
      var part := Part(w.uploadId, w.index, w.byteSize, w.sha, w.backendId, w.now);
      var grown := s.(receivedChunks := s.receivedChunks + 1, receivedBytes := s.receivedBytes + w.byteSize,
                      updatedAt := Later(w.now, s.updatedAt));
      (Tables(t.uploads[key.upload := grown], t.parts[key := part]),
       Ok(Receipt(part, false, grown.receivedChunks, grown.receivedBytes)))
  }

  function Indices(t: Tables, id: nat): set<nat> {
    set k | k in t.parts && k.upload == id :: k.index
  }

  function IndexKeys(t: Tables, id: nat): (keys: map<nat, Key>)
    ensures Keyed(keys)
  {
    map i | i in Indices(t, id) :: Key(i, 0, i)
  }

  /** Every index that the order lists belongs to a stored part. */
  lemma OrderedPartsAreStored(t: Tables, id: nat)
    ensures AllStored(t.parts, id, Ordered(IndexKeys(t, id)))
  {
    OrderedIsSorted(IndexKeys(t, id));
    forall i | 0 <= i < |Ordered(IndexKeys(t, id))|
      ensures PartKey(id, Ordered(IndexKeys(t, id))[i]) in t.parts
    {
      assert Ordered(IndexKeys(t, id))[i] in Indices(t, id);
    }
  }

  predicate AllStored(parts: map<PartKey, Part>, id: nat, order: seq<nat>) {
    forall i :: 0 <= i < |order| ==> PartKey(id, order[i]) in parts
  }

  function PartsAt(parts: map<PartKey, Part>, id: nat, order: seq<nat>): seq<Part>
    requires AllStored(parts, id, order)
  {
    seq(|order|, i requires 0 <= i < |order| => parts[PartKey(id, order[i])])
  }

  /** The stored parts of one upload, ordered by index. */
  ghost function PartsOf(t: Tables, id: nat): seq<Part> {
    OrderedPartsAreStored(t, id);
    PartsAt(t.parts, id, Ordered(IndexKeys(t, id)))
  }

  ghost function BeginCommit(t: Tables, id: IdText, owner: Owner, now: Time)
      : (Tables, Result<CommitPlan, UploadError>) {
    if !id.Uuid? then (t, Err(NotFound))
    else if !owner.Valid() || now == ZERO_TIME then (t, Err(Invalid))
    else
      var locked := Lock(t, id.id, owner);
      if locked.Err? then (t, Err(locked.error))
      else
        var s := locked.value;
        if now >= s.expiresAt then (t, Err(SessionExpired))
        else if s.status != Uploading && s.status != Committing then (t, Err(InvalidState))
        else if now < s.createdAt then (t, Err(Invalid))
        else if !CompleteParts(s, PartsOf(t, id.id)) then (t, Err(Incomplete))
        else
          (t.(uploads := t.uploads[id.id := Frozen(s, now)]), Ok(CommitPlan(Frozen(s, now), PartsOf(t, id.id))))
  }

  /** The part set of an uploading session is frozen; a frozen one stays as it is. */
  function Frozen(s: Session, now: Time): Session {
    if s.status == Uploading then s.(status := Committing, updatedAt := Later(now, s.updatedAt)) else s
  }

  function Complete(t: Tables, id: IdText, owner: Owner, sha: Digest, now: Time)
      : (Tables, Result<Session, UploadError>) {
    if !id.Uuid? then (t, Err(NotFound))
    else if !owner.Valid() || now == ZERO_TIME then (t, Err(Invalid))
    else
      var locked := Lock(t, id.id, owner);
      if locked.Err? then (t, Err(locked.error))
      else
        var s := locked.value;
        if s.status == Committed then (t, if s.committedSha == Some(sha) then Ok(s) else Err(Conflict))
        else if now >= s.expiresAt then (t, Err(SessionExpired))
        else if s.status != Committing then (t, Err(InvalidState))
        else if now < s.createdAt then (t, Err(Invalid))
        else
          var at := Later(now, s.updatedAt);
          var done := s.(status := Committed, committedSha := Some(sha), committedAt := Some(at), updatedAt := at);
          (t.(uploads := t.uploads[id.id := done]), Ok(done))
  }

  function Abort(t: Tables, id: IdText, owner: Owner, now: Time): (Tables, Result<Session, UploadError>) {
    if !id.Uuid? then (t, Err(NotFound))
    else if !owner.Valid() || now == ZERO_TIME then (t, Err(Invalid))
    else
      var locked := Lock(t, id.id, owner);
      if locked.Err? then (t, Err(locked.error))
      else
        var s := locked.value;
        match s.status
        case Aborted => (t, Ok(s))
        case Expired => (t, Ok(s))
        case Committed => (t, Err(InvalidState))
        case Unknown => (t, Err(InvalidState))
        case _ =>
          if now < s.createdAt then (t, Err(Invalid))
          else
            var closed := s.(status := Aborted, updatedAt := Later(now, s.updatedAt));
            (t.(uploads := t.uploads[id.id := closed]), Ok(closed))
  }

  datatype UploadEvent =
    | Started(session: Session)
    | PartSent(write: PartWrite)
    | CommitBegun(id: IdText, owner: Owner, now: Time)
    | CommitDone(id: IdText, owner: Owner, sha: Digest, now: Time)
    | AbortAsked(id: IdText, owner: Owner, now: Time)

  ghost function Step(t: Tables, e: UploadEvent): Tables {
    match e
    case Started(s) => Create(t, s).0
    case PartSent(w) => RecordPart(t, w).0
    case CommitBegun(id, owner, now) => BeginCommit(t, id, owner, now).0
    case CommitDone(id, owner, sha, now) => Complete(t, id, owner, sha, now).0
    case AbortAsked(id, owner, now) => Abort(t, id, owner, now).0
  }

  // ---------------------------------------------------------------- the invariant

  /** The counters of a session describe exactly the first parts of its geometry. */
  ghost predicate SessionInv(s: Session) {
    ValidStored(s) && s.status != Expired &&
    s.receivedBytes as int == PrefixBytes(s, s.receivedChunks as int) &&
    (s.status == Committing || s.status == Committed ==> s.receivedChunks == s.expectedChunks)
  }

  ghost predicate PartInv(p: Part, k: PartKey, s: Session) {
    p.uploadId == Uuid(k.upload) && p.index as int == k.index && !Blank(p.backendId) &&
    p.byteSize as int == PartSize(s, k.index)
  }

  ghost predicate SessionsInv(uploads: map<nat, Session>) {
    forall u :: u in uploads ==> uploads[u].id == Uuid(u) && SessionInv(uploads[u])
  }

  ghost predicate KeysDistinct(uploads: map<nat, Session>) {
    forall u, v :: u in uploads && v in uploads && u != v ==> uploads[u].objectKey != uploads[v].objectKey
  }

  /** The stored indices of an upload are exactly 0 .. received - 1. */
  ghost predicate IndicesInv(t: Tables) {
    forall k: PartKey :: k in t.parts <==>
      k.upload in t.uploads && k.index < t.uploads[k.upload].receivedChunks as int
  }

  ghost predicate SizesInv(t: Tables) {
    forall k :: k in t.parts ==> k.upload in t.uploads && PartInv(t.parts[k], k, t.uploads[k.upload])
  }

  ghost predicate Inv(t: Tables) {
    SessionsInv(t.uploads) && KeysDistinct(t.uploads) && IndicesInv(t) && SizesInv(t)
  }

  lemma UpdateSessions(uploads: map<nat, Session>, u: nat, s: Session)
    requires SessionsInv(uploads) && SessionInv(s) && s.id == Uuid(u)
    ensures SessionsInv(uploads[u := s])
  {
  }

  lemma UpdateKeys(uploads: map<nat, Session>, u: nat, s: Session)
    requires KeysDistinct(uploads) && u in uploads && s.objectKey == uploads[u].objectKey
    ensures KeysDistinct(uploads[u := s])
  {
  }

  lemma UpdateSizes(t: Tables, u: nat, s: Session)
    requires SizesInv(t) && u in t.uploads && SameShape(s, t.uploads[u])
    ensures SizesInv(t.(uploads := t.uploads[u := s]))
  {
    var r := t.(uploads := t.uploads[u := s]);
    forall k | k in r.parts
      ensures k.upload in r.uploads && PartInv(r.parts[k], k, r.uploads[k.upload])
    {
      assert PartInv(t.parts[k], k, t.uploads[k.upload]);
    }
  }

  /** Replacing a session by one with the same geometry and counters keeps everything. */
  lemma ReplaceKeepsInv(t: Tables, u: nat, s: Session)
    requires Inv(t) && u in t.uploads && SessionInv(s)
    requires s.id == t.uploads[u].id && s.objectKey == t.uploads[u].objectKey
    requires s.receivedChunks == t.uploads[u].receivedChunks && SameShape(s, t.uploads[u])
    ensures Inv(t.(uploads := t.uploads[u := s]))
  {
    UpdateSessions(t.uploads, u, s);
    UpdateKeys(t.uploads, u, s);
    UpdateSizes(t, u, s);
  }

  predicate SameShape(s: Session, r: Session) {
    s.declaredSize == r.declaredSize && s.chunkSize == r.chunkSize && s.expectedChunks == r.expectedChunks
  }

  lemma SameGeometry(s: Session, r: Session, n: nat)
    requires SameShape(s, r)
    ensures PrefixBytes(s, n) == PrefixBytes(r, n)
    decreases n
  {
    if n > 0 {
      SameGeometry(s, r, n - 1);
    }
  }

  /** The next part is accepted iff it has its positional size; no constraint can fire. */
  lemma AddPartOutcome(t: Tables, s: Session, key: PartKey, w: PartWrite)
    requires SessionInv(s) && ValidWrite(w) && w.index == s.receivedChunks < s.expectedChunks
    ensures var (r, result) := AddPart(t, s, key, w);
            if w.byteSize as int == PartSize(s, w.index as int) then
              result.Ok? && key.upload in r.uploads && key in r.parts && SessionInv(r.uploads[key.upload])
            else
              r == t && result == Err(WrongPartSize)
  {
    var n := s.receivedChunks as int;
    var (r, result) := AddPart(t, s, key, w);
    PrefixIsClosedForm(s, n);
    PrefixIsClosedForm(s, n + 1);
    assert PrefixBytes(s, n + 1) == PrefixBytes(s, n) + PartSize(s, n);
    if result.Ok? {
      SameGeometry(s, r.uploads[key.upload], n + 1);
    }
  }

  lemma InsertSizes(t: Tables, key: PartKey, p: Part)
    requires SizesInv(t) && key.upload in t.uploads && PartInv(p, key, t.uploads[key.upload])
    ensures SizesInv(t.(parts := t.parts[key := p]))
  {
  }

  lemma InsertIndex(t: Tables, key: PartKey, p: Part, s: Session)
    requires IndicesInv(t) && key.upload in t.uploads
    requires key.index == t.uploads[key.upload].receivedChunks as int == s.receivedChunks as int - 1
    ensures IndicesInv(Tables(t.uploads[key.upload := s], t.parts[key := p]))
  {
  }

  lemma AddPartKeepsInv(t: Tables, w: PartWrite)
    requires Inv(t) && ValidWrite(w) && w.uploadId.id in t.uploads
    requires w.index == t.uploads[w.uploadId.id].receivedChunks < t.uploads[w.uploadId.id].expectedChunks
    ensures Inv(AddPart(t, t.uploads[w.uploadId.id], PartKey(w.uploadId.id, w.index as nat), w).0)
  {
    var u := w.uploadId.id;
    var s := t.uploads[u];
    var key := PartKey(u, w.index as nat);
    var (r, result) := AddPart(t, s, key, w);
    AddPartOutcome(t, s, key, w);
    if result.Ok? {
      var grown, p := r.uploads[u], r.parts[key];
      UpdateSessions(t.uploads, u, grown);
      UpdateKeys(t.uploads, u, grown);
      InsertIndex(t, key, p, grown);
      InsertSizes(t, key, p);
      UpdateSizes(t.(parts := t.parts[key := p]), u, grown);
      assert r == Tables(t.uploads[u := grown], t.parts[key := p]);
    }
  }

  lemma InsertKeys(uploads: map<nat, Session>, u: nat, s: Session)
    requires KeysDistinct(uploads) && u !in uploads && !ObjectKeyTaken(uploads, s.objectKey)
    ensures KeysDistinct(uploads[u := s])
  {
  }

  lemma InsertEmptySession(t: Tables, u: nat, s: Session)
    requires IndicesInv(t) && SizesInv(t) && u !in t.uploads && s.receivedChunks == 0
    ensures IndicesInv(t.(uploads := t.uploads[u := s])) && SizesInv(t.(uploads := t.uploads[u := s]))
  {
    forall k | k in t.parts
      ensures k.upload != u && PartInv(t.parts[k], k, t.uploads[k.upload])
    {
    }
  }

  lemma CreateKeepsInv(t: Tables, s: Session)
    requires Inv(t)
    ensures Inv(Create(t, s).0)
  {
    if Create(t, s).1.Ok? {
      assert PrefixBytes(s, 0) == 0;
      UpdateSessions(t.uploads, s.id.id, s);
      InsertKeys(t.uploads, s.id.id, s);
      InsertEmptySession(t, s.id.id, s);
    }
  }

  lemma RecordPartKeepsInv(t: Tables, w: PartWrite)
    requires Inv(t)
    ensures Inv(RecordPart(t, w).0)
  {
    if RecordPart(t, w).0 != t {
      AddPartKeepsInv(t, w);
    }
  }

  lemma StatusChangeKeepsInv(t: Tables, u: nat, s: Session)
    requires Inv(t) && u in t.uploads && s.updatedAt >= t.uploads[u].updatedAt
    requires s == t.uploads[u].(status := s.status, committedSha := s.committedSha,
                                committedAt := s.committedAt, updatedAt := s.updatedAt)
    requires s.status == Aborted || s.receivedChunks == s.expectedChunks
    requires s.status == Aborted || s.status == Committing || s.status == Committed
    requires if s.status == Committed then s.committedSha.Some? && s.committedAt.Some?
             else s.committedSha.None? && s.committedAt.None?
    requires s.updatedAt != ZERO_TIME
    ensures Inv(t.(uploads := t.uploads[u := s]))
  {
    SameGeometry(t.uploads[u], s, s.receivedChunks as int);
    ReplaceKeepsInv(t, u, s);
  }

  lemma FreezingKeepsInv(t: Tables, u: nat, now: Time)
    requires Inv(t) && u in t.uploads && now >= t.uploads[u].createdAt && now != ZERO_TIME
    requires t.uploads[u].status == Uploading || t.uploads[u].status == Committing
    requires t.uploads[u].receivedChunks == t.uploads[u].expectedChunks
    ensures Inv(t.(uploads := t.uploads[u := Frozen(t.uploads[u], now)]))
  {
    if t.uploads[u].status == Uploading {
      StatusChangeKeepsInv(t, u, Frozen(t.uploads[u], now));
    } else {
      assert t.uploads[u := t.uploads[u]] == t.uploads;
    }
  }

  lemma BeginCommitFreezes(t: Tables, id: IdText, owner: Owner, now: Time)
    requires BeginCommit(t, id, owner, now).1.Ok?
    ensures id.Uuid? && id.id in t.uploads && now != ZERO_TIME && now >= t.uploads[id.id].createdAt
    ensures t.uploads[id.id].status == Uploading || t.uploads[id.id].status == Committing
    ensures CompleteParts(t.uploads[id.id], PartsOf(t, id.id))
    ensures BeginCommit(t, id, owner, now).0 == t.(uploads := t.uploads[id.id := Frozen(t.uploads[id.id], now)])
  {
  }

  lemma BeginCommitKeepsInv(t: Tables, id: IdText, owner: Owner, now: Time)
    requires Inv(t)
    ensures Inv(BeginCommit(t, id, owner, now).0)
  {
    if BeginCommit(t, id, owner, now).1.Ok? {
      BeginCommitFreezes(t, id, owner, now);
      FreezingKeepsInv(t, id.id, now);
    }
  }

  lemma CompleteKeepsInv(t: Tables, id: IdText, owner: Owner, sha: Digest, now: Time)
    requires Inv(t)
    ensures Inv(Complete(t, id, owner, sha, now).0)
  {
    var r := Complete(t, id, owner, sha, now).0;
    if r != t {
      StatusChangeKeepsInv(t, id.id, r.uploads[id.id]);
    }
  }

  lemma AbortKeepsInv(t: Tables, id: IdText, owner: Owner, now: Time)
    requires Inv(t)
    ensures Inv(Abort(t, id, owner, now).0)
  {
    var r := Abort(t, id, owner, now).0;
    if r != t {
      StatusChangeKeepsInv(t, id.id, r.uploads[id.id]);
    }
  }

  /** Every call keeps the agreement between counters, parts and geometry. */
  lemma StepKeepsInv(t: Tables, e: UploadEvent)
    requires Inv(t)
    ensures Inv(Step(t, e))
  {
    match e
    case Started(s) => CreateKeepsInv(t, s);
    case PartSent(w) => RecordPartKeepsInv(t, w);
    case CommitBegun(id, owner, now) => BeginCommitKeepsInv(t, id, owner, now);
    case CommitDone(id, owner, sha, now) => CompleteKeepsInv(t, id, owner, sha, now);
    case AbortAsked(id, owner, now) => AbortKeepsInv(t, id, owner, now);
  }

  // ---------------------------------------------------------------- consequences

  lemma {:induction false} OrderedContiguous(keys: map<nat, Key>, from: nat, n: nat)
    requires Keyed(keys) && from <= n
    requires forall i :: i in keys <==> from <= i < n
    requires forall i :: i in keys ==> keys[i] == Key(i, 0, i)
    ensures Ordered(keys) == seq(n - from, i => from + i)
    decreases n - from
  {
    if from < n {
      assert IsLeast(keys, from);
      LeastIsHead(keys, from);
      OrderedContiguous(keys - {from}, from + 1, n);
    } else {
      assert keys == map[];
    }
  }

  lemma ReceivedIndices(t: Tables, u: nat)
    requires IndicesInv(t) && u in t.uploads
    ensures forall i: nat :: i in Indices(t, u) <==> i < t.uploads[u].receivedChunks as int
  {
    forall i: nat | i < t.uploads[u].receivedChunks as int
      ensures i in Indices(t, u)
    {
      assert PartKey(u, i) in t.parts;
    }
  }

  /** What a reader of the part table finds: part i at position i, for every received index. */
  lemma PartsAreTheReceivedPrefix(t: Tables, u: nat)
    requires Inv(t) && u in t.uploads
    ensures |PartsOf(t, u)| == t.uploads[u].receivedChunks as int
    ensures forall i :: 0 <= i < |PartsOf(t, u)| ==>
              PartKey(u, i) in t.parts && PartsOf(t, u)[i] == t.parts[PartKey(u, i)]
  {
    assert SessionInv(t.uploads[u]);
    ReceivedIndices(t, u);
    OrderedContiguous(IndexKeys(t, u), 0, t.uploads[u].receivedChunks as int);
  }

  lemma PartsFollowGeometry(t: Tables, u: nat)
    requires Inv(t) && u in t.uploads
    ensures |PartsOf(t, u)| == t.uploads[u].receivedChunks as int
    ensures forall k :: 0 <= k < |PartsOf(t, u)| ==>
              PartInv(PartsOf(t, u)[k], PartKey(u, k), t.uploads[u])
  {
    PartsAreTheReceivedPrefix(t, u);
  }

  /** Checking every part is checking the counter: the parts of a stored upload are complete
      exactly when no chunk is missing. */
  lemma CompleteIffAllReceived(t: Tables, u: nat)
    requires Inv(t) && u in t.uploads
    ensures CompleteParts(t.uploads[u], PartsOf(t, u)) <==>
            t.uploads[u].receivedChunks == t.uploads[u].expectedChunks
  {
    PartsFollowGeometry(t, u);
    FullSessionIsComplete(t.uploads[u], u, PartsOf(t, u));
  }

  lemma FullSessionIsComplete(s: Session, u: nat, parts: seq<Part>)
    requires SessionInv(s) && s.id == Uuid(u) && |parts| == s.receivedChunks as int
    requires forall k :: 0 <= k < |parts| ==> PartInv(parts[k], PartKey(u, k), s)
    ensures CompleteParts(s, parts) <==> s.receivedChunks == s.expectedChunks
  {
    PrefixIsClosedForm(s, s.receivedChunks as int);
  }

  /** BeginCommit turns an uploading session away as incomplete iff a chunk is missing, and a
      frozen session never. */
  lemma BeginCommitIncompleteIff(t: Tables, id: IdText, owner: Owner, now: Time)
    requires Inv(t) && id.Uuid? && id.id in t.uploads
    requires owner == t.uploads[id.id].owner && now != ZERO_TIME
    requires t.uploads[id.id].createdAt <= now < t.uploads[id.id].expiresAt
    ensures BeginCommit(t, id, owner, now).1 == Err(Incomplete) <==>
            t.uploads[id.id].status == Uploading &&
            t.uploads[id.id].receivedChunks < t.uploads[id.id].expectedChunks
  {
    CompleteIffAllReceived(t, id.id);
  }

  lemma RecordPartNeverFailsInside(t: Tables, w: PartWrite)
    requires Inv(t)
    ensures RecordPart(t, w).1 != Err(StorageFailure)
  {
    if ValidWrite(w) && w.uploadId.id in t.uploads {
      var s := t.uploads[w.uploadId.id];
      if w.index == s.receivedChunks < s.expectedChunks {
        AddPartOutcome(t, s, PartKey(w.uploadId.id, w.index as nat), w);
      }
    }
  }

  /** No call on a reachable store fails inside: scans, geometry and constraints always hold. */
  lemma NeverFailsInside(t: Tables, e: UploadEvent)
    requires Inv(t)
    ensures match e
            case Started(s) => Create(t, s).1 != Err(StorageFailure)
            case PartSent(w) => RecordPart(t, w).1 != Err(StorageFailure)
            case CommitBegun(id, owner, now) => BeginCommit(t, id, owner, now).1 != Err(StorageFailure)
            case CommitDone(id, owner, sha, now) => Complete(t, id, owner, sha, now).1 != Err(StorageFailure)
            case AbortAsked(id, owner, now) => Abort(t, id, owner, now).1 != Err(StorageFailure)
  {
    match e
    case PartSent(w) => RecordPartNeverFailsInside(t, w);
    case _ =>
  }

  /** What an accepted part leaves behind: its descriptor and the counters of its receipt. */
  lemma AcceptedPart(t: Tables, w: PartWrite)
    requires RecordPart(t, w).1.Ok?
    ensures var (r, first) := RecordPart(t, w);
            var u, key := w.uploadId.id, PartKey(w.uploadId.id, w.index as nat);
            u in t.uploads && u in r.uploads && key in r.parts && r.parts[key] == first.value.part &&
            first.value.part.byteSize == w.byteSize && first.value.part.sha == w.sha &&
            r.uploads[u].receivedChunks == first.value.chunks && r.uploads[u].receivedBytes == first.value.bytes &&
            r.uploads[u].status == Uploading && OnlyAdvanced(t.uploads[u], r.uploads[u])
  {
  }

  /** What never changes about an upload: its identity and geometry always, the whole row once
      it is committed, and an accepted part from the moment it is stored. */
  ghost predicate Preserved(t: Tables, r: Tables) {
    (forall u :: u in t.uploads ==> u in r.uploads && SameUpload(t.uploads[u], r.uploads[u])) &&
    (forall k :: k in t.parts ==> k in r.parts && r.parts[k] == t.parts[k])
  }

  predicate SameUpload(s: Session, r: Session) {
    (s.status == Committed || s.status == Aborted ==> r == s) &&
    s.receivedChunks <= r.receivedChunks && OnlyAdvanced(s, r)
  }

  /** Nothing but progress and status differs. */
  predicate OnlyAdvanced(s: Session, r: Session) {
    r == s.(receivedChunks := r.receivedChunks, receivedBytes := r.receivedBytes, status := r.status,
            committedSha := r.committedSha, committedAt := r.committedAt, updatedAt := r.updatedAt)
  }

  lemma AddPartPreserves(t: Tables, s: Session, key: PartKey, w: PartWrite)
    requires s.chunkSize <= 0x7fff_ffff && 0 <= s.receivedChunks < s.expectedChunks
    requires s.receivedBytes >= 0 && w.byteSize > 0
    requires key.upload in t.uploads && s == t.uploads[key.upload] && s.status == Uploading && key !in t.parts
    ensures Preserved(t, AddPart(t, s, key, w).0)
  {
  }

  lemma RecordPartPreserves(t: Tables, w: PartWrite)
    ensures Preserved(t, RecordPart(t, w).0)
  {
    if RecordPart(t, w).0 != t {
      AddPartPreserves(t, t.uploads[w.uploadId.id], PartKey(w.uploadId.id, w.index as nat), w);
    }
  }

  lemma CreatePreserves(t: Tables, s: Session)
    ensures Preserved(t, Create(t, s).0)
  {
  }

  lemma BeginCommitPreserves(t: Tables, id: IdText, owner: Owner, now: Time)
    ensures Preserved(t, BeginCommit(t, id, owner, now).0)
  {
  }

  lemma StepPreserves(t: Tables, e: UploadEvent)
    requires Inv(t)
    ensures Preserved(t, Step(t, e))
  {
    match e
    case Started(s) => CreatePreserves(t, s);
    case PartSent(w) => RecordPartPreserves(t, w);
    case CommitBegun(id, owner, now) => BeginCommitPreserves(t, id, owner, now);
    case CommitDone(id, owner, sha, now) => CompletePreserves(t, id, owner, sha, now);
    case AbortAsked(id, owner, now) => AbortPreserves(t, id, owner, now);
  }

  lemma CompletePreserves(t: Tables, id: IdText, owner: Owner, sha: Digest, now: Time)
    ensures Preserved(t, Complete(t, id, owner, sha, now).0)
  {
  }

  lemma AbortPreserves(t: Tables, id: IdText, owner: Owner, now: Time)
    ensures Preserved(t, Abort(t, id, owner, now).0)
  {
  }

  // ---------------------------------------------------------------- whole runs

  ghost function Run(t: Tables, es: seq<UploadEvent>): Tables {
    if es == [] then t else Step(Run(t, es[..|es| - 1]), es[|es| - 1])
  }

  lemma PreservedChain(t: Tables, r: Tables, d: Tables)
    requires Preserved(t, r) && Preserved(r, d)
    ensures Preserved(t, d)
  {
    forall u | u in t.uploads
      ensures u in d.uploads && SameUpload(t.uploads[u], d.uploads[u])
    {
      assert SameUpload(t.uploads[u], r.uploads[u]) && SameUpload(r.uploads[u], d.uploads[u]);
    }
  }

  /** Over any run of calls the invariant holds, and what is settled stays: committed and aborted
      sessions, accepted parts, identity and geometry. */
  lemma {:induction false} RunPreserves(t: Tables, es: seq<UploadEvent>)
    requires Inv(t)
    ensures Inv(Run(t, es)) && Preserved(t, Run(t, es))
    decreases |es|
  {
    if es != [] {
      var d := Run(t, es[..|es| - 1]);
      RunPreserves(t, es[..|es| - 1]);
      StepKeepsInv(d, es[|es| - 1]);
      StepPreserves(d, es[|es| - 1]);
      PreservedChain(t, d, Run(t, es));
    }
  }

  /** The answer to an index that is already stored: the descriptor with the current counters, or a
      conflict if size or digest differ. */
  lemma StoredIndexAnswers(t: Tables, w: PartWrite)
    requires Inv(t) && ValidWrite(w) && PartKey(w.uploadId.id, w.index as nat) in t.parts
    requires w.owner == t.uploads[w.uploadId.id].owner
    requires t.uploads[w.uploadId.id].createdAt <= w.now < t.uploads[w.uploadId.id].expiresAt
    ensures var s, part := t.uploads[w.uploadId.id], t.parts[PartKey(w.uploadId.id, w.index as nat)];
            RecordPart(t, w) ==
              (t, if s.status != Uploading then Err(InvalidState)
                  else if part.byteSize != w.byteSize || part.sha != w.sha then Err(PartConflict)
                  else Ok(Receipt(part, true, s.receivedChunks, s.receivedBytes)))
  {
    assert SessionInv(t.uploads[w.uploadId.id]);
  }

  /** Whatever happens after a part was accepted, its index keeps its descriptor: while the session is
      uploading and unexpired, sending it again returns that descriptor with the current counters,
      sending it with another size or digest is a conflict, and neither changes anything. */
  lemma RetryIsIdempotent(t: Tables, w: PartWrite, es: seq<UploadEvent>, again: PartWrite)
    requires Inv(t) && RecordPart(t, w).1.Ok? && ValidWrite(again)
    requires again.uploadId == w.uploadId && again.owner == t.uploads[w.uploadId.id].owner && again.index == w.index
    requires t.uploads[w.uploadId.id].createdAt <= again.now < t.uploads[w.uploadId.id].expiresAt
    ensures var first := RecordPart(t, w).1.value.part;
            var d := Run(RecordPart(t, w).0, es);
            w.uploadId.id in d.uploads &&
            var s := d.uploads[w.uploadId.id];
            RecordPart(d, again) ==
              (d, if s.status != Uploading then Err(InvalidState)
                  else if again.byteSize != w.byteSize || again.sha != w.sha then Err(PartConflict)
                  else Ok(Receipt(first, true, s.receivedChunks, s.receivedBytes)))
  {
    RecordPartKeepsInv(t, w);
    AcceptedPart(t, w);
    RunPreserves(RecordPart(t, w).0, es);
    StoredIndexAnswers(Run(RecordPart(t, w).0, es), again);
  }
}
