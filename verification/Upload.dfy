/** Rows of upload_session and upload_part, their geometry and the Go conditions on them. */
module Upload {
  import opened Common

  const MAX_FILENAME_BYTES: nat := 255
  const MAX_TYPE_BYTES: nat := 255
  const MAX_KEY_BYTES: nat := 1024
  const MAX_BACKEND_BYTES: nat := 2048

  datatype Status = Uploading | Committing | Committed | Aborted | Expired | Unknown

  datatype Session = Session(
    id: IdText, owner: Owner, filename: string, contentType: string,
    declaredSize: int64, chunkSize: int64, expectedChunks: int32,
    receivedChunks: int32, receivedBytes: int64, status: Status,
    objectKey: string, multipartId: string, committedSha: Option<Digest>,
    createdAt: Time, updatedAt: Time, committedAt: Option<Time>, expiresAt: Time)

  datatype Part = Part(
    uploadId: IdText, index: int32, byteSize: int64, sha: Digest, backendId: string, createdAt: Time)

  datatype PartWrite = PartWrite(
    uploadId: IdText, owner: Owner, index: int32, byteSize: int64, sha: Digest,
    backendId: string, now: Time)

  datatype Receipt = Receipt(part: Part, alreadyPresent: bool, chunks: int32, bytes: int64)

  datatype CommitPlan = CommitPlan(session: Session, parts: seq<Part>)

  datatype UploadError =
    | Invalid | NotFound | Conflict | SessionExpired | InvalidState | PartConflict
    | PartOutOfOrder | WrongPartSize | Incomplete | StorageFailure

  // ---------------------------------------------------------------- geometry

  /** The ceiling of declared / chunk, in int64 arithmetic. */
  function ChunkCount(declared: int64, chunk: int64): int64
    requires declared > 0 && chunk > 0
  {
    (declared - 1) / chunk + 1
  }

  predicate Geometry(s: Session) {
    s.declaredSize > 0 && 0 < s.chunkSize <= 0x7fff_ffff && s.expectedChunks > 0 &&
    ChunkCount(s.declaredSize, s.chunkSize) as int == s.expectedChunks as int
  }

  /** The size the part at a position must have: a full chunk, or the rest for the last one. */
  function PartSize(s: Session, index: int): int {
    if index < s.expectedChunks as int - 1 then s.chunkSize as int
    else s.declaredSize as int - (s.expectedChunks as int - 1) * s.chunkSize as int
  }

  lemma DivisionBounds(d: int, c: int)
    requires d > 0 && c > 0
    ensures ((d - 1) / c) * c < d <= ((d - 1) / c + 1) * c
  {
    var q := (d - 1) / c;
    assert (q + 1) * c == q * c + c;
  }

  /** The chunk count is a ceiling: the last part is non-empty and not longer than a chunk. */
  lemma CeilingGeometry(s: Session)
    requires Geometry(s)
    ensures (s.expectedChunks as int - 1) * s.chunkSize as int < s.declaredSize as int
    ensures s.declaredSize as int <= s.expectedChunks as int * s.chunkSize as int
    ensures forall i :: 0 <= i < s.expectedChunks as int ==> 0 < PartSize(s, i) <= s.chunkSize as int
  {
    var d, c, n := s.declaredSize as int, s.chunkSize as int, s.expectedChunks as int;
    assert n - 1 == (d - 1) / c;
    DivisionBounds(d, c);
    assert n * c == (n - 1) * c + c;
  }

  /** The part size computed in int32 and int64, with the guards of the source. No operation
      overflows: the product of two 31-bit values fits. */
  function ExpectedPartSize(s: Session, index: int32): (size: Option<int64>)
    requires s.chunkSize <= 0x7fff_ffff
    ensures Geometry(s) && 0 <= index < s.expectedChunks ==>
              size.Some? && size.value as int == PartSize(s, index as int)
    ensures size.Some? ==> 0 <= index < s.expectedChunks
  {
    if index < 0 || index >= s.expectedChunks || s.chunkSize <= 0 || s.declaredSize <= 0 then None
    else if index < s.expectedChunks - 1 then Some(s.chunkSize)
    else
      ProductFits(s.expectedChunks as int - 1, s.chunkSize as int);
      var consumed := (s.expectedChunks - 1) as int64 * s.chunkSize;
      if Geometry(s) then CeilingGeometry(s); LastPart(s, consumed, index)
      else LastPart(s, consumed, index)
  }

  function LastPart(s: Session, consumed: int64, index: int32): Option<int64> {
    if consumed < 0 || consumed >= s.declaredSize then None else Some(s.declaredSize - consumed)
  }

  lemma ProductFits(a: int, b: int)
    requires 0 <= a < 0x7fff_ffff && 0 < b <= 0x7fff_ffff
    ensures 0 <= a * b < 0x4000_0000_0000_0000
  {
    assert a * b <= 0x7fff_ffff * b;
  }

  /** How many bytes the first n parts hold. */
  function PrefixBytes(s: Session, n: nat): int {
    if n == 0 then 0 else PrefixBytes(s, n - 1) + PartSize(s, n - 1)
  }

  lemma {:induction false} FullChunksPrefix(s: Session, n: nat)
    requires n < s.expectedChunks as int
    ensures PrefixBytes(s, n) == n * s.chunkSize as int
    decreases n
  {
    if n > 0 {
      FullChunksPrefix(s, n - 1);
      var c := s.chunkSize as int;
      assert n * c == (n - 1) * c + c;
    }
  }

  /** Full chunks add up to multiples of the chunk, and the whole to the declared size; a proper
      prefix is strictly shorter. */
  lemma PrefixIsClosedForm(s: Session, n: nat)
    requires Geometry(s) && n <= s.expectedChunks as int
    ensures n < s.expectedChunks as int ==> 0 <= PrefixBytes(s, n) == n * s.chunkSize as int < s.declaredSize as int
    ensures n == s.expectedChunks as int ==> PrefixBytes(s, n) == s.declaredSize as int
  {
    CeilingGeometry(s);
    if n < s.expectedChunks as int {
      FullChunksPrefix(s, n);
      ProductMonotone(n, s.expectedChunks as int - 1, s.chunkSize as int);
    } else {
      FullChunksPrefix(s, n - 1);
    }
  }

  lemma ProductMonotone(a: int, b: int, c: int)
    requires 0 <= a <= b && 0 <= c
    ensures 0 <= a * c <= b * c
  {
  }

  // ---------------------------------------------------------------- validation in Go

  /** The names SanitizeFilename returns unchanged. */
  predicate SanitizedFilename(name: string) {
    name != "" && name != "." && name != ".." && Trimmed(name) && |name| <= MAX_FILENAME_BYTES &&
    forall c :: c in name ==> c != '/' && c != '\\' && ' ' <= c && c != '\U{7F}'
  }

  /** MIME parsing is left out: a normalized content type is bounded and not blank. */
  predicate NormalizedType(contentType: string) { BoundedText(contentType, MAX_TYPE_BYTES) }

  predicate MetadataOk(s: Session) {
    s.id.Uuid? && s.owner.Valid() && SanitizedFilename(s.filename) && NormalizedType(s.contentType) &&
    Geometry(s) && BoundedText(s.objectKey, MAX_KEY_BYTES) && |s.multipartId| <= MAX_BACKEND_BYTES &&
    s.createdAt != ZERO_TIME && s.updatedAt != ZERO_TIME && s.expiresAt != ZERO_TIME &&
    s.updatedAt >= s.createdAt && s.expiresAt > s.createdAt
  }

  predicate ValidNew(s: Session) {
    MetadataOk(s) && s.receivedChunks == 0 && s.receivedBytes == 0 && s.status == Uploading &&
    s.committedSha.None? && s.committedAt.None?
  }

  predicate ValidStored(s: Session) {
    MetadataOk(s) &&
    0 <= s.receivedChunks <= s.expectedChunks && 0 <= s.receivedBytes <= s.declaredSize &&
    s.status != Unknown &&
    (s.status == Committed <==> s.committedSha.Some?) && (s.status == Committed <==> s.committedAt.Some?)
  }

  predicate ValidWrite(w: PartWrite) {
    w.uploadId.Uuid? && w.owner.Valid() && w.index >= 0 && 0 < w.byteSize <= 0x7fff_ffff &&
    BoundedText(w.backendId, MAX_BACKEND_BYTES) && w.now != ZERO_TIME
  }

  // ---------------------------------------------------------------- starting an upload

  /** What the manager hands to the store for arguments it accepts; name and type are already in
      their normal form, and the key is derived from the generated identifier. */
  function Started(id: nat, owner: Owner, filename: string, contentType: string, key: string,
                   declared: int64, maxBytes: int64, chunk: int64, ttl: int, now: Time): Option<Session>
    requires 0 < chunk <= 0x7fff_ffff
  {
    if !owner.Valid() || declared <= 0 || declared > maxBytes || !SanitizedFilename(filename) ||
       !NormalizedType(contentType) || ChunkCount(declared, chunk) > 0x7fff_ffff
    then None
    else
      Some(Session(Uuid(id), owner, filename, contentType, declared, chunk, ChunkCount(declared, chunk) as int32,
                   0, 0, Uploading, key, "", None, now, now, None, now + ttl))
  }

  /** Which requests the manager turns into a session, and what the session carries. */
  lemma StartedCarriesRequest(id: nat, owner: Owner, filename: string, contentType: string, key: string,
                              declared: int64, maxBytes: int64, chunk: int64, ttl: int, now: Time)
    requires 0 < chunk <= 0x7fff_ffff
    ensures var s := Started(id, owner, filename, contentType, key, declared, maxBytes, chunk, ttl, now);
            (s.Some? <==> owner.Valid() && 0 < declared <= maxBytes && SanitizedFilename(filename) &&
                          NormalizedType(contentType) && declared as int <= 0x7fff_ffff * chunk as int) &&
            (s.Some? ==>
               var k := s.value;
               k.id == Uuid(id) && k.owner == owner && k.filename == filename && k.contentType == contentType &&
               k.declaredSize == declared && k.chunkSize == chunk && k.objectKey == key && k.createdAt == now &&
               k.updatedAt == now && k.expiresAt == now + ttl && Geometry(k) && k.status == Uploading &&
               k.receivedChunks == 0 && k.receivedBytes == 0)
  {
    if declared > 0 {
      DivisionBounds(declared as int, chunk as int);
      var count := (declared as int - 1) / chunk as int + 1;
      if count <= 0x7fff_ffff {
        ProductMonotone(count, 0x7fff_ffff, chunk as int);
      } else {
        ProductMonotone(0x7fff_ffff, count - 1, chunk as int);
      }
    }
  }

  /** The store accepts a started session unless its clock or its deadline is Go's zero time. */
  lemma StartedIsValidIff(id: nat, owner: Owner, filename: string, contentType: string, key: string,
                          declared: int64, maxBytes: int64, chunk: int64, ttl: int, now: Time)
    requires 0 < chunk <= maxBytes && chunk <= 0x7fff_ffff && ttl > 0 && BoundedText(key, MAX_KEY_BYTES)
    ensures var s := Started(id, owner, filename, contentType, key, declared, maxBytes, chunk, ttl, now);
            s.Some? ==> (ValidNew(s.value) <==> now != ZERO_TIME && now + ttl != ZERO_TIME)
  {
  }

  /** The chunk count is the least number of chunks that hold the declared size. */
  lemma FewestChunks(s: Session, n: int)
    requires Geometry(s)
    ensures n * s.chunkSize as int >= s.declaredSize as int <==> n >= s.expectedChunks as int
  {
    CeilingGeometry(s);
    var c := s.chunkSize as int;
    if n >= s.expectedChunks as int {
      ProductMonotone(s.expectedChunks as int, n, c);
    } else if n >= 0 {
      ProductMonotone(n, s.expectedChunks as int - 1, c);
    }
  }

  // ---------------------------------------------------------------- completeness

  /** Every counter and every descriptor says that the whole object is there. */
  predicate CompleteParts(s: Session, parts: seq<Part>) {
    s.receivedChunks == s.expectedChunks && s.receivedBytes == s.declaredSize &&
    |parts| == s.expectedChunks as int &&
    forall k :: 0 <= k < |parts| ==>
      parts[k].uploadId == s.id && parts[k].index as int == k && !Blank(parts[k].backendId) &&
      parts[k].byteSize as int == PartSize(s, k)
  }

  function Sizes(parts: seq<Part>): seq<int> { seq(|parts|, k requires 0 <= k < |parts| => parts[k].byteSize as int) }

  function Total(sizes: seq<int>): int {
    if sizes == [] then 0 else Total(sizes[..|sizes| - 1]) + sizes[|sizes| - 1]
  }

  /** The sizes cut [0, declared) into chunks: full ones, then a last one that may be shorter. */
  predicate ChunkedPartition(sizes: seq<int>, declared: int, chunk: int) {
    sizes != [] && Total(sizes) == declared &&
    (forall k :: 0 <= k < |sizes| - 1 ==> sizes[k] == chunk) &&
    0 < sizes[|sizes| - 1] <= chunk
  }

  lemma {:induction false} FullChunksTotal(sizes: seq<int>, chunk: int)
    requires forall k :: 0 <= k < |sizes| ==> sizes[k] == chunk
    ensures Total(sizes) == |sizes| * chunk
    decreases |sizes|
  {
    if sizes != [] {
      FullChunksTotal(sizes[..|sizes| - 1], chunk);
      assert |sizes| * chunk == (|sizes| - 1) * chunk + chunk;
    }
  }

  lemma {:induction false} PositionalTotal(s: Session, sizes: seq<int>)
    requires Geometry(s) && |sizes| <= s.expectedChunks as int
    requires forall k :: 0 <= k < |sizes| ==> sizes[k] == PartSize(s, k)
    ensures Total(sizes) == PrefixBytes(s, |sizes|)
    decreases |sizes|
  {
    if sizes != [] {
      PositionalTotal(s, sizes[..|sizes| - 1]);
    }
  }

  lemma ScaledLess(a: int, b: int, c: int)
    requires c > 0 && a * c < b * c
    ensures a < b
  {
    assert (b - a) * c == b * c - a * c;
  }

  lemma QuotientIsUnique(d: int, c: int, n: int)
    requires c > 0 && d > 0 && (n - 1) * c < d <= n * c
    ensures n == (d - 1) / c + 1
  {
    var q := (d - 1) / c;
    DivisionBounds(d, c);
    ScaledLess(n - 1, q + 1, c);
    ScaledLess(q, n, c);
  }

  /** The positional sizes are the chunked partition of the declared size, and the only one:
      the ceiling count is forced by the total. */
  lemma PartitionIffPositional(s: Session, sizes: seq<int>)
    requires Geometry(s)
    ensures ChunkedPartition(sizes, s.declaredSize as int, s.chunkSize as int) <==>
            |sizes| == s.expectedChunks as int && forall k :: 0 <= k < |sizes| ==> sizes[k] == PartSize(s, k)
  {
    var d, c, n := s.declaredSize as int, s.chunkSize as int, s.expectedChunks as int;
    CeilingGeometry(s);
    if ChunkedPartition(sizes, d, c) {
      var m := |sizes|;
      FullChunksTotal(sizes[..m - 1], c);
      assert m * c == (m - 1) * c + c;
      QuotientIsUnique(d, c, m);
      assert (d - 1) / c + 1 == n;
    }
    if |sizes| == n && forall k :: 0 <= k < |sizes| ==> sizes[k] == PartSize(s, k) {
      PositionalTotal(s, sizes);
      PrefixIsClosedForm(s, n);
    }
  }

  /** The completeness check accepts a list exactly when the counters are full, the descriptors
      belong to the upload in order, and the sizes cut the declared size into chunks. */
  lemma CompleteIffPartition(s: Session, parts: seq<Part>)
    requires Geometry(s)
    ensures CompleteParts(s, parts) <==>
            s.receivedChunks == s.expectedChunks && s.receivedBytes == s.declaredSize &&
            (forall k :: 0 <= k < |parts| ==>
              parts[k].uploadId == s.id && parts[k].index as int == k && !Blank(parts[k].backendId)) &&
            ChunkedPartition(Sizes(parts), s.declaredSize as int, s.chunkSize as int)
  {
    PartitionIffPositional(s, Sizes(parts));
    if CompleteParts(s, parts) {
      assert forall k :: 0 <= k < |parts| ==> Sizes(parts)[k] == PartSize(s, k);
    } else if |parts| == s.expectedChunks as int && forall k :: 0 <= k < |parts| ==> Sizes(parts)[k] == PartSize(s, k) {
      assert forall k :: 0 <= k < |parts| ==> parts[k].byteSize as int == Sizes(parts)[k];
    }
  }

  /** Where a part starts. */
  function Start(sizes: seq<int>, k: nat): int
    requires k <= |sizes|
  {
    Total(sizes[..k])
  }

  predicate Covers(sizes: seq<int>, k: nat, offset: int) {
    k < |sizes| && Start(sizes, k) <= offset < Start(sizes, k) + sizes[k]
  }

  lemma {:induction false} StartsAscend(sizes: seq<int>, j: nat, k: nat)
    requires j < k <= |sizes| && forall i :: 0 <= i < |sizes| ==> sizes[i] > 0
    ensures Start(sizes, j) + sizes[j] <= Start(sizes, k)
    decreases k
  {
    assert sizes[..k][..k - 1] == sizes[..k - 1];
    if j < k - 1 {
      StartsAscend(sizes, j, k - 1);
    }
  }

  lemma {:induction false} SomePartCovers(sizes: seq<int>, n: nat, offset: int) returns (k: nat)
    requires n <= |sizes| && 0 <= offset < Start(sizes, n)
    ensures k < n && Covers(sizes, k, offset)
    decreases n
  {
    assert sizes[..0] == [];
    k := 0;
    if n > 0 {
      assert sizes[..n][..n - 1] == sizes[..n - 1];
      if offset < Start(sizes, n - 1) {
        k := SomePartCovers(sizes, n - 1, offset);
      } else {
        k := n - 1;
      }
    }
  }

  /** Every byte of the declared object lies in exactly one part, and nothing lies outside it. */
  lemma EveryByteInExactlyOnePart(sizes: seq<int>, declared: int, chunk: int, offset: int)
    requires ChunkedPartition(sizes, declared, chunk)
    ensures 0 <= offset < declared <==> exists k :: Covers(sizes, k, offset)
    ensures forall j, k :: Covers(sizes, j, offset) && Covers(sizes, k, offset) ==> j == k
  {
    assert sizes[..|sizes|] == sizes;
    if 0 <= offset < declared {
      var k := SomePartCovers(sizes, |sizes|, offset);
    }
    forall k | Covers(sizes, k, offset)
      ensures 0 <= offset < declared
    {
      assert sizes[..0] == [];
      if k > 0 {
        StartsAscend(sizes, 0, k);
      }
      StartsAscend(sizes, k, |sizes|);
    }
    forall j, k | Covers(sizes, j, offset) && Covers(sizes, k, offset)
      ensures j == k
    {
      if j < k {
        StartsAscend(sizes, j, k);
      } else if k < j {
        StartsAscend(sizes, k, j);
      }
    }
  }
}
