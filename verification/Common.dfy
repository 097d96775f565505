/** Values shared by every package of the service: optional columns, instants,
    text bounds, identifiers and owners. */
module Common {

  /** A nullable column or an optional value of Go. */
  datatype Option<+T> = None | Some(value: T)

  datatype Result<+T, +E> = Ok(value: T) | Err(error: E)

  const MAX_INT32: int := 0x7fff_ffff
  const MAX_INT64: int := 0x7fff_ffff_ffff_ffff

  /** Go's fixed-width integers: Dafny proves that no operation leaves the range. */
  newtype int32 = x: int | -0x8000_0000 <= x < 0x8000_0000
  newtype int64 = x: int | -0x8000_0000_0000_0000 <= x < 0x8000_0000_0000_0000

  /** Instants are microseconds since Go's zero time, which is tick 0. */
  type Time = int

  const ZERO_TIME: Time := 0

  /** SQL GREATEST and LEAST on two non-null instants. */
  function Later(a: Time, b: Time): Time { if a < b then b else a }

  function Earlier(a: Time, b: Time): Time { if b < a then b else a }

  /** The greater of two instants, said without computing it. */
  predicate IsLater(r: Time, a: Time, b: Time) {
    r >= a && r >= b && (r == a || r == b)
  }

  /** SQL COALESCE(column, value) where the value is never null. */
  function Coalesce<T>(column: Option<T>, fallback: T): Option<T> {
    if column.Some? then column else Some(fallback)
  }

  predicate Space(c: char) {
    c == ' ' || c == '\t' || c == '\n' || c == '\r' || c == '\U{0B}' || c == '\U{0C}'
  }

  /** strings.TrimSpace(s) == "" */
  predicate Blank(s: string) {
    forall c :: c in s ==> Space(c)
  }

  /** strings.TrimSpace(s) == s */
  predicate Trimmed(s: string) {
    s == "" || (!Space(s[0]) && !Space(s[|s| - 1]))
  }

  /** One character stands for one byte of text. */
  predicate BoundedText(s: string, maximum: nat) {
    !Blank(s) && |s| <= maximum
  }

  /** A digest is opaque: only equality matters. */
  type Digest = nat

  /** Identifier text as it reaches the service: a well-formed UUID or anything else. */
  datatype IdText = Empty | Malformed | Uuid(id: nat)

  datatype OwnerKind = Authenticated | Anonymous | UnknownKind

  /** The storage-level authorization key. */
  datatype Owner = Owner(kind: OwnerKind, userId: int, sessionId: IdText) {
    predicate Valid() {
      match kind
      case Authenticated => userId > 0 && sessionId == Empty
      case Anonymous => userId == 0 && sessionId.Uuid?
      case UnknownKind => false
    }

    /** The three owner columns, with the two nullable ones as options. */
    function Columns(): (OwnerKind, Option<int>, Option<IdText>) {
      if kind == Authenticated then (kind, Some(userId), None) else (kind, None, Some(sessionId))
    }
  }

  /** The SQL owner predicate compares columns; on valid owners that is equality of owners. */
  lemma OwnerColumnsIdentify(a: Owner, b: Owner)
    requires a.Valid() && b.Valid()
    ensures a.Columns() == b.Columns() <==> a == b
  {
  }
}
