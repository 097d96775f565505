/** Ordered immutable migrations, the ledger of the applied ones, and the two batch runners. SQL
    text and schemas are opaque: running a text either gives a new schema or fails. */
module Migrations {
  import opened Common

  type Sql = nat

  datatype Migration = Migration(version: nat, name: string, up: Sql, down: Sql, checksum: Digest)

  datatype Record = Record(name: string, checksum: Digest)

  type Ledger = map<nat, Record>

  function RecordOf(m: Migration): Record { Record(m.name, m.checksum) }

  predicate Sorted(ms: seq<Migration>) {
    forall i, j :: 0 <= i < j < |ms| ==> ms[i].version < ms[j].version
  }

  // ---------------------------------------------------------------- history

  function LedgerOf(ms: seq<Migration>): Ledger {
    if ms == [] then map[] else LedgerOf(ms[..|ms| - 1])[ms[|ms| - 1].version := RecordOf(ms[|ms| - 1])]
  }

  ghost predicate Has(ms: seq<Migration>, version: nat) {
    exists i :: 0 <= i < |ms| && ms[i].version == version
  }

  lemma {:induction false} LedgerAt(ms: seq<Migration>, version: nat)
    ensures version in LedgerOf(ms) <==> Has(ms, version)
    decreases |ms|
  {
    if ms != [] {
      var n := |ms| - 1;
      LedgerAt(ms[..n], version);
      if i :| 0 <= i < |ms[..n]| && ms[..n][i].version == version {
        assert ms[i].version == version;
      }
      if i :| 0 <= i < |ms| && ms[i].version == version {
        assert i < n ==> ms[..n][i].version == version;
      }
    }
  }

  lemma {:induction false} LedgerAtIndex(ms: seq<Migration>, i: nat)
    requires Sorted(ms) && i < |ms|
    ensures ms[i].version in LedgerOf(ms) && LedgerOf(ms)[ms[i].version] == RecordOf(ms[i])
    decreases |ms|
  {
    var n := |ms| - 1;
    if i < n {
      LedgerAtIndex(ms[..n], i);
      assert ms[..n][i] == ms[i];
    }
  }

  /** The ledger holds exactly the records of the first n migrations. */
  ghost predicate IsPrefix(ms: seq<Migration>, applied: Ledger, n: nat) {
    n <= |ms| && applied == LedgerOf(ms[..n])
  }

  ghost predicate HasPrefix(ms: seq<Migration>, applied: Ledger) {
    exists n :: IsPrefix(ms, applied, n)
  }

  datatype HistoryError = UnknownVersion(version: nat) | Differs(version: nat) | Gap(applied: nat, missing: nat)

  ghost predicate Matches(ms: seq<Migration>, version: nat, record: Record) {
    exists i :: 0 <= i < |ms| && ms[i].version == version && RecordOf(ms[i]) == record
  }

  ghost predicate RecordsMatch(ms: seq<Migration>, applied: Ledger) {
    forall v :: v in applied ==> Matches(ms, v, applied[v])
  }

  /** The applied versions are those of the first n migrations. */
  ghost predicate AppliedBelow(ms: seq<Migration>, applied: Ledger, n: nat) {
    forall i :: 0 <= i < |ms| ==> (ms[i].version in applied <==> i < n)
  }

  lemma MatchedEntry(ms: seq<Migration>, applied: Ledger, n: nat, v: nat)
    requires Sorted(ms) && n <= |ms| && RecordsMatch(ms, applied) && AppliedBelow(ms, applied, n) && v in applied
    ensures v in LedgerOf(ms[..n]) && LedgerOf(ms[..n])[v] == applied[v]
  {
    assert Matches(ms, v, applied[v]);
    var i :| 0 <= i < |ms| && ms[i].version == v && RecordOf(ms[i]) == applied[v];
    assert ms[..n][i] == ms[i];
    LedgerAtIndex(ms[..n], i);
  }

  lemma MatchedPrefixIsLedger(ms: seq<Migration>, applied: Ledger, n: nat)
    requires Sorted(ms) && n <= |ms| && RecordsMatch(ms, applied) && AppliedBelow(ms, applied, n)
    ensures IsPrefix(ms, applied, n)
  {
    var ledger := LedgerOf(ms[..n]);
    forall v
      ensures v in applied ==> v in ledger && ledger[v] == applied[v]
      ensures v in ledger ==> v in applied
    {
      if v in applied {
        MatchedEntry(ms, applied, n, v);
      }
      LedgerAt(ms[..n], v);
      if i :| 0 <= i < |ms[..n]| && ms[..n][i].version == v {
        assert ms[i].version == v;
      }
    }
    assert applied == ledger;
  }

  lemma PrefixMatches(ms: seq<Migration>, applied: Ledger, n: nat)
    requires Sorted(ms) && IsPrefix(ms, applied, n)
    ensures RecordsMatch(ms, applied) && AppliedBelow(ms, applied, n)
  {
    forall v | v in applied
      ensures Matches(ms, v, applied[v])
    {
      LedgerAt(ms[..n], v);
      var i :| 0 <= i < |ms[..n]| && ms[..n][i].version == v;
      LedgerAtIndex(ms[..n], i);
      assert ms[..n][i] == ms[i];
    }
    forall i | 0 <= i < |ms|
      ensures ms[i].version in applied <==> i < n
    {
      LedgerAt(ms[..n], ms[i].version);
      if i < n {
        assert ms[..n][i] == ms[i];
      }
      if k :| 0 <= k < |ms[..n]| && ms[..n][k].version == ms[i].version {
        assert ms[..n][k] == ms[k];
      }
    }
  }

  /** The first loops: every applied record is known to this binary and unchanged. */
  method CheckRecords(ms: seq<Migration>, applied: Ledger) returns (error: Option<HistoryError>)
    requires Sorted(ms)
    ensures error.None? <==> RecordsMatch(ms, applied)
  {
    var known: map<nat, Migration> := map[];
    for k := 0 to |ms|
      invariant forall v :: v in known ==> known[v] in ms && known[v].version == v
      invariant forall i :: 0 <= i < k ==> ms[i].version in known && known[ms[i].version] == ms[i]
    {
      known := known[ms[k].version := ms[k]];
    }
    var todo := applied.Keys;
    while todo != {}
      invariant todo <= applied.Keys
      invariant forall v :: v in applied && v !in todo ==> Matches(ms, v, applied[v])
      decreases todo
    {
      var v :| v in todo;
      if v !in known {
        assert !Matches(ms, v, applied[v]);
        return Some(UnknownVersion(v));
      }
      if applied[v] != RecordOf(known[v]) {
        assert !Matches(ms, v, applied[v]);
        return Some(Differs(v));
      }
      assert Matches(ms, v, applied[v]);
      todo := todo - {v};
    }
    error := None;
  }

  /** The last loop: no applied version follows a missing one. */
  method CheckOrder(ms: seq<Migration>, applied: Ledger) returns (error: Option<HistoryError>, ghost n: nat)
    ensures error.None? ==> n <= |ms| && AppliedBelow(ms, applied, n)
    ensures error.Some? ==> forall k :: !AppliedBelow(ms, applied, k)
  {
    var missing: Option<nat> := None;
    n := |ms|;
    var i := 0;
    while i < |ms|
      invariant 0 <= i <= |ms|
      invariant missing.None? ==> n == |ms| && forall k :: 0 <= k < i ==> ms[k].version in applied
      invariant missing.Some? ==> n < i
      invariant missing.Some? ==> forall k :: 0 <= k < i ==> (ms[k].version in applied <==> k < n)
    {
      if ms[i].version !in applied && missing.None? {
        missing := Some(ms[i].version);
        n := i;
      } else if ms[i].version in applied && missing.Some? {
        assert ms[n].version !in applied;
        return Some(Gap(ms[i].version, missing.value)), n;
      }
      i := i + 1;
    }
    error := None;
  }

  /** The history check accepts exactly the ledgers that record a prefix of the migrations. */
  method ValidateHistory(ms: seq<Migration>, applied: Ledger) returns (error: Option<HistoryError>)
    requires Sorted(ms)
    ensures error.None? <==> HasPrefix(ms, applied)
  {
    error := CheckRecords(ms, applied);
    ghost var n: nat := 0;
    if error.None? {
      error, n := CheckOrder(ms, applied);
    }
    if error.None? {
      MatchedPrefixIsLedger(ms, applied, n);
    } else {
      forall k | IsPrefix(ms, applied, k)
        ensures false
      {
        PrefixMatches(ms, applied, k);
      }
    }
  }

  lemma PrefixIsUnique(ms: seq<Migration>, applied: Ledger, m: nat, n: nat)
    requires Sorted(ms) && IsPrefix(ms, applied, m) && IsPrefix(ms, applied, n)
    ensures m == n
  {
    PrefixMatches(ms, applied, m);
    PrefixMatches(ms, applied, n);
    assert m < |ms| ==> (ms[m].version in applied <==> m < n);
    assert n < |ms| ==> (ms[n].version in applied <==> n < m);
  }

  /** The first n migrations are the applied ones, each under its version with its name and checksum. */
  ghost predicate RecordsOnColumns(ms: seq<Migration>, applied: Ledger, n: nat) {
    n <= |ms| &&
    (forall i :: 0 <= i < n ==>
      ms[i].version in applied && applied[ms[i].version].name == ms[i].name &&
      applied[ms[i].version].checksum == ms[i].checksum) &&
    forall v :: v in applied ==> Has(ms[..n], v)
  }

  lemma PrefixOnColumns(ms: seq<Migration>, applied: Ledger, n: nat)
    requires Sorted(ms)
    ensures IsPrefix(ms, applied, n) <==> RecordsOnColumns(ms, applied, n)
  {
    if n <= |ms| {
      forall i | 0 <= i < n
        ensures ms[i].version in LedgerOf(ms[..n]) && LedgerOf(ms[..n])[ms[i].version] == RecordOf(ms[i])
      {
        LedgerAtIndex(ms[..n], i);
      }
      forall v
        ensures v in LedgerOf(ms[..n]) <==> Has(ms[..n], v)
      {
        LedgerAt(ms[..n], v);
      }
      if RecordsOnColumns(ms, applied, n) {
        SameRecords(ms, applied, n);
      }
    }
  }

  lemma SameRecords(ms: seq<Migration>, applied: Ledger, n: nat)
    requires Sorted(ms) && RecordsOnColumns(ms, applied, n)
    requires forall v :: v in LedgerOf(ms[..n]) <==> Has(ms[..n], v)
    requires forall i :: 0 <= i < n ==> ms[i].version in LedgerOf(ms[..n]) &&
                                        LedgerOf(ms[..n])[ms[i].version] == RecordOf(ms[i])
    ensures applied == LedgerOf(ms[..n])
  {
    forall v | v in applied
      ensures v in LedgerOf(ms[..n]) && LedgerOf(ms[..n])[v] == applied[v]
    {
      var i :| 0 <= i < |ms[..n]| && ms[..n][i].version == v;
    }
    forall v | v in LedgerOf(ms[..n])
      ensures v in applied
    {
      var i :| 0 <= i < |ms[..n]| && ms[..n][i].version == v;
    }
  }

  // ---------------------------------------------------------------- up and down

  /** How the database runs a migration text. */
  type Exec<!S> = (S, Sql) -> Option<S>

  datatype Db<S> = Db(schema: S, ledger: Option<Ledger>)

  datatype Failure = BadHistory | SqlFailed

  function Ups<S>(exec: Exec<S>, schema: S, ms: seq<Migration>): Option<S> {
    if ms == [] then Some(schema)
    else
      var before := Ups(exec, schema, ms[..|ms| - 1]);
      if before.None? then None else exec(before.value, ms[|ms| - 1].up)
  }

  function Downs<S>(exec: Exec<S>, schema: S, ms: seq<Migration>): Option<S> {
    if ms == [] then Some(schema)
    else
      var next := exec(schema, ms[|ms| - 1].down);
      if next.None? then None else Downs(exec, next.value, ms[..|ms| - 1])
  }

  function Stored(ledger: Option<Ledger>): Ledger {
    if ledger.Some? then ledger.value else map[]
  }

  function Reversed(ms: seq<Migration>): seq<Migration> {
    if ms == [] then [] else [ms[|ms| - 1]] + Reversed(ms[..|ms| - 1])
  }

  ghost function PrefixLength(ms: seq<Migration>, applied: Ledger): (n: nat)
    requires HasPrefix(ms, applied)
    ensures IsPrefix(ms, applied, n)
  {
    var n :| IsPrefix(ms, applied, n);
    n
  }

  /** Up: the missing suffix, in order and all or nothing. */
  ghost function Up<S>(exec: Exec<S>, db: Db<S>, ms: seq<Migration>): (Db<S>, Result<seq<Migration>, Failure>) {
    if !HasPrefix(ms, Stored(db.ledger)) then (db, Err(BadHistory))
    else
      var n := PrefixLength(ms, Stored(db.ledger));
      var schema := Ups(exec, db.schema, ms[n..]);
      if schema.None? then (db, Err(SqlFailed)) else (Db(schema.value, Some(LedgerOf(ms))), Ok(ms[n..]))
  }

  /** DownAll: the applied prefix, newest first and all or nothing; it needs a ledger to read. */
  ghost function DownAll<S>(exec: Exec<S>, db: Db<S>, ms: seq<Migration>): (Db<S>, Result<seq<Migration>, Failure>) {
    if db.ledger.None? then (db, Err(SqlFailed))
    else if !HasPrefix(ms, db.ledger.value) then (db, Err(BadHistory))
    else
      var n := PrefixLength(ms, db.ledger.value);
      var schema := Downs(exec, db.schema, ms[..n]);
      if schema.None? then (db, Err(SqlFailed)) else (Db(schema.value, None), Ok(Reversed(ms[..n])))
  }

  lemma FullLedgerIsPrefix(ms: seq<Migration>)
    requires Sorted(ms)
    ensures HasPrefix(ms, LedgerOf(ms)) && PrefixLength(ms, LedgerOf(ms)) == |ms|
  {
    assert ms[..|ms|] == ms;
    assert IsPrefix(ms, LedgerOf(ms), |ms|);
    PrefixIsUnique(ms, LedgerOf(ms), PrefixLength(ms, LedgerOf(ms)), |ms|);
  }

  lemma EmptyLedgerIsPrefix(ms: seq<Migration>)
    requires Sorted(ms)
    ensures HasPrefix(ms, map[]) && PrefixLength(ms, map[]) == 0
  {
    assert ms[..0] == [];
    assert IsPrefix(ms, map[], 0);
    PrefixIsUnique(ms, map[], PrefixLength(ms, map[]), 0);
  }

  /** Calls of Up that the advisory lock has put one after another, each with its own chance to
      fail: the migrations they report. */
  ghost function UpsInTurn<S>(execs: seq<Exec<S>>, db: Db<S>, ms: seq<Migration>): (Db<S>, seq<Migration>) {
    if execs == [] then (db, [])
    else
      var (d, result) := Up(execs[0], db, ms);
      var (last, rest) := UpsInTurn(execs[1..], d, ms);
      (last, (if result.Ok? then result.value else []) + rest)
  }

  lemma UpAgainAppliesNothing<S>(exec: Exec<S>, schema: S, ms: seq<Migration>)
    requires Sorted(ms)
    ensures var db := Db(schema, Some(LedgerOf(ms)));
            Up(exec, db, ms) == (db, Ok([]))
  {
    FullLedgerIsPrefix(ms);
    assert ms[|ms|..] == [];
  }

  lemma {:induction false} NothingLeft<S>(execs: seq<Exec<S>>, schema: S, ms: seq<Migration>)
    requires Sorted(ms)
    ensures var db := Db(schema, Some(LedgerOf(ms)));
            UpsInTurn(execs, db, ms) == (db, [])
    decreases |execs|
  {
    if execs != [] {
      var db := Db(schema, Some(LedgerOf(ms)));
      UpAgainAppliesNothing(execs[0], schema, ms);
      NothingLeft(execs[1..], schema, ms);
      var (d, result) := Up(execs[0], db, ms);
      assert d == db && result.value == [];
      var rest := UpsInTurn(execs[1..], d, ms).1;
      assert result.value + rest == [];
    }
  }

  /** Some runner, started on this database, would get through. */
  ghost predicate SomeSucceeds<S>(execs: seq<Exec<S>>, db: Db<S>, ms: seq<Migration>) {
    exists i :: 0 <= i < |execs| && Up(execs[i], db, ms).1.Ok?
  }

  /** However many runners call Up, together they apply each missing migration once, in order; if
      none gets through, nothing changes and nothing is reported. */
  lemma {:induction false} EachMigrationAppliedOnce<S>(execs: seq<Exec<S>>, db: Db<S>, ms: seq<Migration>)
    requires Sorted(ms) && HasPrefix(ms, Stored(db.ledger))
    ensures var (last, applied) := UpsInTurn(execs, db, ms);
            if SomeSucceeds(execs, db, ms) then
              applied == ms[PrefixLength(ms, Stored(db.ledger))..] && last.ledger == Some(LedgerOf(ms))
            else
              last == db && applied == []
    decreases |execs|
  {
    if execs != [] {
      var (d, result) := Up(execs[0], db, ms);
      if result.Ok? {
        NothingLeft(execs[1..], d.schema, ms);
      } else {
        EachMigrationAppliedOnce(execs[1..], db, ms);
        assert SomeSucceeds(execs, db, ms) ==> SomeSucceeds(execs[1..], db, ms) by {
          if i :| 0 <= i < |execs| && Up(execs[i], db, ms).1.Ok? {
            assert execs[1..][i - 1] == execs[i];
          }
        }
        assert SomeSucceeds(execs[1..], db, ms) ==> SomeSucceeds(execs, db, ms) by {
          if i :| 0 <= i < |execs| - 1 && Up(execs[1..][i], db, ms).1.Ok? {
            assert execs[i + 1] == execs[1..][i];
          }
        }
      }
    }
  }

  /** Every down text undoes its up text. */
  ghost predicate Inverts<S(!new)>(exec: Exec<S>, ms: seq<Migration>) {
    forall m, s, t :: m in ms && exec(s, m.up) == Some(t) ==> exec(t, m.down) == Some(s)
  }

  lemma {:induction false} DownsUndoUps<S(!new)>(exec: Exec<S>, schema: S, ms: seq<Migration>)
    requires Inverts(exec, ms) && Ups(exec, schema, ms).Some?
    ensures Downs(exec, Ups(exec, schema, ms).value, ms) == Some(schema)
    decreases |ms|
  {
    if ms != [] {
      var before := ms[..|ms| - 1];
      assert ms[|ms| - 1] in ms;
      DownsUndoUps(exec, schema, before);
    }
  }

  /** A full migration of an unmigrated database followed by a full rollback restores the schema,
      reports every migration in reverse, and leaves no ledger. */
  lemma DownAllUndoesUp<S(!new)>(exec: Exec<S>, db: Db<S>, ms: seq<Migration>)
    requires Sorted(ms) && Inverts(exec, ms) && Stored(db.ledger) == map[]
    requires Up(exec, db, ms).1.Ok?
    ensures DownAll(exec, Up(exec, db, ms).0, ms) == (Db(db.schema, None), Ok(Reversed(ms)))
  {
    EmptyLedgerIsPrefix(ms);
    FullLedgerIsPrefix(ms);
    assert ms[0..] == ms && ms[..|ms|] == ms;
    DownsUndoUps(exec, db.schema, ms);
  }

  // ---------------------------------------------------------------- order of execution

  /** Each text was run on the schema that the one before it left. */
  ghost predicate Chain<S(!new)>(exec: Exec<S>, schemas: seq<S>, texts: seq<Sql>) {
    |schemas| == |texts| + 1 &&
    forall i :: 0 <= i < |texts| ==> exec(schemas[i], texts[i]) == Some(schemas[i + 1])
  }

  function UpTexts(ms: seq<Migration>): seq<Sql> {
    seq(|ms|, i requires 0 <= i < |ms| => ms[i].up)
  }

  /** The down texts, newest first. */
  function DownTexts(ms: seq<Migration>): seq<Sql> {
    seq(|ms|, i requires 0 <= i < |ms| => ms[|ms| - 1 - i].down)
  }

  /** Up runs the up texts oldest first. */
  lemma {:induction false} UpsRunInOrder<S(!new)>(exec: Exec<S>, schema: S, ms: seq<Migration>)
      returns (schemas: seq<S>)
    requires Ups(exec, schema, ms).Some?
    ensures Chain(exec, schemas, UpTexts(ms)) && schemas[0] == schema && schemas[|ms|] == Ups(exec, schema, ms).value
    decreases |ms|
  {
    if ms == [] {
      schemas := [schema];
    } else {
      var front := ms[..|ms| - 1];
      var before := UpsRunInOrder(exec, schema, front);
      schemas := before + [Ups(exec, schema, ms).value];
      assert UpTexts(ms) == UpTexts(front) + [ms[|ms| - 1].up];
    }
  }

  lemma {:induction false} ChainIsUps<S(!new)>(exec: Exec<S>, schemas: seq<S>, ms: seq<Migration>)
    requires Chain(exec, schemas, UpTexts(ms))
    ensures Ups(exec, schemas[0], ms) == Some(schemas[|ms|])
    decreases |ms|
  {
    if ms != [] {
      var n := |ms| - 1;
      assert UpTexts(ms[..n]) == UpTexts(ms)[..n];
      assert UpTexts(ms)[n] == ms[n].up;
      ChainIsUps(exec, schemas[..n + 1], ms[..n]);
    }
  }

  /** DownAll runs the down texts newest first. */
  lemma {:induction false} DownsRunInReverse<S(!new)>(exec: Exec<S>, schema: S, ms: seq<Migration>)
      returns (schemas: seq<S>)
    requires Downs(exec, schema, ms).Some?
    ensures Chain(exec, schemas, DownTexts(ms)) && schemas[0] == schema
    ensures schemas[|ms|] == Downs(exec, schema, ms).value
    decreases |ms|
  {
    if ms == [] {
      schemas := [schema];
    } else {
      var front := ms[..|ms| - 1];
      var after := DownsRunInReverse(exec, exec(schema, ms[|ms| - 1].down).value, front);
      schemas := [schema] + after;
      assert DownTexts(ms) == [ms[|ms| - 1].down] + DownTexts(front);
    }
  }

  lemma {:induction false} ChainIsDowns<S(!new)>(exec: Exec<S>, schemas: seq<S>, ms: seq<Migration>)
    requires Chain(exec, schemas, DownTexts(ms))
    ensures Downs(exec, schemas[0], ms) == Some(schemas[|ms|])
    decreases |ms|
  {
    if ms != [] {
      var n := |ms| - 1;
      assert DownTexts(ms[..n]) == DownTexts(ms)[1..];
      assert DownTexts(ms)[0] == ms[n].down;
      ChainIsDowns(exec, schemas[1..], ms[..n]);
    }
  }

  lemma {:induction false} ReversedAt(ms: seq<Migration>, i: nat)
    requires i < |ms|
    ensures |Reversed(ms)| == |ms| && Reversed(ms)[i] == ms[|ms| - 1 - i]
    decreases |ms|
  {
    if |ms| > 1 {
      ReversedAt(ms[..|ms| - 1], if i > 0 then i - 1 else 0);
    }
  }

  /** A migration call is refused iff the history is no prefix; otherwise it applies and records
      exactly what is missing, or nothing. */
  lemma UpAnswers<S(!new)>(exec: Exec<S>, db: Db<S>, ms: seq<Migration>, n: nat)
    requires Sorted(ms)
    ensures var (d, answer) := Up(exec, db, ms);
            (answer == Err(BadHistory) <==> !HasPrefix(ms, Stored(db.ledger))) && (answer.Err? ==> d == db) &&
            (IsPrefix(ms, Stored(db.ledger), n) ==>
               (answer.Ok? <==> Ups(exec, db.schema, ms[n..]).Some?) &&
               (answer.Ok? ==>
                  answer == Ok(ms[n..]) && d.ledger == Some(LedgerOf(ms)) &&
                  Some(d.schema) == Ups(exec, db.schema, ms[n..])))
  {
    if IsPrefix(ms, Stored(db.ledger), n) {
      PrefixIsUnique(ms, Stored(db.ledger), n, PrefixLength(ms, Stored(db.ledger)));
    }
  }

  /** A rollback call needs a ledger with a good history; it reverts exactly what is applied, reports
      it newest first and drops the ledger, or changes nothing. */
  lemma DownAllAnswers<S(!new)>(exec: Exec<S>, db: Db<S>, ms: seq<Migration>, n: nat)
    requires Sorted(ms) && db.ledger.Some?
    ensures var (d, answer) := DownAll(exec, db, ms);
            (answer == Err(BadHistory) <==> !HasPrefix(ms, db.ledger.value)) && (answer.Err? ==> d == db) &&
            (IsPrefix(ms, db.ledger.value, n) ==>
               (answer.Ok? <==> Downs(exec, db.schema, ms[..n]).Some?) &&
               (answer.Ok? ==>
                  answer == Ok(Reversed(ms[..n])) && d.ledger.None? &&
                  Some(d.schema) == Downs(exec, db.schema, ms[..n])))
  {
    if IsPrefix(ms, db.ledger.value, n) {
      PrefixIsUnique(ms, db.ledger.value, n, PrefixLength(ms, db.ledger.value));
    }
  }
}
