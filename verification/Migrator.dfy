/** Loading, applying and reverting migrations: each batch works on its transaction's own copy and
    publishes it only when every text succeeded. */
module Migrator {
  import opened Common
  import M = Migrations
  import opened Migrations

  // ---------------------------------------------------------------- loading

  /** One directory entry as the loader sees it. */
  datatype Entry =
    | Ignored
    | BadName
    | Unparsable(version: nat)
    | File(migration: Migration)

  datatype LoadError = InvalidName | DuplicateVersion(version: nat) | ParseFailed | NoMigrations

  function Files(entries: seq<Entry>): seq<Migration> {
    if entries == [] then []
    else
      var last := entries[|entries| - 1];
      Files(entries[..|entries| - 1]) + if last.File? then [last.migration] else []
  }

  function Versions(ms: seq<Migration>): set<nat> {
    if ms == [] then {} else Versions(ms[..|ms| - 1]) + {ms[|ms| - 1].version}
  }

  lemma {:induction false} VersionsAre(ms: seq<Migration>)
    ensures forall m :: m in ms ==> m.version in Versions(ms)
    ensures forall v :: v in Versions(ms) ==> exists k :: 0 <= k < |ms| && ms[k].version == v
    decreases |ms|
  {
    if ms != [] {
      var before := ms[..|ms| - 1];
      VersionsAre(before);
      assert ms == before + [ms[|ms| - 1]];
      forall v | v in Versions(ms)
        ensures exists k :: 0 <= k < |ms| && ms[k].version == v
      {
        if v in Versions(before) {
          var k :| 0 <= k < |before| && before[k].version == v;
          assert ms[k].version == v;
        }
      }
    }
  }

  predicate VersionsDistinct(ms: seq<Migration>) {
    forall i, j :: 0 <= i < j < |ms| ==> ms[i].version != ms[j].version
  }

  predicate Loadable(entries: seq<Entry>) {
    (forall e :: e in entries ==> e.Ignored? || e.File?) && Files(entries) != [] && VersionsDistinct(Files(entries))
  }

  lemma InsertKeepsSorted(ms: seq<Migration>, i: nat, m: Migration)
    requires Sorted(ms) && i <= |ms|
    requires forall k :: 0 <= k < i ==> ms[k].version < m.version
    requires forall k :: i <= k < |ms| ==> m.version < ms[k].version
    ensures Sorted(ms[..i] + [m] + ms[i..])
    ensures multiset(ms[..i] + [m] + ms[i..]) == multiset(ms) + multiset{m}
  {
    assert ms == ms[..i] + ms[i..];
  }

  /** The position that keeps the order when a migration is inserted. */
  method Place(ms: seq<Migration>, m: Migration) returns (sorted: seq<Migration>)
    requires Sorted(ms) && forall i :: 0 <= i < |ms| ==> ms[i].version != m.version
    ensures Sorted(sorted) && multiset(sorted) == multiset(ms) + multiset{m}
  {
    var i := |ms|;
    while i > 0 && m.version < ms[i - 1].version
      invariant 0 <= i <= |ms|
      invariant forall k :: i <= k < |ms| ==> m.version < ms[k].version
    {
      i := i - 1;
    }
    InsertKeepsSorted(ms, i, m);
    sorted := ms[..i] + [m] + ms[i..];
  }

  lemma NotYetPlaced(ms: seq<Migration>, n: nat, sorted: seq<Migration>)
    requires VersionsDistinct(ms) && n < |ms| && multiset(sorted) == multiset(ms[..n])
    ensures forall i :: 0 <= i < |sorted| ==> sorted[i].version != ms[n].version
  {
    forall i | 0 <= i < |sorted|
      ensures sorted[i].version != ms[n].version
    {
      assert sorted[i] in multiset(ms[..n]);
      assert sorted[i] in ms[..n];
    }
  }

  /** sort.Slice by version, on distinct versions. */
  method SortByVersion(ms: seq<Migration>) returns (sorted: seq<Migration>)
    requires VersionsDistinct(ms)
    ensures Sorted(sorted) && multiset(sorted) == multiset(ms)
  {
    sorted := [];
    for n := 0 to |ms|
      invariant Sorted(sorted) && multiset(sorted) == multiset(ms[..n])
    {
      NotYetPlaced(ms, n, sorted);
      assert ms[..n + 1] == ms[..n] + [ms[n]];
      sorted := Place(sorted, ms[n]);
    }
    assert ms[..|ms|] == ms;
  }

  lemma BadEntryIsNotLoadable(entries: seq<Entry>, i: nat)
    requires i < |entries| && !entries[i].Ignored? && !entries[i].File?
    ensures !Loadable(entries)
  {
    assert entries[i] in entries;
  }

  lemma AllGoodIsLoadable(entries: seq<Entry>)
    requires forall k :: 0 <= k < |entries| ==> entries[k].Ignored? || entries[k].File?
    requires Files(entries) != [] && VersionsDistinct(Files(entries))
    ensures Loadable(entries)
  {
  }

  lemma FilesGrow(entries: seq<Entry>, i: nat)
    requires i < |entries|
    ensures Files(entries[..i + 1]) == Files(entries[..i]) + if entries[i].File? then [entries[i].migration] else []
  {
    assert entries[..i + 1][..i] == entries[..i];
  }

  lemma VersionsGrow(found: seq<Migration>, m: Migration)
    requires VersionsDistinct(found) && m.version !in Versions(found)
    ensures VersionsDistinct(found + [m]) && Versions(found + [m]) == Versions(found) + {m.version}
  {
    VersionsAre(found);
    assert (found + [m])[..|found|] == found;
  }

  /** Whether the loop may go on after one more entry, with the versions seen so far. */
  predicate Accepts(versions: set<nat>, e: Entry) {
    e.Ignored? || (e.File? && e.migration.version !in versions)
  }

  function RefusalOf(versions: set<nat>, e: Entry): LoadError {
    match e
    case Unparsable(version) => if version in versions then DuplicateVersion(version) else ParseFailed
    case File(m) => DuplicateVersion(m.version)
    case _ => InvalidName
  }

  lemma RefusedIsNotLoadable(entries: seq<Entry>, i: nat)
    requires i < |entries| && !Accepts(Versions(Files(entries[..i])), entries[i])
    ensures !Loadable(entries)
  {
    if entries[i].File? {
      DuplicateIsNotLoadable(entries, i);
    } else {
      BadEntryIsNotLoadable(entries, i);
    }
  }

  lemma AcceptedGrows(entries: seq<Entry>, i: nat)
    requires i < |entries| && VersionsDistinct(Files(entries[..i])) &&
             Accepts(Versions(Files(entries[..i])), entries[i])
    ensures VersionsDistinct(Files(entries[..i + 1]))
    ensures entries[i].Ignored? ==> Files(entries[..i + 1]) == Files(entries[..i])
    ensures entries[i].File? ==>
              Files(entries[..i + 1]) == Files(entries[..i]) + [entries[i].migration] &&
              Versions(Files(entries[..i + 1])) == Versions(Files(entries[..i])) + {entries[i].migration.version}
  {
    FilesGrow(entries, i);
    if entries[i].File? {
      VersionsGrow(Files(entries[..i]), entries[i].migration);
    }
  }

  /** The loader succeeds exactly on well-named, parsable, distinct and non-empty sets of files, and
      returns those files in strictly ascending version order. */
  method LoadMigrations(entries: seq<Entry>) returns (r: Result<seq<Migration>, LoadError>)
    ensures r.Ok? <==> Loadable(entries)
    ensures r.Ok? ==> Sorted(r.value) && multiset(r.value) == multiset(Files(entries))
  {
    var found: seq<Migration> := [];
    var versions: set<nat> := {};
    var i := 0;
    while i < |entries|
      invariant 0 <= i <= |entries| && found == Files(entries[..i])
      invariant forall k :: 0 <= k < i ==> entries[k].Ignored? || entries[k].File?
      invariant VersionsDistinct(found) && versions == Versions(found)
    {
      if !Accepts(versions, entries[i]) {
        RefusedIsNotLoadable(entries, i);
        return Err(RefusalOf(versions, entries[i]));
      }
      AcceptedGrows(entries, i);
      if entries[i].File? {
        found := found + [entries[i].migration];
        versions := versions + {entries[i].migration.version};
      }
      i := i + 1;
    }
    assert entries[..i] == entries;
    if found == [] {
      return Err(NoMigrations);
    }
    AllGoodIsLoadable(entries);
    var sorted := SortByVersion(found);
    r := Ok(sorted);
  }

  lemma {:induction false} FilesPrefix(entries: seq<Entry>, n: nat)
    requires n <= |entries|
    ensures Files(entries[..n]) <= Files(entries)
    decreases |entries|
  {
    if n == |entries| {
      assert entries[..n] == entries;
    } else {
      FilesPrefix(entries[..|entries| - 1], n);
      assert entries[..|entries| - 1][..n] == entries[..n];
    }
  }

  lemma DuplicateIsNotLoadable(entries: seq<Entry>, i: nat)
    requires i < |entries| && entries[i].File?
    requires entries[i].migration.version in Versions(Files(entries[..i]))
    ensures !Loadable(entries)
  {
    var before := Files(entries[..i]);
    VersionsAre(before);
    var k :| 0 <= k < |before| && before[k].version == entries[i].migration.version;
    assert entries[..i + 1][..i] == entries[..i];
    FilesPrefix(entries, i + 1);
    var all := Files(entries);
    assert all[k] == before[k] && all[|before|] == entries[i].migration;
  }

  // ---------------------------------------------------------------- running

  class Database<!S> {
    var schema: S
    var ledger: Option<Ledger>

    constructor (schema: S)
      ensures this.schema == schema && ledger == None
    {
      this.schema := schema;
      ledger := None;
    }

    ghost function State(): Db<S>
      reads this
    {
      Db(schema, ledger)
    }
  }

  class Runner<!S> {
    const migrations: seq<Migration>
    const exec: Exec<S>

    constructor (migrations: seq<Migration>, exec: Exec<S>)
      requires Sorted(migrations)
      ensures this.migrations == migrations && this.exec == exec
    {
      this.migrations := migrations;
      this.exec := exec;
    }

    /** What the loop of Up has done after looking at the first i migrations. */
    static ghost predicate UpDone(exec: Exec<S>, start: S, ms: seq<Migration>, n: nat, i: nat,
                                  schema: S, ledger: Ledger, result: seq<Migration>)
      requires n <= i <= |ms|
    {
      Ups(exec, start, ms[n..i]) == Some(schema) && ledger == LedgerOf(ms[..i]) && result == ms[n..i]
    }

    static lemma UpsAppended(exec: Exec<S>, start: S, ms: seq<Migration>, m: Migration)
      ensures Ups(exec, start, ms + [m]) ==
              (var before := Ups(exec, start, ms); if before.None? then None else exec(before.value, m.up))
    {
      assert (ms + [m])[..|ms|] == ms;
    }

    static lemma LedgerAppended(ms: seq<Migration>, m: Migration)
      ensures LedgerOf(ms + [m]) == LedgerOf(ms)[m.version := RecordOf(m)]
    {
      assert (ms + [m])[..|ms|] == ms;
    }

    static lemma OneMoreUp(exec: Exec<S>, start: S, ms: seq<Migration>, n: nat, i: nat,
                           schema: S, ledger: Ledger, result: seq<Migration>)
      requires n <= i < |ms| && UpDone(exec, start, ms, n, i, schema, ledger, result)
      ensures var next := exec(schema, ms[i].up);
              if next.None? then Ups(exec, start, ms[n..]).None?
              else UpDone(exec, start, ms, n, i + 1, next.value, ledger[ms[i].version := RecordOf(ms[i])],
                          result + [ms[i]])
    {
      if exec(schema, ms[i].up).None? {
        assert ms[n..][..i - n] == ms[n..i] && ms[n..][i - n] == ms[i];
        UpsFail(exec, start, ms[n..], i - n);
      } else {
        assert ms[n..i + 1] == ms[n..i] + [ms[i]] && ms[..i + 1] == ms[..i] + [ms[i]];
        UpsAppended(exec, start, ms[n..i], ms[i]);
        LedgerAppended(ms[..i], ms[i]);
      }
    }

    /** The loop of Up on the transaction's copy of the schema. */
    static method ApplyMissing(exec: Exec<S>, ms: seq<Migration>, applied: Ledger, start: S, ghost n: nat)
        returns (done: Option<S>, ledger: Ledger, result: seq<Migration>)
      requires Sorted(ms) && n <= |ms| && applied == LedgerOf(ms[..n]) && AppliedBelow(ms, applied, n)
      ensures done == Ups(exec, start, ms[n..])
      ensures done.Some? ==> ledger == LedgerOf(ms) && result == ms[n..]
    {
      var schema := start;
      ledger, result := applied, [];
      var i := 0;
      while i < |ms|
        invariant 0 <= i <= |ms|
        invariant i < n ==> schema == start && ledger == applied && result == []
        invariant i >= n ==> UpDone(exec, start, ms, n, i, schema, ledger, result)
      {
        if ms[i].version !in applied {
          OneMoreUp(exec, start, ms, n, i, schema, ledger, result);
          var next := exec(schema, ms[i].up);
          if next.None? {
            return None, ledger, result;
          }
          schema := next.value;
          ledger := ledger[ms[i].version := RecordOf(ms[i])];
          result := result + [ms[i]];
        }
        i := i + 1;
      }
      assert ms[n..i] == ms[n..] && ms[..i] == ms;
      done := Some(schema);
    }

    static lemma {:induction false} UpsFail(exec: Exec<S>, schema: S, ms: seq<Migration>, i: nat)
      requires i < |ms|
      requires Ups(exec, schema, ms[..i]).Some? ==> exec(Ups(exec, schema, ms[..i]).value, ms[i].up).None?
      ensures Ups(exec, schema, ms).None?
      decreases |ms|
    {
      var n := |ms| - 1;
      if i < n {
        assert ms[..n][..i] == ms[..i];
        UpsFail(exec, schema, ms[..n], i);
      }
    }

    method Up(database: Database<S>) returns (r: Result<seq<Migration>, Failure>)
      requires Sorted(migrations)
      modifies database
      ensures (database.State(), r) == M.Up(exec, old(database.State()), migrations)
    {
      var applied := Stored(database.ledger);
      var error := ValidateHistory(migrations, applied);
      if error.Some? {
        return Err(BadHistory);
      }
      ghost var n := PrefixLength(migrations, applied);
      PrefixMatches(migrations, applied, n);
      var schema, ledger, result := ApplyMissing(exec, migrations, applied, database.schema, n);
      if schema.None? {
        return Err(SqlFailed);
      }
      database.schema, database.ledger := schema.value, Some(ledger);
      r := Ok(result);
    }

    /** The loop of DownAll on the transaction's copy of the schema. */
    static method RevertApplied(exec: Exec<S>, ms: seq<Migration>, applied: Ledger, start: S, ghost n: nat)
        returns (done: Option<S>, result: seq<Migration>)
      requires Sorted(ms) && n <= |ms| && AppliedBelow(ms, applied, n)
      ensures done == Downs(exec, start, ms[..n])
      ensures done.Some? ==> result == Reversed(ms[..n])
    {
      var schema := start;
      result := [];
      var i := |ms|;
      while i > 0
        invariant 0 <= i <= |ms|
        invariant i >= n ==> schema == start && result == []
        invariant i < n ==> Downs(exec, start, ms[..n]) == Downs(exec, schema, ms[..i])
        invariant i < n ==> result + Reversed(ms[..i]) == Reversed(ms[..n])
      {
        i := i - 1;
        if ms[i].version in applied {
          assert ms[..i + 1][..i] == ms[..i];
          var next := exec(schema, ms[i].down);
          if next.None? {
            return None, result;
          }
          schema := next.value;
          assert result + ([ms[i]] + Reversed(ms[..i])) == result + [ms[i]] + Reversed(ms[..i]);
          result := result + [ms[i]];
        }
      }
      assert ms[..0] == [];
      done := Some(schema);
    }

    method DownAll(database: Database<S>) returns (r: Result<seq<Migration>, Failure>)
      requires Sorted(migrations)
      modifies database
      ensures (database.State(), r) == M.DownAll(exec, old(database.State()), migrations)
    {
      if database.ledger.None? {
        return Err(SqlFailed);
      }
      var applied := database.ledger.value;
      var error := ValidateHistory(migrations, applied);
      if error.Some? {
        return Err(BadHistory);
      }
      ghost var n := PrefixLength(migrations, applied);
      PrefixMatches(migrations, applied, n);
      var schema, result := RevertApplied(exec, migrations, applied, database.schema, n);
      if schema.None? {
        return Err(SqlFailed);
      }
      // The ledger table is dropped after its rows were deleted one by one.
      database.schema, database.ledger := schema.value, None;
      r := Ok(result);
    }
  }
}
