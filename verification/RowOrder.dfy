/** ORDER BY over a finite set of rows: the identifiers of keyed rows in ascending key order. */
module RowOrder {

  /** Two leading sort columns, then the identifier that makes the order total. */
  datatype Key = Key(first: int, second: int, id: nat)

  predicate Less(a: Key, b: Key) {
    a.first < b.first ||
    (a.first == b.first && (a.second < b.second || (a.second == b.second && a.id < b.id)))
  }

  /** Each row's key carries the row's own identifier. */
  ghost predicate Keyed(keys: map<nat, Key>) {
    forall id :: id in keys ==> keys[id].id == id
  }

  ghost predicate IsLeast(keys: map<nat, Key>, least: nat) {
    least in keys && forall id :: id in keys && id != least ==> Less(keys[least], keys[id])
  }

  lemma {:induction false} LeastExists(keys: map<nat, Key>)
    requires Keyed(keys) && keys != map[]
    ensures exists least :: IsLeast(keys, least)
    decreases |keys|
  {
    var some :| some in keys;
    var rest := keys - {some};
    if rest == map[] {
      assert forall id :: id in keys && id != some ==> id in rest;
      assert IsLeast(keys, some);
    } else {
      LeastExists(rest);
      var m :| IsLeast(rest, m);
      assert forall id :: id in keys ==> id == some || id in rest;
      if Less(keys[m], keys[some]) {
        assert IsLeast(keys, m);
      } else {
        assert IsLeast(keys, some);
      }
    }
  }

  ghost function Least(keys: map<nat, Key>): (least: nat)
    requires Keyed(keys) && keys != map[]
    ensures IsLeast(keys, least)
  {
    LeastExists(keys);
    var least :| IsLeast(keys, least);
    least
  }

  /** The identifiers in ascending key order. */
  ghost function Ordered(keys: map<nat, Key>): (order: seq<nat>)
    requires Keyed(keys)
    decreases |keys|
  {
    if keys == map[] then []
    else
      var m := Least(keys);
      [m] + Ordered(keys - {m})
  }

  ghost predicate Ascending(keys: map<nat, Key>, order: seq<nat>) {
    (forall i :: 0 <= i < |order| ==> order[i] in keys) &&
    (forall i, j :: 0 <= i < j < |order| ==> Less(keys[order[i]], keys[order[j]]))
  }

  ghost function Members(order: seq<nat>): set<nat> { set id | id in order }

  ghost predicate Distinct(order: seq<nat>) {
    forall i, j :: 0 <= i < j < |order| ==> order[i] != order[j]
  }

  lemma {:induction false} OrderedMembers(keys: map<nat, Key>)
    requires Keyed(keys)
    ensures Members(Ordered(keys)) == keys.Keys && |Ordered(keys)| == |keys|
    decreases |keys|
  {
    if keys != map[] {
      var m := Least(keys);
      var rest := keys - {m};
      OrderedMembers(rest);
      assert keys.Keys == rest.Keys + {m};
      assert Members([m] + Ordered(rest)) == {m} + Members(Ordered(rest));
    }
  }

  lemma ConsAscending(keys: map<nat, Key>, m: nat, tail: seq<nat>)
    requires Keyed(keys) && IsLeast(keys, m)
    requires Ascending(keys - {m}, tail)
    ensures Ascending(keys, [m] + tail)
  {
    var order := [m] + tail;
    forall i, j | 0 <= i < j < |order|
      ensures order[i] in keys && order[j] in keys && Less(keys[order[i]], keys[order[j]])
    {
      assert order[j] == tail[j - 1] && tail[j - 1] in keys - {m};
      if i > 0 {
        assert order[i] == tail[i - 1];
      }
    }
  }

  /** Ordered lists every identifier once, in strictly ascending key order. */
  lemma {:induction false} OrderedIsSorted(keys: map<nat, Key>)
    requires Keyed(keys)
    ensures Ascending(keys, Ordered(keys)) && Distinct(Ordered(keys))
    ensures |Ordered(keys)| == |keys| && Members(Ordered(keys)) == keys.Keys
    decreases |keys|
  {
    OrderedMembers(keys);
    if keys != map[] {
      var m := Least(keys);
      OrderedIsSorted(keys - {m});
      ConsAscending(keys, m, Ordered(keys - {m}));
    }
  }

  /** A row that precedes every other one is the head of the order. */
  lemma LeastIsHead(keys: map<nat, Key>, least: nat)
    requires Keyed(keys) && IsLeast(keys, least)
    ensures Ordered(keys) == [least] + Ordered(keys - {least})
  {
    assert Least(keys) == least;
  }

  lemma MembersSplit(m: nat, tail: seq<nat>)
    ensures Members([m] + tail) == {m} + Members(tail)
  {
  }

  /** Removing the first n identifiers leaves the order of the others. */
  lemma {:induction false} OrderedDrop(keys: map<nat, Key>, n: nat)
    requires Keyed(keys) && n <= |Ordered(keys)|
    ensures Ordered(keys - Members(Ordered(keys)[..n])) == Ordered(keys)[n..]
    decreases n
  {
    if n == 0 {
      assert keys - Members(Ordered(keys)[..0]) == keys;
    } else {
      var m := Least(keys);
      var tail := Ordered(keys - {m});
      assert Ordered(keys) == [m] + tail;
      OrderedDrop(keys - {m}, n - 1);
      assert ([m] + tail)[..n] == [m] + tail[..n - 1] && ([m] + tail)[n..] == tail[n - 1..];
      MembersSplit(m, tail[..n - 1]);
      assert keys - Members([m] + tail[..n - 1]) == (keys - {m}) - Members(tail[..n - 1]);
    }
  }

  /** One scan for the least key. */
  method First(keys: map<nat, Key>) returns (least: nat)
    requires Keyed(keys) && keys != map[]
    ensures IsLeast(keys, least) && least == Least(keys)
  {
    var todo := keys.Keys;
    least :| least in todo;
    todo := todo - {least};
    while todo != {}
      invariant todo <= keys.Keys && least in keys && least !in todo
      invariant forall id :: id in keys && id !in todo && id != least ==> Less(keys[least], keys[id])
      decreases todo
    {
      var next :| next in todo;
      if Less(keys[next], keys[least]) {
        least := next;
      }
      todo := todo - {next};
    }
  }

  /** LIMIT on an ordered result. */
  function Limited(order: seq<nat>, limit: nat): seq<nat> {
    if |order| <= limit then order else order[..limit]
  }

  lemma LimitedIsAscending(keys: map<nat, Key>, limit: nat)
    requires Keyed(keys)
    ensures var rows := Limited(Ordered(keys), limit);
            Members(rows) <= keys.Keys && Distinct(rows) && Ascending(keys, rows) &&
            |rows| == (if |keys| <= limit then |keys| else limit)
  {
    OrderedIsSorted(keys);
    var rows := Limited(Ordered(keys), limit);
    forall i | 0 <= i < |rows|
      ensures rows[i] == Ordered(keys)[i]
    {
    }
  }

  lemma LimitReached(all: seq<nat>, order: seq<nat>, tail: seq<nat>, limit: nat)
    requires all == order + tail && |order| <= limit && (|order| == limit || tail == [])
    ensures order == Limited(all, limit)
  {
    if tail == [] {
      assert all == order;
    } else {
      assert all[..|order|] == order;
    }
  }

  /** ORDER BY ... LIMIT: repeated scans for the least of what remains. */
  method Select(keys: map<nat, Key>, limit: nat) returns (order: seq<nat>)
    requires Keyed(keys)
    ensures order == Limited(Ordered(keys), limit)
  {
    order := [];
    var rest := keys;
    while |order| < limit && rest != map[]
      invariant |order| <= limit && Keyed(rest) && Ordered(keys) == order + Ordered(rest)
      decreases |rest|
    {
      var least := First(rest);
      LeastIsHead(rest, least);
      assert order + Ordered(rest) == order + [least] + Ordered(rest - {least});
      order := order + [least];
      rest := rest - {least};
    }
    LimitReached(Ordered(keys), order, Ordered(rest), limit);
  }
}
