/** Stable sorting, and why two stable sorts in a row give the newest-first order. */
module Sorting {
  import opened Basics

  function Insert<T>(x: T, s: seq<T>, le: (T, T) -> bool): (r: seq<T>)
    ensures multiset(r) == multiset(s) + multiset{x}
    ensures |r| == |s| + 1
  {
    if s == [] || le(x, s[0]) then [x] + s
    else
      assert s == [s[0]] + s[1..];
      [s[0]] + Insert(x, s[1..], le)
  }

  /** A stable sort: equal items keep their order. */
  function StableSort<T>(s: seq<T>, le: (T, T) -> bool): (r: seq<T>)
    ensures multiset(r) == multiset(s)
    ensures |r| == |s|
  {
    if s == [] then []
    else
      assert s == [s[0]] + s[1..];
      Insert(s[0], StableSort(s[1..], le), le)
  }

  /** Every item is related to every later one. */
  ghost predicate Ordered<T>(s: seq<T>, le: (T, T) -> bool) {
    forall i, j :: 0 <= i < j < |s| ==> le(s[i], s[j])
  }

  ghost predicate TotalPreorder<T(!new)>(le: (T, T) -> bool) {
    && (forall a, b :: le(a, b) || le(b, a))
    && (forall a, b, c :: le(a, b) && le(b, c) ==> le(a, c))
  }

  lemma SameItems<T>(s: seq<T>, t: seq<T>, x: T)
    requires multiset(s) == multiset(t)
    ensures x in s <==> x in t
  {
    assert x in s <==> x in multiset(s);
  }

  lemma {:induction false} InsertOrders<T(!new)>(x: T, s: seq<T>, le: (T, T) -> bool)
    requires TotalPreorder(le) && Ordered(s, le)
    ensures Ordered(Insert(x, s, le), le)
  {
    if s == [] {
    } else if le(x, s[0]) {
      forall k | 0 <= k < |s| ensures le(x, s[k]) {
        if k > 0 { assert le(s[0], s[k]); }
      }
    } else {
      InsertOrders(x, s[1..], le);
      var rest := Insert(x, s[1..], le);
      forall k | 0 <= k < |rest| ensures le(s[0], rest[k]) {
        assert rest[k] in multiset(rest);
        if rest[k] != x {
          assert rest[k] in s[1..];
          var i :| 0 <= i < |s[1..]| && s[1..][i] == rest[k];
          assert le(s[0], s[i + 1]);
        }
      }
    }
  }

  lemma {:induction false} SortOrders<T(!new)>(s: seq<T>, le: (T, T) -> bool)
    requires TotalPreorder(le)
    ensures Ordered(StableSort(s, le), le)
  {
    if s != [] {
      SortOrders(s[1..], le);
      InsertOrders(s[0], StableSort(s[1..], le), le);
    }
  }

  // ------------------------------------------------------------ newest first

  predicate ByIdentifier<T>(id: T -> int, a: T, b: T) {
    id(a) <= id(b)
  }

  predicate ByDate<T>(at: T -> int, a: T, b: T) {
    at(a) >= at(b)
  }

  /** The newest first; among items of one date, the smallest identifier first. */
  predicate Precedes<T>(id: T -> int, at: T -> int, a: T, b: T) {
    at(a) > at(b) || (at(a) == at(b) && id(a) < id(b))
  }

  /** The order the program obtains with two stable sorts, the second one by date in reverse. */
  function NewestFirst<T>(s: seq<T>, id: T -> int, at: T -> int): (r: seq<T>)
    ensures multiset(r) == multiset(s)
  {
    StableSort(StableSort(s, (a, b) => ByIdentifier(id, a, b)), (a, b) => ByDate(at, a, b))
  }

  ghost predicate UniqueIds<T>(s: seq<T>, id: T -> int) {
    forall i, j :: 0 <= i < j < |s| ==> id(s[i]) != id(s[j])
  }

  lemma UniqueDistinct<T>(s: seq<T>, id: T -> int)
    requires UniqueIds(s, id)
    ensures Distinct(s)
  {
    forall i, j | 0 <= i < j < |s| ensures s[i] != s[j] {
      assert id(s[i]) != id(s[j]);
    }
  }

  lemma {:induction false} DistinctCounts<T>(s: seq<T>)
    requires Distinct(s)
    ensures forall x :: multiset(s)[x] <= 1
  {
    if s != [] {
      assert s == [s[0]] + s[1..];
      DistinctCounts(s[1..]);
      assert s[0] !in s[1..];
      assert multiset(s)[s[0]] == 1 + multiset(s[1..])[s[0]];
    }
  }

  lemma CountsDistinct<T>(s: seq<T>)
    requires forall x :: multiset(s)[x] <= 1
    ensures Distinct(s)
  {
    forall i, j | 0 <= i < j < |s| ensures s[i] != s[j] {
      assert s == s[..j] + [s[j]] + s[j + 1..];
      assert multiset(s) == multiset(s[..j]) + multiset{s[j]} + multiset(s[j + 1..]);
      assert s[i] in multiset(s[..j]) by { assert s[..j][i] == s[i]; }
      assert multiset(s)[s[j]] == multiset(s[..j])[s[j]] + 1 + multiset(s[j + 1..])[s[j]] <= 1;
    }
  }

  lemma UniquePermuted<T>(s: seq<T>, t: seq<T>, id: T -> int)
    requires UniqueIds(s, id) && multiset(s) == multiset(t)
    ensures UniqueIds(t, id)
  {
    UniqueDistinct(s, id);
    DistinctCounts(s);
    CountsDistinct(t);
    forall i, j | 0 <= i < j < |t| ensures id(t[i]) != id(t[j]) {
      SameItems(s, t, t[i]);
      SameItems(s, t, t[j]);
      var a :| 0 <= a < |s| && s[a] == t[i];
      var b :| 0 <= b < |s| && s[b] == t[j];
      assert a != b;
      if a < b { assert id(s[a]) != id(s[b]); } else { assert id(s[b]) != id(s[a]); }
    }
  }

  /** Sorting by date a list ordered by identifier leaves it newest first. */
  lemma {:induction false} DateAfterIdentifier<T(!new)>(s: seq<T>, id: T -> int, at: T -> int)
    requires Ordered(s, (a, b) => id(a) < id(b))
    ensures Ordered(StableSort(s, (a, b) => ByDate(at, a, b)), (a, b) => Precedes(id, at, a, b))
  {
    if s != [] {
      var byDate := (a, b) => ByDate(at, a, b);
      var rest := StableSort(s[1..], byDate);
      DateAfterIdentifier(s[1..], id, at);
      forall k | 0 <= k < |rest| ensures id(s[0]) < id(rest[k]) {
        SameItems(s[1..], rest, rest[k]);
        var i :| 0 <= i < |s[1..]| && s[1..][i] == rest[k];
        assert id(s[0]) < id(s[i + 1]);
      }
      PlaceByDate(s[0], rest, id, at);
    }
  }

  lemma {:induction false} PlaceByDate<T(!new)>(x: T, s: seq<T>, id: T -> int, at: T -> int)
    requires Ordered(s, (a, b) => Precedes(id, at, a, b))
    requires forall k :: 0 <= k < |s| ==> id(x) < id(s[k])
    ensures Ordered(Insert(x, s, (a, b) => ByDate(at, a, b)), (a, b) => Precedes(id, at, a, b))
  {
    if s == [] {
    } else if at(x) >= at(s[0]) {
      forall k | 0 <= k < |s| ensures Precedes(id, at, x, s[k]) {
        if k > 0 { assert Precedes(id, at, s[0], s[k]); }
      }
    } else {
      PlaceByDate(x, s[1..], id, at);
      var rest := Insert(x, s[1..], (a, b) => ByDate(at, a, b));
      forall k | 0 <= k < |rest| ensures Precedes(id, at, s[0], rest[k]) {
        assert rest[k] in multiset(rest);
        if rest[k] != x {
          assert rest[k] in s[1..];
          var i :| 0 <= i < |s[1..]| && s[1..][i] == rest[k];
          assert Precedes(id, at, s[0], s[i + 1]);
        }
      }
    }
  }

  /** Sorting items of distinct identifiers by identifier orders them strictly. */
  lemma IdentifierOrdered<T(!new)>(s: seq<T>, id: T -> int)
    requires UniqueIds(s, id)
    ensures Ordered(StableSort(s, (a, b) => ByIdentifier(id, a, b)), (a, b) => id(a) < id(b))
  {
    var byId := (a, b) => ByIdentifier(id, a, b);
    var first := StableSort(s, byId);
    SortOrders(s, byId);
    UniquePermuted(s, first, id);
    forall i, j | 0 <= i < j < |first| ensures id(first[i]) < id(first[j]) {
      assert byId(first[i], first[j]);
    }
  }

  /** The two stable sorts order the items strictly, newest first. */
  lemma NewestFirstOrdered<T(!new)>(s: seq<T>, id: T -> int, at: T -> int)
    requires UniqueIds(s, id)
    ensures Ordered(NewestFirst(s, id, at), (a, b) => Precedes(id, at, a, b))
  {
    IdentifierOrdered(s, id);
    DateAfterIdentifier(StableSort(s, (a, b) => ByIdentifier(id, a, b)), id, at);
  }

  lemma TailsMatch<T>(s: seq<T>, t: seq<T>)
    requires s != [] && t != [] && s[0] == t[0] && multiset(s) == multiset(t)
    ensures multiset(s[1..]) == multiset(t[1..])
  {
    assert s == [s[0]] + s[1..] && t == [t[0]] + t[1..];
    assert multiset(s[1..]) == multiset(s) - multiset{s[0]};
    assert multiset(t[1..]) == multiset(t) - multiset{t[0]};
  }

  lemma SameHead<T>(s: seq<T>, t: seq<T>, id: T -> int, at: T -> int)
    requires multiset(s) == multiset(t) && s != []
    requires Ordered(s, (a, b) => Precedes(id, at, a, b)) && Ordered(t, (a, b) => Precedes(id, at, a, b))
    ensures t != [] && s[0] == t[0]
  {
    assert |s| == |multiset(s)| == |multiset(t)| == |t|;
    SameItems(s, t, s[0]);
    SameItems(s, t, t[0]);
    var i :| 0 <= i < |t| && t[i] == s[0];
    var j :| 0 <= j < |s| && s[j] == t[0];
    forall k | 0 < k < |t| ensures Precedes(id, at, t[0], t[k]) {
    }
    forall k | 0 < k < |s| ensures Precedes(id, at, s[0], s[k]) {
    }
  }

  /** Two newest-first arrangements of the same items are equal. */
  lemma {:induction false} NewestFirstUnique<T>(s: seq<T>, t: seq<T>, id: T -> int, at: T -> int)
    requires multiset(s) == multiset(t)
    requires Ordered(s, (a, b) => Precedes(id, at, a, b)) && Ordered(t, (a, b) => Precedes(id, at, a, b))
    ensures s == t
  {
    if s == [] {
      assert |t| == |multiset(t)| == 0;
    } else {
      SameHead(s, t, id, at);
      TailsMatch(s, t);
      assert s == [s[0]] + s[1..] && t == [t[0]] + t[1..];
      NewestFirstUnique(s[1..], t[1..], id, at);
    }
  }

  /** In a newest-first list, the items that precede the one at a position are those before it. */
  lemma RankIsPosition<T>(s: seq<T>, id: T -> int, at: T -> int, i: nat)
    requires Ordered(s, (a, b) => Precedes(id, at, a, b)) && i < |s|
    ensures |set x | x in s && Precedes(id, at, x, s[i])| == i
  {
    var before := set x | x in s && Precedes(id, at, x, s[i]);
    forall x ensures x in before <==> x in s[..i] {
      if x in before {
        var k :| 0 <= k < |s| && s[k] == x;
        assert k > i ==> Precedes(id, at, s[i], s[k]);
      }
      if x in s[..i] {
        var k :| 0 <= k < i && s[k] == x;
        assert Precedes(id, at, s[k], s[i]);
      }
    }
    assert before == Elements(s[..i]);
    assert Distinct(s[..i]) by {
      forall a, b | 0 <= a < b < i ensures s[a] != s[b] { assert Precedes(id, at, s[a], s[b]); }
    }
    DistinctSize(s[..i]);
  }

  lemma {:induction false} DistinctSize<T>(s: seq<T>)
    requires Distinct(s)
    ensures |Elements(s)| == |s|
  {
    if s == [] {
      assert Elements(s) == {};
    } else {
      var last := |s| - 1;
      DistinctSize(s[..last]);
      assert s[last] !in Elements(s[..last]);
      assert Elements(s) == Elements(s[..last]) + {s[last]};
    }
  }
}
