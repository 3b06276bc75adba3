/** Sums over finite sets, and how they split along a partition. */
module Sums {
  import opened Basics

  ghost function SumOver<K>(s: set<K>, f: K -> int): int
    decreases |s|
  {
    if s == {} then 0
    else
      var x :| x in s;
      f(x) + SumOver(s - {x}, f)
  }

  /** Any element may be taken out first. */
  lemma {:induction false} SumStep<K>(s: set<K>, f: K -> int, x: K)
    requires x in s
    ensures SumOver(s, f) == f(x) + SumOver(s - {x}, f)
    decreases |s|
  {
    var y :| y in s && SumOver(s, f) == f(y) + SumOver(s - {y}, f);
    if y != x {
      SumStep(s - {y}, f, x);
      SumStep(s - {x}, f, y);
      assert s - {y} - {x} == s - {x} - {y};
    }
  }

  lemma {:induction false} SumJoin<K>(a: set<K>, b: set<K>, f: K -> int)
    requires a !! b
    ensures SumOver(a + b, f) == SumOver(a, f) + SumOver(b, f)
    decreases |a|
  {
    if a == {} {
      assert a + b == b;
    } else {
      var x := SomeMember(a);
      SumJoin(a - {x}, b, f);
      SumStep(a, f, x);
      SumStep(a + b, f, x);
      assert a + b - {x} == (a - {x}) + b;
    }
  }

  lemma {:induction false} SumAgree<K>(s: set<K>, f: K -> int, g: K -> int)
    requires forall x <- s :: f(x) == g(x)
    ensures SumOver(s, f) == SumOver(s, g)
    decreases |s|
  {
    if s != {} {
      var x := SomeMember(s);
      SumAgree(s - {x}, f, g);
      SumStep(s, f, x);
      SumStep(s, g, x);
    }
  }

  /** Disjoint parts that cover a set and nothing else. */
  ghost predicate Partitions<K(!new), J>(s: set<K>, keys: set<J>, part: J -> set<K>) {
    && (forall j, k :: j in keys && k in keys && j != k ==> part(j) !! part(k))
    && (forall x :: x in s <==> exists j <- keys :: x in part(j))
  }

  lemma PartitionRest<K(!new), J>(s: set<K>, keys: set<J>, part: J -> set<K>, j: J)
    requires Partitions(s, keys, part) && j in keys
    ensures Partitions(s - part(j), keys - {j}, part)
    ensures s == part(j) + (s - part(j))
  {
    forall x | x in part(j) ensures x in s {
    }
    forall x ensures x in s - part(j) <==> exists k <- keys - {j} :: x in part(k) {
      if x in s - part(j) {
        var k :| k in keys && x in part(k);
        assert k in keys - {j};
      }
    }
  }

  /** Summing part by part is summing the whole. */
  lemma {:induction false} SumPartition<K(!new), J>(s: set<K>, f: K -> int, keys: set<J>, part: J -> set<K>, total: J -> int)
    requires Partitions(s, keys, part)
    requires forall j <- keys :: total(j) == SumOver(part(j), f)
    ensures SumOver(s, f) == SumOver(keys, total)
    decreases |keys|
  {
    if keys == {} {
      assert s == {};
    } else {
      var j := SomeMember(keys);
      PartitionRest(s, keys, part, j);
      hide Partitions;
      SumPartition(s - part(j), f, keys - {j}, part, total);
      SumStep(keys, total, j);
      SumJoin(part(j), s - part(j), f);
    }
  }

  lemma {:induction false} SumBound<K>(s: set<K>, f: K -> int, g: K -> int)
    requires forall x <- s :: 0 <= f(x) <= g(x)
    ensures 0 <= SumOver(s, f) <= SumOver(s, g)
    decreases |s|
  {
    if s != {} {
      var x := SomeMember(s);
      SumBound(s - {x}, f, g);
      SumStep(s, f, x);
      SumStep(s, g, x);
    }
  }

  lemma {:induction false} SumOnes<K>(s: set<K>, f: K -> int)
    requires forall x <- s :: f(x) == 1
    ensures SumOver(s, f) == |s|
    decreases |s|
  {
    if s != {} {
      var x := SomeMember(s);
      SumOnes(s - {x}, f);
      SumStep(s, f, x);
    }
  }

  /** A sum of flags is the number of elements that carry one. */
  lemma {:induction false} SumFlags<K>(s: set<K>, f: K -> int, on: set<K>)
    requires on <= s && forall x <- s :: f(x) == if x in on then 1 else 0
    ensures SumOver(s, f) == |on|
    decreases |s|
  {
    if s != {} {
      var x := SomeMember(s);
      SumFlags(s - {x}, f, on - {x});
      SumStep(s, f, x);
      assert x in on ==> |on| == |on - {x}| + 1;
      assert x !in on ==> on - {x} == on;
    }
  }
}
