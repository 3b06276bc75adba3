/** Failure-carrying values and small set helpers shared by every other module. */
module Basics {

  datatype Option<+T> = None | Some(value: T)

  /** The source raises a coded error; the model returns it. */
  datatype Result<+T, +E> = Ok(value: T) | Err(error: E)

  /** The members of an optional value: none or one. */
  function Members<T(==)>(o: Option<T>): set<T> {
    match o
    case None => {}
    case Some(v) => {v}
  }

  /** The elements of a sequence, as a set. */
  function Elements<T(==)>(s: seq<T>): set<T> {
    set x | x in s
  }

  /** No element occurs twice. */
  ghost predicate Distinct<T>(s: seq<T>) {
    forall i, j :: 0 <= i < j < |s| ==> s[i] != s[j]
  }

  lemma SomeMember<T>(s: set<T>) returns (x: T)
    requires s != {}
    ensures x in s
  {
    x :| x in s;
  }

  lemma SomeCommon<T>(a: set<T>, b: set<T>) returns (x: T)
    requires !(a !! b)
    ensures x in a && x in b
  {
    x :| x in a && x in b;
  }

  lemma SomeMissing<T>(a: set<T>, b: set<T>) returns (x: T)
    requires !(a <= b)
    ensures x in a && x !in b
  {
    x :| x in a && x !in b;
  }

  /** Some key a map sends to a value. */
  ghost function KeyFor<K, V>(m: map<K, V>, v: V): (k: K)
    requires exists k <- m :: m[k] == v
    ensures k in m && m[k] == v
  {
    var k :| k in m && m[k] == v;
    k
  }

  lemma UpdateAfterUnion<K, V>(m: map<K, V>, a: map<K, V>, k: K, v: V)
    ensures (m + a)[k := v] == m + a[k := v]
  {
  }

  lemma UnionAssociative<K, V>(m: map<K, V>, a: map<K, V>, b: map<K, V>)
    ensures (m + a) + b == m + (a + b)
  {
  }

  /** The first identifier in order. */
  function First(s: set<int>): (a: int)
    requires s != {}
    ensures a in s && forall b <- s :: a <= b
  {
    LeastExists(s);
    var a :| a in s && forall b <- s :: a <= b;
    a
  }

  lemma {:induction false} LeastExists(s: set<int>)
    requires s != {}
    ensures exists a <- s :: forall b <- s :: a <= b
  {
    var a := Least(s);
  }

  lemma {:induction false} Least(s: set<int>) returns (a: int)
    requires s != {}
    ensures a in s && forall b <- s :: a <= b
    decreases |s|
  {
    var x := SomeMember(s);
    var rest := s - {x};
    a := x;
    if rest != {} {
      var y := Least(rest);
      a := if x < y then x else y;
    }
    forall b | b in s ensures a <= b {
      assert b == x || b in rest;
    }
  }
}
