/**
 How many different elements a sequence has.
 */
module Counting {

  function Elems<T>(s: seq<T>): set<T> { set x | x in s }

  lemma ElemsCons<T>(s: seq<T>)
    requires s != []
    ensures Elems(s) == {s[0]} + Elems(s[1..])
  {
  }

  /** A sequence has at most as many different elements as places. */
  lemma {:induction false} ElemsAtMost<T>(s: seq<T>)
    ensures |Elems(s)| <= |s|
  {
    if s != [] {
      ElemsCons(s);
      ElemsAtMost(s[1..]);
    }
  }

  /** Exactly as many when none repeats. */
  lemma {:induction false} ElemsDistinct<T>(s: seq<T>)
    requires forall i, j | 0 <= i < j < |s| :: s[i] != s[j]
    ensures |Elems(s)| == |s|
  {
    if s != [] {
      ElemsCons(s);
      ElemsDistinct(s[1..]);
      assert s[0] !in Elems(s[1..]);
    }
  }

  lemma SubsetSize<T>(a: set<T>, b: set<T>)
    requires a <= b
    ensures |a| <= |b|
  {
    assert b == a + (b - a);
  }

  /** The integers from a up to b. */
  function Interval(a: int, b: int): (r: set<int>)
    requires a <= b
    ensures |r| == b - a && forall i :: i in r <==> a <= i < b
    decreases b - a
  {
    if a == b then {} else Interval(a, b - 1) + {b - 1}
  }

  /** The pairs of a rectangle. */
  function Grid(n: nat, m: nat): (r: set<(int, int)>)
    ensures |r| == n * m
    ensures forall x: (int, int) :: x in r <==> 0 <= x.0 < n && 0 <= x.1 < m
  {
    if n == 0 then {} else Grid(n - 1, m) + Row(n - 1, m)
  }

  function Row(b: int, m: nat): (r: set<(int, int)>)
    ensures |r| == m
    ensures forall x: (int, int) :: x in r <==> x.0 == b && 0 <= x.1 < m
  {
    if m == 0 then {} else Row(b, m - 1) + {(b, m - 1)}
  }

  /** What a map takes as values. */
  function Values<K, V>(m: map<K, V>): set<V> { set k | k in m :: m[k] }

  /** A map has at most as many values as keys. */
  lemma {:induction false} ValuesAtMost<K, V>(m: map<K, V>)
    ensures |Values(m)| <= |m|
    decreases |m|
  {
    if m == map[] {
      assert Values(m) == {};
    } else {
      var k :| k in m;
      var m1 := m - {k};
      ValuesAtMost(m1);
      forall v | v in Values(m) ensures v in Values(m1) + {m[k]} {
        var j :| j in m && m[j] == v;
        assert j == k || (j in m1 && m1[j] == v);
      }
      SubsetSize(Values(m), Values(m1) + {m[k]});
    }
  }

  /** How often an element occurs. */
  function Count<T(==)>(s: seq<T>, x: T): nat {
    if s == [] then 0 else Count(s[..|s| - 1], x) + if s[|s| - 1] == x then 1 else 0
  }

  lemma CountAppend<T>(s: seq<T>, x: T, c: T)
    ensures Count(s + [x], c) == Count(s, c) + if x == c then 1 else 0
  {
    assert (s + [x])[..|s|] == s;
  }

  lemma {:induction false} CountConcat<T>(a: seq<T>, b: seq<T>, x: T)
    ensures Count(a + b, x) == Count(a, x) + Count(b, x)
  {
    if b == [] {
      assert a + b == a;
    } else {
      var b' := b[..|b| - 1];
      CountConcat(a, b', x);
      assert (a + b)[..|a + b| - 1] == a + b';
    }
  }

  lemma {:induction false} CountMultiset<T>(s: seq<T>, x: T)
    ensures multiset(s)[x] == Count(s, x)
  {
    if s != [] {
      CountMultiset(s[..|s| - 1], x);
      assert s == s[..|s| - 1] + [s[|s| - 1]];
    }
  }
}
