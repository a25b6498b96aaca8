/** Counting arguments on sequences of distinct numbers. */
module Pigeonhole {

  ghost predicate Distinct<T(!new)>(s: seq<T>) {
    forall i, j :: 0 <= i < j < |s| ==> s[i] != s[j]
  }

  ghost function Elements<T>(s: seq<T>): set<T> { set x | x in s }

  lemma {:induction false} DistinctCount<T(!new)>(s: seq<T>)
    requires Distinct(s)
    ensures |Elements(s)| == |s|
  {
    if s != [] {
      var front, last := s[..|s| - 1], s[|s| - 1];
      DistinctCount(front);
      assert s == front + [last];
      assert Elements(s) == Elements(front) + {last};
      assert last !in front;
    }
  }

  ghost function Below(n: nat): (r: set<int>)
    ensures forall x :: x in r <==> 0 <= x < n
    ensures |r| == n
  {
    if n == 0 then {} else Below(n - 1) + {n - 1}
  }

  lemma {:induction false} SubsetCount<T>(a: set<T>, b: set<T>)
    requires a <= b
    ensures |a| <= |b|
    decreases a
  {
    if a != {} {
      var x :| x in a;
      SubsetCount(a - {x}, b - {x});
    }
  }

  /** There are at most n distinct numbers below n. */
  lemma DistinctBound(s: seq<int>, n: nat)
    requires Distinct(s) && forall i :: 0 <= i < |s| ==> 0 <= s[i] < n
    ensures |s| <= n
  {
    DistinctCount(s);
    SubsetCount(Elements(s), Below(n));
  }

  /** n distinct numbers below n are all of them. */
  lemma DistinctFull(s: seq<int>, n: nat, x: nat)
    requires Distinct(s) && |s| == n && forall i :: 0 <= i < |s| ==> 0 <= s[i] < n
    requires x < n
    ensures x in s
  {
    if x !in s {
      DistinctBound(s + [x], n);
    }
  }

  lemma {:induction false} ElementsBound<T(!new)>(s: seq<T>)
    ensures |Elements(s)| <= |s|
  {
    if s != [] {
      ElementsBound(s[1..]);
      assert s == [s[0]] + s[1..];
      assert Elements(s) == {s[0]} + Elements(s[1..]);
    }
  }

  /** A sequence with as many elements as places repeats none. */
  lemma CountDistinct<T(!new)>(s: seq<T>)
    requires |Elements(s)| == |s|
    ensures Distinct(s)
  {
    forall i, j | 0 <= i < j < |s| ensures s[i] != s[j] {
      if s[i] == s[j] {
        var r := s[..j] + s[j + 1..];
        assert s == s[..j] + [s[j]] + s[j + 1..];
        assert r[i] == s[j];
        assert Elements(r) == Elements(s);
        ElementsBound(r);
      }
    }
  }

  /** A permutation of distinct elements has distinct elements. */
  lemma PermutedDistinct<T(!new)>(s: seq<T>, t: seq<T>)
    requires Distinct(s) && multiset(s) == multiset(t)
    ensures Distinct(t)
  {
    assert |s| == |multiset(s)| == |multiset(t)| == |t|;
    DistinctCount(s);
    forall x ensures x in s <==> x in t {
      assert x in multiset(s) <==> x in multiset(t);
    }
    assert Elements(s) == Elements(t);
    CountDistinct(t);
  }

  /** A sequence of n numbers in which all numbers below n occur repeats none. */
  lemma SurjectiveDistinct(s: seq<int>)
    requires forall n :: 0 <= n < |s| ==> n in s
    ensures Distinct(s)
  {
    SubsetCount(Below(|s|), Elements(s));
    ElementsBound(s);
    CountDistinct(s);
  }
}
