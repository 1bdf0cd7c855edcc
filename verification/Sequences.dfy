/** Sequences, above all those without repetitions. */
module Sequences {

  function Last<T>(s: seq<T>): T
    requires s != []
  {
    s[|s| - 1]
  }

  function Repeat<T>(x: T, n: nat): (s: seq<T>)
    ensures |s| == n && forall i | 0 <= i < n :: s[i] == x
  {
    seq(n, _ => x)
  }

  predicate NoDuplicates<T(==)>(s: seq<T>) {
    forall i, j | 0 <= i < j < |s| :: s[i] != s[j]
  }

  function Elements<T>(s: seq<T>): set<T> {
    set x | x in s
  }

  lemma {:induction false} ElementCount<T>(s: seq<T>)
    requires NoDuplicates(s)
    ensures |Elements(s)| == |s|
  {
    if s != [] {
      var rest := s[1..];
      ElementCount(rest);
      assert Elements(s) == {s[0]} + Elements(rest) by {
        assert s == [s[0]] + rest;
      }
    }
  }

  /** A repetition-free sequence over a finite set is no longer than the set is large. */
  lemma Pigeonhole<T>(s: seq<T>, bound: set<T>)
    requires NoDuplicates(s) && Elements(s) <= bound
    ensures |s| <= |bound|
  {
    ElementCount(s);
    SubsetCount(Elements(s), bound);
  }

  lemma SubsetCount<T>(a: set<T>, b: set<T>)
    requires a <= b
    ensures |a| <= |b|
  {
    assert b == a + (b - a);
  }

  lemma MultiplicityOne<T>(s: seq<T>, x: T)
    requires NoDuplicates(s)
    ensures multiset(s)[x] == if x in s then 1 else 0
  {
    if s != [] {
      MultiplicityOne(s[1..], x);
      assert s == [s[0]] + s[1..];
      assert multiset(s) == multiset{s[0]} + multiset(s[1..]);
    }
  }

  /** Two repetition-free sequences with the same elements are permutations of each other. */
  lemma SameElements<T>(s: seq<T>, t: seq<T>)
    requires NoDuplicates(s) && NoDuplicates(t)
    requires forall x :: x in s <==> x in t
    ensures multiset(s) == multiset(t)
    ensures |s| == |t|
  {
    forall x ensures multiset(s)[x] == multiset(t)[x] {
      MultiplicityOne(s, x);
      MultiplicityOne(t, x);
    }
    assert |multiset(s)| == |s| && |multiset(t)| == |t|;
  }

  lemma Associates<T>(a: seq<T>, b: seq<T>, c: seq<T>)
    ensures a + b + c == a + (b + c)
  {
  }
}
