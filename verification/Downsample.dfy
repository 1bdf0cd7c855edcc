/** Thinning a list of metrics points to a given number for a chart. */
module Downsample {
  import opened Arithmetic

  /** Math.round(i * step) with step = p / q: the nearest integer, halves up. */
  function Rounded(i: nat, p: nat, q: nat): nat
    requires q > 0
  {
    (2 * (i * p) + q) / (2 * q)
  }

  /** A step longer than 1 never rounds two successive multiples to the same index. */
  lemma RoundedIncreases(i: nat, p: nat, q: nat)
    requires 0 < q < p
    ensures Rounded(i, p, q) < Rounded(i + 1, p, q)
  {
    var a := 2 * (i * p) + q;
    assert (i + 1) * p == i * p + p;
    var k := a / (2 * q);
    assert a == k * (2 * q) + a % (2 * q);
    assert (k + 1) * (2 * q) == k * (2 * q) + 2 * q;
    QuotientAtLeast(2 * ((i + 1) * p) + q, 2 * q, k + 1);
  }

  /** index is the integer nearest to i * p / q, the higher one of two. */
  ghost predicate IsNearest(index: int, i: nat, p: nat, q: nat) {
    2 * (i * p) - q < 2 * (index * q) <= 2 * (i * p) + q
  }

  lemma RoundedIsNearest(i: nat, p: nat, q: nat)
    requires q > 0
    ensures IsNearest(Rounded(i, p, q), i, p, q)
  {
    var a := 2 * (i * p) + q;
    var k := a / (2 * q);
    assert a == k * (2 * q) + a % (2 * q);
    assert k * (2 * q) == 2 * (k * q);
  }

  lemma RoundedEnds(p: nat, q: nat)
    requires 0 < q
    ensures Rounded(0, p, q) == 0 && Rounded(q, p, q) == p
  {
    assert 2 * (q * p) + q == p * (2 * q) + q;
    QuotientAtLeast(2 * (q * p) + q, 2 * q, p);
    assert (p + 1) * (2 * q) == p * (2 * q) + 2 * q;
    QuotientBelow(2 * (q * p) + q, 2 * q, p + 1);
  }

  predicate Increasing(s: seq<int>) {
    forall i, j | 0 <= i < j < |s| :: s[i] < s[j]
  }

  /** The indices 0, Rounded(1), …, p. */
  function Kept(p: nat, q: nat, n: nat): (s: seq<int>)
    requires q > 0
    ensures |s| == n && forall i | 0 <= i < n :: s[i] == Rounded(i, p, q)
  {
    if n == 0 then [] else Kept(p, q, n - 1) + [Rounded(n - 1, p, q)]
  }

  lemma {:induction false} KeptIncreases(p: nat, q: nat, n: nat)
    requires 0 < q < p
    ensures Increasing(Kept(p, q, n))
  {
    if n > 1 {
      KeptIncreases(p, q, n - 1);
      RoundedIncreases(n - 2, p, q);
      var front := Kept(p, q, n - 1);
      assert front[n - 2] == Rounded(n - 2, p, q);
    }
  }

  lemma KeptAreNearest(p: nat, q: nat, n: nat)
    requires q > 0
    ensures forall i | 0 <= i < n :: IsNearest(Kept(p, q, n)[i], i, p, q)
  {
    forall i | 0 <= i < n ensures IsNearest(Kept(p, q, n)[i], i, p, q) {
      RoundedIsNearest(i, p, q);
    }
  }

  lemma EmptyTogether(s: seq<int>, t: seq<int>)
    requires forall x | x in s :: x in t
    ensures t == [] ==> s == []
  {
    if s != [] {
      var x := s[0];
      assert x in s;
      assert x in t;
    }
  }

  /** Only one increasing sequence has given elements. */
  lemma {:induction false} IncreasingIsUnique(s: seq<int>, t: seq<int>)
    requires Increasing(s) && Increasing(t) && forall x :: x in s <==> x in t
    ensures s == t
  {
    if s != [] && t != [] {
      var a, b := s[|s| - 1], t[|t| - 1];
      assert a in t && b in s;
      assert a == b;
      var front, other := s[..|s| - 1], t[..|t| - 1];
      assert s == front + [a] && t == other + [b];
      forall x ensures x in front <==> x in other {
        assert x in s <==> x in front || x == a;
        assert x in t <==> x in other || x == b;
        assert a !in front && b !in other;
      }
      IncreasingIsUnique(front, other);
    } else {
      EmptyTogether(s, t);
      EmptyTogether(t, s);
    }
  }

  /** The elements of a set in increasing order, as a numeric sort gives them. */
  method Sorted(indices: set<int>) returns (s: seq<int>)
    ensures Increasing(s) && forall x :: x in s <==> x in indices
  {
    var left := indices;
    s := [];
    while left != {}
      invariant Increasing(s) && (forall x :: x in indices <==> x in s || x in left)
      invariant forall k, y | 0 <= k < |s| && y in left :: s[k] < y
      decreases |left|
    {
      var least := Least(left);
      s, left := s + [least], left - {least};
    }
  }

  lemma SomeElement(s: set<int>)
    ensures s == {} || exists x :: x in s
  {
    if forall x :: x !in s {
      assert s == {};
    }
  }

  method Least(left: set<int>) returns (least: int)
    requires left != {}
    ensures least in left && forall x | x in left :: least <= x
  {
    SomeElement(left);
    least :| least in left;
    var rest := left - {least};
    while rest != {}
      invariant least in left && rest <= left && forall x | x in left && x !in rest :: least <= x
      decreases |rest|
    {
      SomeElement(rest);
      var x :| x in rest;
      if x < least {
        least := x;
      }
      rest := rest - {x};
    }
  }

  function Pick<T>(points: seq<T>, indices: seq<int>): (r: seq<T>)
    requires forall k | 0 <= k < |indices| :: 0 <= indices[k] < |points|
    ensures |r| == |indices| && forall k | 0 <= k < |r| :: r[k] == points[indices[k]]
  {
    if indices == [] then []
    else
      var n := |indices| - 1;
      Pick(points, indices[..n]) + [points[indices[n]]]
  }

  /** A list no longer than max is returned whole; otherwise the points at the indices given: the
      first, the last, and for max >= 2 the max - 2 rounded multiples of the step between them. */
  method DownsamplePoints<T>(points: seq<T>, max: nat) returns (result: seq<T>, ghost indices: seq<int>)
    ensures |points| <= max ==> result == points
    ensures |points| > max ==>
              && Increasing(indices) && |result| == |indices| > 0
              && (forall k | 0 <= k < |result| :: 0 <= indices[k] < |points| && result[k] == points[indices[k]])
              && indices[0] == 0 && indices[|indices| - 1] == |points| - 1
              && (max >= 2 ==> indices == Kept(|points| - 1, max - 1, max))
              && (max >= 2 ==>
                    |indices| == max && forall i | 0 <= i < max :: IsNearest(indices[i], i, |points| - 1, max - 1))
              && (|result| == max <==> max >= 2)
  {
    if |points| <= max {
      return points, [];
    }
    var chosen := {0, |points| - 1};
    var middle := max - 2;
    var i := 1;
    while i <= middle
      invariant 1 <= i && (i <= middle + 1 || (i == 1 && middle < 1))
      invariant forall x :: x in chosen <==> x == 0 || x == |points| - 1 || IsMiddle(x, |points| - 1, max - 1, i)
    {
      chosen := chosen + {Rounded(i, |points| - 1, middle + 1)};
      i := i + 1;
    }
    var sorted := Sorted(chosen);
    indices := sorted;
    ChosenIsKept(|points| - 1, max, sorted);
    if max >= 2 {
      KeptAreNearest(|points| - 1, max - 1, max);
    }
    result := Pick(points, sorted);
  }

  ghost predicate IsMiddle(x: int, p: nat, q: int, n: int) {
    exists i: nat :: 1 <= i < n && q > 0 && x == Rounded(i, p, q)
  }

  lemma ChosenIsKept(p: nat, max: nat, sorted: seq<int>)
    requires p + 1 > max && Increasing(sorted)
    requires forall x :: x in sorted <==> x == 0 || x == p || IsMiddle(x, p, max - 1, max - 1)
    ensures sorted != [] && sorted[0] == 0 && sorted[|sorted| - 1] == p
    ensures forall k | 0 <= k < |sorted| :: 0 <= sorted[k] <= p
    ensures max >= 2 ==> sorted == Kept(p, max - 1, max)
    ensures |sorted| == max <==> max >= 2
  {
    if max >= 2 {
      var q := max - 1;
      var kept := Kept(p, q, max);
      KeptIncreases(p, q, max);
      RoundedEnds(p, q);
      forall x ensures x in sorted <==> x in kept {
        if x in kept {
          var k :| 0 <= k < max && kept[k] == x;
          assert x == Rounded(k, p, q);
        }
        if IsMiddle(x, p, q, q) {
          var k: nat :| 1 <= k < q && x == Rounded(k, p, q);
          assert kept[k] == x;
        }
        assert kept[0] == 0 && kept[q] == p;
      }
      IncreasingIsUnique(sorted, kept);
    } else {
      var ends := if p == 0 then [0] else [0, p];
      IncreasingIsUnique(sorted, ends);
    }
  }
}
