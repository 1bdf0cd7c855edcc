/** Folders linked by parent ids. Every folder has at most one parent, but the links may form
    cycles. */
module FolderGraph {
  import opened Sequences
  import opened Wrappers

  /** Each folder's parent id, if it has one. */
  type Parents = map<string, Option<string>>

  predicate IsChild(g: Parents, parent: string, child: string) {
    child in g && g[child] == Some(parent)
  }

  /** path leads down from its first folder, each next one a child of the one before. */
  ghost predicate DownPath(g: Parents, path: seq<string>) {
    path != [] && forall i | 0 < i < |path| :: IsChild(g, path[i - 1], path[i])
  }

  ghost predicate PathFrom(g: Parents, top: string, path: seq<string>) {
    DownPath(g, path) && path[0] == top
  }

  /** x is its own proper descendant. */
  ghost predicate OnCycle(g: Parents, x: string) {
    exists path :: PathFrom(g, x, path) && |path| > 1 && Last(path) == x
  }

  /** Walking up from two occurrences of the same folder keeps meeting the same folders. */
  lemma {:induction false} UpTogether(g: Parents, path: seq<string>, i: nat, j: nat)
    requires DownPath(g, path) && i <= j < |path| && path[i] == path[j]
    ensures path[j - i] == path[0]
  {
    if i > 0 {
      assert IsChild(g, path[i - 1], path[i]) && IsChild(g, path[j - 1], path[j]);
      UpTogether(g, path, i - 1, j - 1);
    }
  }

  lemma RepeatGivesCycle(g: Parents, path: seq<string>, i: nat, j: nat)
    requires DownPath(g, path) && i < j < |path| && path[i] == path[j]
    ensures OnCycle(g, path[0])
  {
    UpTogether(g, path, i, j);
    var cycle := path[..j - i + 1];
    assert PathFrom(g, path[0], cycle) && Last(cycle) == path[0];
  }

  /** A path from a folder that is on no cycle never meets the same folder twice. */
  lemma PathIsSimple(g: Parents, path: seq<string>)
    requires DownPath(g, path) && !OnCycle(g, path[0])
    ensures NoDuplicates(path)
  {
    forall i, j | 0 <= i < j < |path| ensures path[i] != path[j] {
      if path[i] == path[j] {
        RepeatGivesCycle(g, path, i, j);
      }
    }
  }

  /** So such a path is no longer than the table is large. */
  lemma PathIsBounded(g: Parents, path: seq<string>)
    requires DownPath(g, path) && !OnCycle(g, path[0])
    ensures |path| <= |g| + 1
    ensures path[0] in g ==> |path| <= |g|
  {
    PathIsSimple(g, path);
    var rest := path[1..];
    forall x | x in rest ensures x in g {
      var i :| 0 <= i < |rest| && rest[i] == x;
      assert IsChild(g, path[i], path[i + 1]);
    }
    Pigeonhole(rest, g.Keys);
    if path[0] in g {
      assert path == [path[0]] + rest;
      Pigeonhole(path, g.Keys);
    }
  }

  /** Going round a cycle gives paths of any length. */
  lemma {:induction false} LongPath(g: Parents, x: string, n: nat)
    requires OnCycle(g, x)
    ensures exists path :: PathFrom(g, x, path) && Last(path) == x && |path| > n
  {
    var cycle :| PathFrom(g, x, cycle) && |cycle| > 1 && Last(cycle) == x;
    if n > 0 {
      LongPath(g, x, n - 1);
      var before :| PathFrom(g, x, before) && Last(before) == x && |before| > n - 1;
      var path := before + cycle[1..];
      forall i | 0 < i < |path| ensures IsChild(g, path[i - 1], path[i]) {
        if i >= |before| {
          assert path[i] == cycle[i - |before| + 1] && path[i - 1] == cycle[i - |before|];
        }
      }
      assert PathFrom(g, x, path) && Last(path) == x && |path| > n;
    }
  }

  ghost predicate Bounds(g: Parents, x: string, bound: nat) {
    forall path | PathFrom(g, x, path) :: |path| <= bound
  }

  /** A descent from x that follows every child ends exactly when x is on no cycle. */
  lemma DescentEndsUnlessOnCycle(g: Parents, x: string)
    ensures (exists bound :: Bounds(g, x, bound)) <==> !OnCycle(g, x)
  {
    if OnCycle(g, x) {
      forall bound: nat ensures !Bounds(g, x, bound) {
        LongPath(g, x, bound);
      }
    } else {
      assert Bounds(g, x, |g| + 1) by {
        forall path | PathFrom(g, x, path) ensures |path| <= |g| + 1 {
          PathIsBounded(g, path);
        }
      }
    }
  }

  /** Two paths from the same folder, off every cycle, that end in the same folder are equal. */
  lemma {:induction false} PathIsUnique(g: Parents, p: seq<string>, q: seq<string>)
    requires DownPath(g, p) && DownPath(g, q) && p[0] == q[0] && !OnCycle(g, p[0]) && Last(p) == Last(q)
    ensures p == q
    decreases |p|
  {
    if |p| == 1 || |q| == 1 {
    } else {
      assert IsChild(g, p[|p| - 2], p[|p| - 1]) && IsChild(g, q[|q| - 2], q[|q| - 1]);
      PathIsUnique(g, p[..|p| - 1], q[..|q| - 1]);
      assert p == p[..|p| - 1] + [Last(p)] && q == q[..|q| - 1] + [Last(q)];
    }
  }

  // ---- the folders below one ----

  ghost predicate Reaches(g: Parents, top: string, x: string) {
    exists path :: PathFrom(g, top, path) && Last(path) == x
  }

  /** top and everything below it. */
  ghost function Subtree(g: Parents, top: string): set<string> {
    set x | x in g.Keys + {top} && Reaches(g, top, x)
  }

  lemma TopInSubtree(g: Parents, top: string)
    ensures top in Subtree(g, top)
  {
    assert PathFrom(g, top, [top]) && Last([top]) == top;
  }

  ghost predicate IsChildList(g: Parents, parent: string, children: seq<string>) {
    NoDuplicates(children) && forall c :: c in children <==> IsChild(g, parent, c)
  }

  /** The folders below any of the given ones, these included. */
  ghost function SubtreeOfAll(g: Parents, tops: seq<string>): set<string> {
    set t, x | t in tops && x in Subtree(g, t) :: x
  }

  /** A subtree is its top together with the children's subtrees. */
  lemma SubtreeUnfolds(g: Parents, top: string, children: seq<string>)
    requires IsChildList(g, top, children)
    ensures Subtree(g, top) == {top} + SubtreeOfAll(g, children)
  {
    TopInSubtree(g, top);
    forall x | x in Subtree(g, top) ensures x in {top} + SubtreeOfAll(g, children) {
      var path :| PathFrom(g, top, path) && Last(path) == x;
      if |path| > 1 {
        assert IsChild(g, path[0], path[1]);
        var rest := path[1..];
        forall i | 0 < i < |rest| ensures IsChild(g, rest[i - 1], rest[i]) {
          assert IsChild(g, path[i], path[i + 1]);
        }
        assert PathFrom(g, path[1], rest) && Last(rest) == x;
        assert IsChild(g, path[|path| - 2], x);
        assert x in Subtree(g, path[1]);
      }
    }
    forall t, x | t in children && x in Subtree(g, t) ensures x in Subtree(g, top) {
      var path :| PathFrom(g, t, path) && Last(path) == x;
      assert Last([top] + path) == x;
    }
  }

  lemma SharedDescendant(g: Parents, top: string, c: string, d: string, x: string)
    requires !OnCycle(g, top) && IsChild(g, top, c) && IsChild(g, top, d)
    requires x in Subtree(g, c) && x in Subtree(g, d)
    ensures c == d
  {
    var p :| PathFrom(g, c, p) && Last(p) == x;
    var q :| PathFrom(g, d, q) && Last(q) == x;
    PathIsUnique(g, [top] + p, [top] + q);
    assert ([top] + p)[1] == ([top] + q)[1];
  }

  /** Below a folder that is on no cycle, different children have disjoint subtrees. */
  lemma ChildSubtreesApart(g: Parents, top: string, c: string, d: string)
    requires !OnCycle(g, top) && IsChild(g, top, c) && IsChild(g, top, d) && c != d
    ensures Subtree(g, c) !! Subtree(g, d)
  {
    forall x | x in Subtree(g, c) && x in Subtree(g, d) ensures false {
      SharedDescendant(g, top, c, d, x);
    }
  }

  lemma BelowChildGivesCycle(g: Parents, top: string, c: string)
    requires IsChild(g, top, c) && top in Subtree(g, c)
    ensures OnCycle(g, top)
  {
    var p :| PathFrom(g, c, p) && Last(p) == top;
    assert Last([top] + p) == top;
  }

  lemma ChildCycleGivesCycle(g: Parents, top: string, c: string)
    requires IsChild(g, top, c) && OnCycle(g, c)
    ensures OnCycle(g, top)
  {
    var p :| PathFrom(g, c, p) && |p| > 1 && Last(p) == c;
    assert IsChild(g, p[|p| - 2], c);
    var q := p[..|p| - 1];
    assert PathFrom(g, top, [top] + q) && Last([top] + q) == top;
  }

  /** Being on no cycle is inherited by the children, and they do not lead back up. */
  lemma TopNotBelow(g: Parents, top: string, c: string)
    requires !OnCycle(g, top) && IsChild(g, top, c)
    ensures top !in Subtree(g, c)
    ensures !OnCycle(g, c)
  {
    if top in Subtree(g, c) {
      BelowChildGivesCycle(g, top, c);
    }
    if OnCycle(g, c) {
      ChildCycleGivesCycle(g, top, c);
    }
  }

  lemma {:induction false} OffCycleBelow(g: Parents, path: seq<string>)
    requires DownPath(g, path) && !OnCycle(g, path[0])
    ensures !OnCycle(g, Last(path))
  {
    if |path| > 1 {
      var before := path[..|path| - 1];
      OffCycleBelow(g, before);
      assert IsChild(g, path[|path| - 2], path[|path| - 1]);
      TopNotBelow(g, Last(before), Last(path));
    }
  }
}
