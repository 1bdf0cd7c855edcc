/** Listing a folder with everything nested in it for an export: a breadth-first search over the
    folders a user owns. The parent links may form cycles. */
module FolderTree {
  import opened Sequences
  import opened FolderGraph
  import opened Wrappers

  datatype OwnedFolder = OwnedFolder(owner: string, parent: Option<string>)

  type OwnedTable = map<string, OwnedFolder>

  /** The parent links of the folders that belong to user. */
  function OwnedLinks(t: OwnedTable, user: string): Parents {
    map x | x in t && t[x].owner == user :: t[x].parent
  }

  /** A path of n links leads from top down to x. */
  ghost predicate ReachesIn(g: Parents, top: string, x: string, n: nat) {
    exists path :: PathFrom(g, top, path) && Last(path) == x && |path| == n + 1
  }

  /** The shortest path from top down to x has n links. */
  ghost predicate IsDistance(g: Parents, top: string, x: string, n: nat) {
    ReachesIn(g, top, x, n) && forall m: nat | m < n :: !ReachesIn(g, top, x, m)
  }

  lemma ReachesTop(g: Parents, top: string)
    ensures ReachesIn(g, top, top, 0)
  {
    assert PathFrom(g, top, [top]) && Last([top]) == top;
  }

  lemma ReachesNext(g: Parents, top: string, x: string, n: nat, c: string)
    requires ReachesIn(g, top, x, n) && IsChild(g, x, c)
    ensures ReachesIn(g, top, c, n + 1)
  {
    var path :| PathFrom(g, top, path) && Last(path) == x && |path| == n + 1;
    assert Last(path + [c]) == c;
  }

  // ---- what the search knows ----

  /** ids[i] has been reached along a path of dist[i] links, and dist never goes down. */
  ghost predicate Reached(g: Parents, top: string, ids: seq<string>, dist: seq<nat>) {
    && |dist| == |ids| > 0 && ids[0] == top && dist[0] == 0
    && NoDuplicates(ids)
    && (forall i | 0 <= i < |ids| :: ReachesIn(g, top, ids[i], dist[i]))
    && (forall i, j | 0 <= i < j < |dist| :: dist[i] <= dist[j])
  }

  /** x is listed, at distance n or less. */
  ghost predicate FoundBy(ids: seq<string>, dist: seq<nat>, x: string, n: nat)
    requires |ids| == |dist|
  {
    exists j :: 0 <= j < |ids| && ids[j] == x && dist[j] <= n
  }

  /** The children of the first h folders are listed, one level down at most. */
  ghost predicate Explored(g: Parents, ids: seq<string>, dist: seq<nat>, h: nat)
    requires |ids| == |dist| && h <= |ids|
  {
    forall i, c | 0 <= i < h && IsChild(g, ids[i], c) :: FoundBy(ids, dist, c, dist[i] + 1)
  }

  lemma {:induction false} ExploredFindsAll(g: Parents, top: string, ids: seq<string>, dist: seq<nat>,
                                            path: seq<string>)
    requires Reached(g, top, ids, dist) && Explored(g, ids, dist, |ids|)
    requires PathFrom(g, top, path)
    ensures FoundBy(ids, dist, Last(path), |path| - 1)
  {
    if |path| > 1 {
      var front := path[..|path| - 1];
      ExploredFindsAll(g, top, ids, dist, front);
      var j :| 0 <= j < |ids| && ids[j] == Last(front) && dist[j] <= |front| - 1;
      assert IsChild(g, path[|path| - 2], path[|path| - 1]);
      assert FoundBy(ids, dist, Last(path), dist[j] + 1);
    }
  }

  lemma ListedExactly(g: Parents, top: string, ids: seq<string>, dist: seq<nat>)
    requires Reached(g, top, ids, dist) && Explored(g, ids, dist, |ids|)
    ensures forall x :: x in ids <==> Reaches(g, top, x)
  {
    forall x ensures x in ids <==> Reaches(g, top, x) {
      if x in ids {
        var i :| 0 <= i < |ids| && ids[i] == x;
        assert ReachesIn(g, top, ids[i], dist[i]);
      }
      if Reaches(g, top, x) {
        var path :| PathFrom(g, top, path) && Last(path) == x;
        ExploredFindsAll(g, top, ids, dist, path);
      }
    }
  }

  lemma DistancesExact(g: Parents, top: string, ids: seq<string>, dist: seq<nat>)
    requires Reached(g, top, ids, dist) && Explored(g, ids, dist, |ids|)
    ensures forall i | 0 <= i < |ids| :: IsDistance(g, top, ids[i], dist[i])
  {
    forall i, m: nat | 0 <= i < |ids| && m < dist[i] ensures !ReachesIn(g, top, ids[i], m) {
      forall path | PathFrom(g, top, path) && |path| == m + 1 ensures Last(path) != ids[i] {
        ExploredFindsAll(g, top, ids, dist, path);
      }
    }
  }

  lemma ReachedIsBounded(g: Parents, top: string, ids: seq<string>, dist: seq<nat>)
    requires Reached(g, top, ids, dist)
    ensures |ids| <= |g| + 1
  {
    forall x | x in ids ensures x in g.Keys + {top} {
      var i :| 0 <= i < |ids| && ids[i] == x;
      assert ReachesIn(g, top, ids[i], dist[i]);
      var path :| PathFrom(g, top, path) && Last(path) == x;
      if |path| > 1 {
        assert IsChild(g, path[|path| - 2], path[|path| - 1]);
      }
    }
    Pigeonhole(ids, g.Keys + {top});
  }

  /** The search is looking at ids[h]; nothing listed is more than one level below it. */
  ghost predicate Searching(g: Parents, top: string, ids: seq<string>, dist: seq<nat>, h: nat) {
    && Reached(g, top, ids, dist) && h < |ids| && Explored(g, ids, dist, h)
    && dist[|dist| - 1] <= dist[h] + 1
  }

  lemma ReachedGrows(g: Parents, top: string, ids: seq<string>, dist: seq<nat>, h: nat, c: string)
    requires Reached(g, top, ids, dist) && h < |ids| && IsChild(g, ids[h], c) && c !in ids
    requires dist[|dist| - 1] <= dist[h] + 1
    ensures Reached(g, top, ids + [c], dist + [dist[h] + 1])
  {
    ReachesNext(g, top, ids[h], dist[h], c);
  }

  lemma ExploredStays(g: Parents, ids: seq<string>, dist: seq<nat>, h: nat, c: string, n: nat)
    requires |ids| == |dist| && h < |ids| && Explored(g, ids, dist, h)
    ensures Explored(g, ids + [c], dist + [n], h)
  {
    forall i, x | 0 <= i < h && IsChild(g, (ids + [c])[i], x)
      ensures FoundBy(ids + [c], dist + [n], x, (dist + [n])[i] + 1)
    {
      assert IsChild(g, ids[i], x);
      var j :| 0 <= j < |ids| && ids[j] == x && dist[j] <= dist[i] + 1;
      assert (ids + [c])[j] == x && (dist + [n])[j] <= (dist + [n])[i] + 1;
    }
  }

  /** Listing a child not listed before. */
  lemma SearchingGrows(g: Parents, top: string, ids: seq<string>, dist: seq<nat>, h: nat, c: string)
    requires Searching(g, top, ids, dist, h) && IsChild(g, ids[h], c) && c !in ids
    ensures Searching(g, top, ids + [c], dist + [dist[h] + 1], h)
    ensures (ids + [c])[h + 1..] == ids[h + 1..] + [c] && Elements(ids + [c]) == Elements(ids) + {c}
  {
    ReachedGrows(g, top, ids, dist, h, c);
    ExploredStays(g, ids, dist, h, c, dist[h] + 1);
  }

  // ---- the search ----

  /** SELECT id FROM folders WHERE parent_id = parent AND user_id = user, in any order. */
  method QueryOwnedChildren(t: OwnedTable, parent: string, user: string) returns (children: seq<string>)
    ensures IsChildList(OwnedLinks(t, user), parent, children)
  {
    var left := set x | x in t && t[x].owner == user && t[x].parent == Some(parent);
    children := [];
    while left != {}
      invariant NoDuplicates(children) && forall c | c in children :: c !in left
      invariant forall c :: IsChild(OwnedLinks(t, user), parent, c) <==> c in children || c in left
      decreases |left|
    {
      var c :| c in left;
      children, left := children + [c], left - {c};
    }
  }

  /** Lists the children not seen before. */
  method ListUnseen(children: seq<string>, ids: seq<string>, queue: seq<string>, seen: set<string>,
                    ghost g: Parents, ghost top: string, ghost dist: seq<nat>, ghost h: nat)
    returns (ids': seq<string>, queue': seq<string>, seen': set<string>, ghost dist': seq<nat>)
    requires Searching(g, top, ids, dist, h) && queue == ids[h + 1..] && seen == Elements(ids)
    requires IsChildList(g, ids[h], children)
    ensures Searching(g, top, ids', dist', h) && queue' == ids'[h + 1..] && seen' == Elements(ids')
    ensures ids'[h] == ids[h] && forall c | IsChild(g, ids[h], c) :: c in ids'
  {
    ids', queue', seen', dist' := ids, queue, seen, dist;
    for k := 0 to |children|
      invariant Searching(g, top, ids', dist', h) && queue' == ids'[h + 1..] && seen' == Elements(ids')
      invariant ids'[h] == ids[h] && forall c | c in children[..k] :: c in ids'
    {
      var cid := children[k];
      if cid !in seen' {
        assert IsChild(g, ids[h], cid);
        SearchingGrows(g, top, ids', dist', h, cid);
        seen', queue' := seen' + {cid}, queue' + [cid];
        ids', dist' := ids' + [cid], dist' + [dist'[h] + 1];
      }
    }
  }

  /** The folders owned by user that can be reached from rootID, each once: rootID first, then
      level by level. */
  method ExpFolderTree(t: OwnedTable, rootID: string, user: string) returns (ids: seq<string>, ghost dist: seq<nat>)
    ensures ids != [] && ids[0] == rootID && NoDuplicates(ids)
    ensures forall x :: x in ids <==> Reaches(OwnedLinks(t, user), rootID, x)
    ensures |dist| == |ids| && forall i | 0 <= i < |ids| :: IsDistance(OwnedLinks(t, user), rootID, ids[i], dist[i])
    ensures forall i, j | 0 <= i < j < |ids| :: dist[i] <= dist[j]
  {
    ghost var g := OwnedLinks(t, user);
    ids, dist := [rootID], [0];
    var queue := [rootID];
    var seen := {rootID};
    ReachesTop(g, rootID);
    ghost var h := 0;
    while queue != []
      invariant h <= |ids| && queue == ids[h..] && seen == Elements(ids)
      invariant Reached(g, rootID, ids, dist) && Explored(g, ids, dist, h)
      invariant h < |ids| ==> Searching(g, rootID, ids, dist, h)
      decreases |g| + 1 - h
    {
      var parent := queue[0];
      queue := queue[1..];
      ReachedIsBounded(g, rootID, ids, dist);
      var children := QueryOwnedChildren(t, parent, user);
      ids, queue, seen, dist := ListUnseen(children, ids, queue, seen, g, rootID, dist, h);
      h := h + 1;
    }
    ListedExactly(g, rootID, ids, dist);
    DistancesExact(g, rootID, ids, dist);
  }
}
