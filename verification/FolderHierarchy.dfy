/** The folder list of the dashboard: the forest of folders, parents before children, with
    depths and paths; and the ids below a folder. */
module FolderHierarchy {
  import opened Sequences
  import opened FolderGraph
  import opened Wrappers

  datatype Folder = Folder(id: string, name: string, parent: Option<string>)

  datatype Item = Item(id: string, name: string, path: string, depth: nat)

  type Order = (string, string) -> bool

  /** What localeCompare gives: any two names compare, consistently. */
  ghost predicate IsOrder(leq: Order) {
    && (forall a, b :: leq(a, b) || leq(b, a))
    && (forall a, b, c :: leq(a, b) && leq(b, c) ==> leq(a, c))
  }

  ghost predicate DistinctIds(folders: seq<Folder>) {
    forall i, j | 0 <= i < j < |folders| :: folders[i].id != folders[j].id
  }

  /** The folders the list is made of. */
  ghost predicate Shown(folders: seq<Folder>, exclude: set<string>, f: Folder) {
    f in folders && f.id !in exclude
  }

  /** chain leads from a root folder down to its last folder through shown folders only. */
  ghost predicate IsChain(folders: seq<Folder>, exclude: set<string>, chain: seq<Folder>) {
    && chain != []
    && (forall i | 0 <= i < |chain| :: Shown(folders, exclude, chain[i]))
    && chain[0].parent == None
    && (forall i | 0 < i < |chain| :: chain[i].parent == Some(chain[i - 1].id))
  }

  function Join(parts: seq<string>): string {
    if |parts| == 0 then "" else if |parts| == 1 then parts[0]
    else Join(parts[..|parts| - 1]) + " / " + parts[|parts| - 1]
  }

  function Names(chain: seq<Folder>): seq<string> {
    seq(|chain|, i requires 0 <= i < |chain| => chain[i].name)
  }

  /** The list entry of a folder, given the chain that leads to it. */
  function ItemOf(chain: seq<Folder>): Item
    requires chain != []
  {
    Item(Last(chain).id, Last(chain).name, Join(Names(chain)), |chain| - 1)
  }

  // ---- chains are bounded, whatever cycles the table has ----

  ghost function LinksOf(folders: seq<Folder>): Parents
  {
    if folders == [] then map[] else LinksOf(folders[..|folders| - 1])[Last(folders).id := Last(folders).parent]
  }

  lemma {:induction false} LinksOfHas(folders: seq<Folder>, f: Folder)
    requires DistinctIds(folders) && f in folders
    ensures f.id in LinksOf(folders) && LinksOf(folders)[f.id] == f.parent
  {
    var front := folders[..|folders| - 1];
    assert folders == front + [Last(folders)];
    if f in front {
      LinksOfHas(front, f);
      var i :| 0 <= i < |front| && front[i] == f;
      assert folders[i].id != folders[|folders| - 1].id;
    }
  }

  lemma {:induction false} LinksOfSize(folders: seq<Folder>)
    ensures |LinksOf(folders)| <= |folders|
  {
    if folders != [] {
      var front := LinksOf(folders[..|folders| - 1]);
      LinksOfSize(folders[..|folders| - 1]);
      assert LinksOf(folders).Keys == front.Keys + {Last(folders).id};
      assert |front| == |front.Keys| && |LinksOf(folders)| == |LinksOf(folders).Keys|;
    }
  }

  ghost function Ids(chain: seq<Folder>): seq<string> {
    seq(|chain|, i requires 0 <= i < |chain| => chain[i].id)
  }

  lemma ChainPath(folders: seq<Folder>, exclude: set<string>, chain: seq<Folder>)
    requires DistinctIds(folders) && IsChain(folders, exclude, chain)
    ensures DownPath(LinksOf(folders), Ids(chain)) && !OnCycle(LinksOf(folders), chain[0].id)
    ensures chain[0].id in LinksOf(folders)
  {
    var g := LinksOf(folders);
    forall i | 0 <= i < |chain| ensures chain[i].id in g && g[chain[i].id] == chain[i].parent {
      assert Shown(folders, exclude, chain[i]);
      LinksOfHas(folders, chain[i]);
    }
    RootOffCycle(g, chain[0].id);
  }

  lemma RootOffCycle(g: Parents, x: string)
    requires x in g && g[x] == None
    ensures !OnCycle(g, x)
  {
    forall path | PathFrom(g, x, path) && |path| > 1 ensures Last(path) != x {
      assert IsChild(g, path[|path| - 2], path[|path| - 1]);
    }
  }

  lemma ChainBounded(folders: seq<Folder>, exclude: set<string>, chain: seq<Folder>)
    requires DistinctIds(folders) && IsChain(folders, exclude, chain)
    ensures |chain| <= |folders|
  {
    ChainPath(folders, exclude, chain);
    PathIsBounded(LinksOf(folders), Ids(chain));
    LinksOfSize(folders);
  }

  lemma LastParent(folders: seq<Folder>, exclude: set<string>, a: seq<Folder>)
    requires IsChain(folders, exclude, a)
    ensures Last(a).parent == if |a| == 1 then None else Some(a[|a| - 2].id)
  {
    assert |a| > 1 ==> a[|a| - 1].parent == Some(a[|a| - 2].id);
  }

  /** A folder has at most one chain. */
  lemma {:induction false} ChainUnique(folders: seq<Folder>, exclude: set<string>, a: seq<Folder>, b: seq<Folder>)
    requires DistinctIds(folders) && IsChain(folders, exclude, a) && IsChain(folders, exclude, b)
    requires Last(a).id == Last(b).id
    ensures a == b
  {
    assert Shown(folders, exclude, Last(a)) && Shown(folders, exclude, Last(b));
    LastParent(folders, exclude, a);
    LastParent(folders, exclude, b);
    if |a| > 1 && |b| > 1 {
      ChainUnique(folders, exclude, a[..|a| - 1], b[..|b| - 1]);
      assert a == a[..|a| - 1] + [Last(a)] && b == b[..|b| - 1] + [Last(b)];
    }
  }

  // ---- the index the traversal walks over ----

  type Index = map<Option<string>, seq<Folder>>

  function Siblings(index: Index, parent: Option<string>): seq<Folder> {
    if parent in index then index[parent] else []
  }

  /** Every shown folder is in the bucket of its parent, once, and buckets hold nothing else. */
  ghost predicate IsIndex(folders: seq<Folder>, exclude: set<string>, index: Index) {
    && (forall p, f :: f in Siblings(index, p) <==> Shown(folders, exclude, f) && f.parent == p)
    && (forall p :: NoDuplicates(Siblings(index, p)))
  }

  ghost predicate SortedByName(leq: Order, s: seq<Folder>) {
    forall i, j | 0 <= i < j < |s| :: leq(s[i].name, s[j].name)
  }

  ghost predicate IndexSorted(leq: Order, index: Index) {
    forall p | p in index :: SortedByName(leq, index[p])
  }

  ghost predicate Extends(folders: seq<Folder>, exclude: set<string>, chain: seq<Folder>) {
    chain == [] || IsChain(folders, exclude, chain)
  }

  function ParentOf(chain: seq<Folder>): Option<string> {
    if chain == [] then None else Some(Last(chain).id)
  }

  /** The chains through the given children of chain, in the order the traversal visits them. */
  ghost function Walk(folders: seq<Folder>, exclude: set<string>, index: Index, chain: seq<Folder>,
                      children: seq<Folder>)
    : (w: seq<seq<Folder>>)
    requires DistinctIds(folders) && IsIndex(folders, exclude, index) && Extends(folders, exclude, chain)
    requires forall f | f in children :: f in Siblings(index, ParentOf(chain))
    ensures forall i | 0 <= i < |w| :: w[i] != []
    decreases |folders| - |chain|, |children|
  {
    if children == [] then []
    else
      var next := chain + [children[0]];
      StepDown(folders, exclude, index, chain, children[0]);
      [next]
      + Walk(folders, exclude, index, next, Siblings(index, Some(children[0].id)))
      + Walk(folders, exclude, index, chain, children[1..])
  }

  lemma StepDown(folders: seq<Folder>, exclude: set<string>, index: Index, chain: seq<Folder>, f: Folder)
    requires DistinctIds(folders) && IsIndex(folders, exclude, index) && Extends(folders, exclude, chain)
    requires f in Siblings(index, ParentOf(chain))
    ensures IsChain(folders, exclude, chain + [f]) && |chain| < |folders|
  {
    var next := chain + [f];
    assert Shown(folders, exclude, f);
    ChainBounded(folders, exclude, next);
  }

  /** The walk visits exactly the chains that go through one of the children. */
  lemma {:induction false} WalkVisits(folders: seq<Folder>, exclude: set<string>, index: Index, chain: seq<Folder>,
                                      children: seq<Folder>, x: seq<Folder>)
    requires DistinctIds(folders) && IsIndex(folders, exclude, index) && Extends(folders, exclude, chain)
    requires forall f | f in children :: f in Siblings(index, ParentOf(chain))
    ensures x in Walk(folders, exclude, index, chain, children) <==>
            IsChain(folders, exclude, x) && |x| > |chain| && chain <= x && x[|chain|] in children
    decreases |folders| - |chain|, |children|
  {
    if children != [] {
      var f := children[0];
      var next := chain + [f];
      StepDown(folders, exclude, index, chain, f);
      WalkVisits(folders, exclude, index, next, Siblings(index, Some(f.id)), x);
      WalkVisits(folders, exclude, index, chain, children[1..], x);
      if IsChain(folders, exclude, x) && |x| > |chain| && chain <= x {
        ThroughChild(folders, exclude, index, chain, f, x);
      }
    }
  }

  /** A longer chain that goes through f is next itself or goes on through one of f's children. */
  lemma ThroughChild(folders: seq<Folder>, exclude: set<string>, index: Index, chain: seq<Folder>, f: Folder,
                     x: seq<Folder>)
    requires IsIndex(folders, exclude, index) && IsChain(folders, exclude, x) && |x| > |chain| && chain <= x
    ensures x[|chain|] == f <==> chain + [f] <= x
    ensures x[|chain|] == f ==> x == chain + [f] || (|x| > |chain| + 1 && x[|chain| + 1] in Siblings(index, Some(f.id)))
  {
    assert x[..|chain|] == chain && x[..|chain| + 1] == chain + [x[|chain|]];
    if x[|chain|] == f && |x| > |chain| + 1 {
      assert x[|chain| + 1].parent == Some(x[|chain|].id);
      assert Shown(folders, exclude, x[|chain| + 1]);
    }
  }

  /** What WalkVisits says about every chain visited. */
  lemma WalkBelow(folders: seq<Folder>, exclude: set<string>, index: Index, chain: seq<Folder>, children: seq<Folder>)
    requires DistinctIds(folders) && IsIndex(folders, exclude, index) && Extends(folders, exclude, chain)
    requires forall f | f in children :: f in Siblings(index, ParentOf(chain))
    ensures forall x | x in Walk(folders, exclude, index, chain, children) ::
              |x| > |chain| && x[..|chain|] == chain && x[|chain|] in children
  {
    forall x | x in Walk(folders, exclude, index, chain, children)
      ensures |x| > |chain| && x[..|chain|] == chain && x[|chain|] in children
    {
      WalkVisits(folders, exclude, index, chain, children, x);
    }
  }

  /** It visits no chain twice. */
  lemma {:induction false} WalkOnce(folders: seq<Folder>, exclude: set<string>, index: Index, chain: seq<Folder>,
                                    children: seq<Folder>)
    requires DistinctIds(folders) && IsIndex(folders, exclude, index) && Extends(folders, exclude, chain)
    requires forall f | f in children :: f in Siblings(index, ParentOf(chain))
    requires NoDuplicates(children)
    ensures NoDuplicates(Walk(folders, exclude, index, chain, children))
    decreases |folders| - |chain|, |children|
  {
    if children != [] {
      var f := children[0];
      var next := chain + [f];
      StepDown(folders, exclude, index, chain, f);
      var below := Walk(folders, exclude, index, next, Siblings(index, Some(f.id)));
      var beside := Walk(folders, exclude, index, chain, children[1..]);
      WalkOnce(folders, exclude, index, next, Siblings(index, Some(f.id)));
      WalkOnce(folders, exclude, index, chain, children[1..]);
      WalkBelow(folders, exclude, index, next, Siblings(index, Some(f.id)));
      WalkBelow(folders, exclude, index, chain, children[1..]);
      assert f !in children[1..];
      Apart(next, below, beside);
    }
  }

  lemma Apart(next: seq<Folder>, below: seq<seq<Folder>>, beside: seq<seq<Folder>>)
    requires NoDuplicates(below) && NoDuplicates(beside) && next != []
    requires forall x | x in below :: |x| > |next| && x[..|next|] == next
    requires forall x | x in beside :: |x| >= |next| && x[|next| - 1] != Last(next)
    ensures NoDuplicates([next] + below + beside)
  {
    forall x, y | x in below && y in beside ensures x != y {
      assert x[..|next|][|next| - 1] == x[|next| - 1];
    }
    var all := [next] + below + beside;
    forall i, j | 0 <= i < j < |all| ensures all[i] != all[j] {
      assert 0 < i <= |below| ==> all[i] in below;
      assert 0 < j <= |below| ==> all[j] in below;
      assert j > |below| ==> all[j] in beside;
    }
  }

  ghost predicate IsParentChain(p: seq<Folder>, c: seq<Folder>) {
    c != [] && p == c[..|c| - 1]
  }

  ghost predicate HasParentBefore(w: seq<seq<Folder>>, k: nat)
    requires k < |w|
  {
    exists j :: 0 <= j < k && IsParentChain(w[j], w[k])
  }

  /** A chain longer than base comes after the chain of its parent. */
  ghost predicate ParentsFirst(w: seq<seq<Folder>>, base: nat) {
    forall k | 0 <= k < |w| && |w[k]| > base :: HasParentBefore(w, k)
  }

  lemma {:induction false} WalkParentsFirst(folders: seq<Folder>, exclude: set<string>, index: Index,
                                            chain: seq<Folder>, children: seq<Folder>)
    requires DistinctIds(folders) && IsIndex(folders, exclude, index) && Extends(folders, exclude, chain)
    requires forall f | f in children :: f in Siblings(index, ParentOf(chain))
    ensures ParentsFirst(Walk(folders, exclude, index, chain, children), |chain| + 1)
    decreases |folders| - |chain|, |children|
  {
    if children != [] {
      var f := children[0];
      var next := chain + [f];
      StepDown(folders, exclude, index, chain, f);
      var below := Walk(folders, exclude, index, next, Siblings(index, Some(f.id)));
      var beside := Walk(folders, exclude, index, chain, children[1..]);
      WalkParentsFirst(folders, exclude, index, next, Siblings(index, Some(f.id)));
      WalkParentsFirst(folders, exclude, index, chain, children[1..]);
      WalkBelow(folders, exclude, index, next, Siblings(index, Some(f.id)));
      ParentsFirstJoin(next, below, beside);
    }
  }

  lemma ParentsFirstJoin(next: seq<Folder>, below: seq<seq<Folder>>, beside: seq<seq<Folder>>)
    requires next != [] && ParentsFirst(below, |next| + 1) && ParentsFirst(beside, |next|)
    requires forall x | x in below :: |x| > |next| && x[..|next|] == next
    ensures ParentsFirst([next] + below + beside, |next|)
  {
    ParentsFirstUnder(next, below);
    ParentsFirstAppend([next] + below, beside, |next|);
  }

  lemma ParentsFirstUnder(next: seq<Folder>, below: seq<seq<Folder>>)
    requires next != [] && ParentsFirst(below, |next| + 1)
    requires forall x | x in below :: |x| > |next| && x[..|next|] == next
    ensures ParentsFirst([next] + below, |next|)
  {
    var first := [next] + below;
    forall k | 0 <= k < |first| && |first[k]| > |next| ensures HasParentBefore(first, k) {
      assert below[k - 1] in below;
      if |below[k - 1]| == |next| + 1 {
        assert IsParentChain(first[0], first[k]);
      } else {
        assert HasParentBefore(below, k - 1);
        var j :| 0 <= j < k - 1 && IsParentChain(below[j], below[k - 1]);
        assert IsParentChain(first[j + 1], first[k]);
      }
    }
  }

  lemma ParentsFirstAppend(a: seq<seq<Folder>>, b: seq<seq<Folder>>, base: nat)
    requires ParentsFirst(a, base) && ParentsFirst(b, base)
    ensures ParentsFirst(a + b, base)
  {
    var all := a + b;
    forall k | 0 <= k < |all| && |all[k]| > base ensures HasParentBefore(all, k) {
      if k < |a| {
        assert HasParentBefore(a, k);
        var j :| 0 <= j < k && IsParentChain(a[j], a[k]);
        assert IsParentChain(all[j], all[k]);
      } else {
        assert HasParentBefore(b, k - |a|);
        var j :| 0 <= j < k - |a| && IsParentChain(b[j], b[k - |a|]);
        assert IsParentChain(all[|a| + j], all[k]);
      }
    }
  }

  /** Between a folder and one below it there is nothing else. */
  ghost predicate Together(w: seq<seq<Folder>>) {
    forall i, j, k | 0 <= i < j < k < |w| && w[i] <= w[k] :: w[i] <= w[j]
  }

  lemma {:induction false} WalkTogether(folders: seq<Folder>, exclude: set<string>, index: Index,
                                        chain: seq<Folder>, children: seq<Folder>)
    requires DistinctIds(folders) && IsIndex(folders, exclude, index) && Extends(folders, exclude, chain)
    requires forall f | f in children :: f in Siblings(index, ParentOf(chain))
    requires NoDuplicates(children)
    ensures Together(Walk(folders, exclude, index, chain, children))
    decreases |folders| - |chain|, |children|
  {
    if children != [] {
      var f := children[0];
      var next := chain + [f];
      StepDown(folders, exclude, index, chain, f);
      var below := Walk(folders, exclude, index, next, Siblings(index, Some(f.id)));
      var beside := Walk(folders, exclude, index, chain, children[1..]);
      WalkTogether(folders, exclude, index, next, Siblings(index, Some(f.id)));
      WalkTogether(folders, exclude, index, chain, children[1..]);
      WalkBelow(folders, exclude, index, next, Siblings(index, Some(f.id)));
      WalkBelow(folders, exclude, index, chain, children[1..]);
      assert f !in children[1..];
      TogetherJoin(next, below, beside);
    }
  }

  lemma TogetherJoin(next: seq<Folder>, below: seq<seq<Folder>>, beside: seq<seq<Folder>>)
    requires Together(below) && Together(beside) && next != []
    requires forall x | x in below :: |x| > |next| && x[..|next|] == next
    requires forall x | x in beside :: |x| >= |next| && x[|next| - 1] != Last(next)
    ensures Together([next] + below + beside)
  {
    var first := [next] + below;
    forall i | 0 <= i < |first| ensures next <= first[i] {
      assert i > 0 ==> first[i] == below[i - 1] && below[i - 1] in below;
    }
    forall x | x in beside ensures !(next <= x) {
      NotUnder(next, x);
    }
    TogetherUnder(next, below);
    TogetherAppend(next, first, beside);
  }

  lemma NotUnder(next: seq<Folder>, x: seq<Folder>)
    requires next != [] && |x| >= |next| && x[|next| - 1] != Last(next)
    ensures !(next <= x)
  {
  }

  lemma TogetherUnder(next: seq<Folder>, below: seq<seq<Folder>>)
    requires Together(below) && forall x | x in below :: next <= x
    ensures Together([next] + below)
  {
    var first := [next] + below;
    forall i, j, k | 0 <= i < j < k < |first| && first[i] <= first[k] ensures first[i] <= first[j] {
      assert first[j] == below[j - 1] && below[j - 1] in below && first[k] == below[k - 1];
      assert i > 0 ==> first[i] == below[i - 1];
    }
  }

  lemma TogetherAppend(next: seq<Folder>, a: seq<seq<Folder>>, b: seq<seq<Folder>>)
    requires Together(a) && Together(b)
    requires forall i | 0 <= i < |a| :: next <= a[i]
    requires forall x | x in b :: !(next <= x)
    ensures Together(a + b)
  {
    var all := a + b;
    forall k | |a| <= k < |all| ensures !(next <= all[k]) {
      assert all[k] == b[k - |a|] && b[k - |a|] in b;
    }
    forall i, j, k | 0 <= i < j < k < |all| && all[i] <= all[k] ensures all[i] <= all[j] {
      if i >= |a| {
        assert all[i] == b[i - |a|] && all[j] == b[j - |a|] && all[k] == b[k - |a|];
      } else {
        PrefixOfPrefix(next, a[i], all[k]);
      }
    }
  }

  lemma PrefixOfPrefix(a: seq<Folder>, b: seq<Folder>, c: seq<Folder>)
    requires a <= b <= c
    ensures a <= c
  {
  }

  /** Folders with the same parent appear in the order of their names. */
  ghost predicate SiblingsByName(leq: Order, w: seq<seq<Folder>>) {
    forall i, j | 0 <= i < j < |w| && SameParent(w[i], w[j]) :: leq(Last(w[i]).name, Last(w[j]).name)
  }

  ghost predicate SameParent(a: seq<Folder>, b: seq<Folder>) {
    a != [] && b != [] && a[..|a| - 1] == b[..|b| - 1]
  }

  lemma {:induction false} WalkSiblings(leq: Order, folders: seq<Folder>, exclude: set<string>, index: Index,
                                        chain: seq<Folder>, children: seq<Folder>)
    requires DistinctIds(folders) && IsIndex(folders, exclude, index) && Extends(folders, exclude, chain)
    requires forall f | f in children :: f in Siblings(index, ParentOf(chain))
    requires NoDuplicates(children) && SortedByName(leq, children) && IndexSorted(leq, index)
    ensures SiblingsByName(leq, Walk(folders, exclude, index, chain, children))
    decreases |folders| - |chain|, |children|
  {
    if children != [] {
      var f := children[0];
      var next := chain + [f];
      StepDown(folders, exclude, index, chain, f);
      var below := Walk(folders, exclude, index, next, Siblings(index, Some(f.id)));
      var beside := Walk(folders, exclude, index, chain, children[1..]);
      WalkSiblings(leq, folders, exclude, index, next, Siblings(index, Some(f.id)));
      WalkSiblings(leq, folders, exclude, index, chain, children[1..]);
      WalkBelow(folders, exclude, index, next, Siblings(index, Some(f.id)));
      WalkBelow(folders, exclude, index, chain, children[1..]);
      SiblingsJoin(leq, next, below, beside);
    }
  }

  lemma SiblingsJoin(leq: Order, next: seq<Folder>, below: seq<seq<Folder>>, beside: seq<seq<Folder>>)
    requires next != [] && SiblingsByName(leq, below) && SiblingsByName(leq, beside)
    requires forall x | x in below :: |x| > |next| && x[..|next|] == next
    requires forall x: seq<Folder> | x in beside ::
               |x| >= |next| && x[|next| - 1] != Last(next) && leq(Last(next).name, x[|next| - 1].name)
    ensures SiblingsByName(leq, [next] + below + beside)
  {
    var all := [next] + below + beside;
    forall x, y | x in below && y in beside ensures !SameParent(x, y) {
      assert x[..|next|][|next| - 1] == x[|next| - 1];
    }
    forall i, j | 0 <= i < j < |all| && SameParent(all[i], all[j]) ensures leq(Last(all[i]).name, Last(all[j]).name) {
      assert |all[i]| == |all[j]| by {
        assert |all[i][..|all[i]| - 1]| == |all[j][..|all[j]| - 1]|;
      }
      assert 0 < i <= |below| ==> all[i] in below && all[i] == below[i - 1];
      assert 0 < j <= |below| ==> all[j] in below && all[j] == below[j - 1];
      assert j > |below| ==> all[j] in beside && all[j] == beside[j - 1 - |below|];
    }
  }

  // ---- sorting a bucket ----

  function InsertByName(leq: Order, s: seq<Folder>, f: Folder): seq<Folder> {
    if s == [] then [f]
    else if leq(Last(s).name, f.name) then s + [f]
    else InsertByName(leq, s[..|s| - 1], f) + [Last(s)]
  }

  /** What the library's stable sort makes of a bucket. */
  function SortByName(leq: Order, s: seq<Folder>): seq<Folder> {
    if s == [] then [] else InsertByName(leq, SortByName(leq, s[..|s| - 1]), Last(s))
  }

  lemma {:induction false} InsertHas(leq: Order, s: seq<Folder>, f: Folder, x: Folder)
    ensures x in InsertByName(leq, s, f) <==> x in s || x == f
  {
    if s != [] {
      InsertHas(leq, s[..|s| - 1], f, x);
      assert s == s[..|s| - 1] + [Last(s)];
    }
  }

  lemma {:induction false} InsertOnce(leq: Order, s: seq<Folder>, f: Folder)
    requires NoDuplicates(s) && f !in s
    ensures NoDuplicates(InsertByName(leq, s, f))
  {
    if s != [] {
      InsertOnce(leq, s[..|s| - 1], f);
      InsertHas(leq, s[..|s| - 1], f, Last(s));
    }
  }

  lemma {:induction false} InsertSorts(leq: Order, s: seq<Folder>, f: Folder)
    requires IsOrder(leq) && SortedByName(leq, s)
    ensures SortedByName(leq, InsertByName(leq, s, f))
  {
    if s != [] && !leq(Last(s).name, f.name) {
      var front := InsertByName(leq, s[..|s| - 1], f);
      InsertSorts(leq, s[..|s| - 1], f);
      forall i | 0 <= i < |front| ensures leq(front[i].name, Last(s).name) {
        InsertHas(leq, s[..|s| - 1], f, front[i]);
      }
    }
  }

  lemma {:induction false} SortHas(leq: Order, s: seq<Folder>, x: Folder)
    ensures x in SortByName(leq, s) <==> x in s
  {
    if s != [] {
      SortHas(leq, s[..|s| - 1], x);
      InsertHas(leq, SortByName(leq, s[..|s| - 1]), Last(s), x);
      assert s == s[..|s| - 1] + [Last(s)];
    }
  }

  lemma {:induction false} SortOnce(leq: Order, s: seq<Folder>)
    requires NoDuplicates(s)
    ensures NoDuplicates(SortByName(leq, s))
  {
    if s != [] {
      SortOnce(leq, s[..|s| - 1]);
      SortHas(leq, s[..|s| - 1], Last(s));
      InsertOnce(leq, SortByName(leq, s[..|s| - 1]), Last(s));
    }
  }

  lemma {:induction false} SortSorts(leq: Order, s: seq<Folder>)
    requires IsOrder(leq)
    ensures SortedByName(leq, SortByName(leq, s))
  {
    if s != [] {
      SortSorts(leq, s[..|s| - 1]);
      InsertSorts(leq, SortByName(leq, s[..|s| - 1]), Last(s));
    }
  }

  // ---- building the index ----

  lemma PushKeepsIndex(folders: seq<Folder>, exclude: set<string>, index: Index, f: Folder)
    requires IsIndex(folders, exclude, index) && f !in folders
    ensures f.id in exclude ==> IsIndex(folders + [f], exclude, index)
    ensures f.id !in exclude ==>
              IsIndex(folders + [f], exclude, index[f.parent := Siblings(index, f.parent) + [f]])
  {
    forall x ensures Shown(folders + [f], exclude, x) <==> Shown(folders, exclude, x) || (x == f && f.id !in exclude) {
    }
    assert f !in Siblings(index, f.parent);
    var next := index[f.parent := Siblings(index, f.parent) + [f]];
    forall p, x ensures x in Siblings(next, p) <==> x in Siblings(index, p) || (x == f && p == f.parent) {
    }
    forall p ensures NoDuplicates(Siblings(next, p)) {
      assert NoDuplicates(Siblings(index, p));
    }
  }

  lemma SortKeepsIndex(leq: Order, folders: seq<Folder>, exclude: set<string>, index: Index, p: Option<string>)
    requires IsIndex(folders, exclude, index) && p in index
    ensures IsIndex(folders, exclude, index[p := SortByName(leq, index[p])])
  {
    var sorted := index[p := SortByName(leq, index[p])];
    forall q, f ensures f in Siblings(sorted, q) <==> f in Siblings(index, q) {
      SortHas(leq, index[p], f);
    }
    assert NoDuplicates(Siblings(index, p));
    SortOnce(leq, index[p]);
    forall q ensures NoDuplicates(Siblings(sorted, q)) {
      assert NoDuplicates(Siblings(index, q));
    }
  }

  function Entries(w: seq<seq<Folder>>): (r: seq<Item>)
    requires forall i | 0 <= i < |w| :: w[i] != []
    ensures |r| == |w| && forall i | 0 <= i < |w| :: r[i] == ItemOf(w[i])
  {
    if w == [] then [] else [ItemOf(w[0])] + Entries(w[1..])
  }

  lemma EntriesJoin(a: seq<seq<Folder>>, b: seq<seq<Folder>>)
    requires forall i | 0 <= i < |a| :: a[i] != []
    requires forall i | 0 <= i < |b| :: b[i] != []
    ensures Entries(a + b) == Entries(a) + Entries(b)
  {
  }

  class HierarchyBuilder {
    var childrenMap: Index
    var result: seq<Item>

    constructor ()
      ensures childrenMap == map[] && result == []
    {
      childrenMap, result := map[], [];
    }

    method FillBuckets(folders: seq<Folder>, exclude: set<string>)
      requires DistinctIds(folders) && childrenMap == map[]
      modifies this`childrenMap
      ensures IsIndex(folders, exclude, childrenMap)
    {
      for i := 0 to |folders|
        invariant IsIndex(folders[..i], exclude, childrenMap)
      {
        var folder := folders[i];
        assert folders[..i + 1] == folders[..i] + [folder];
        PushKeepsIndex(folders[..i], exclude, childrenMap, folder);
        if folder.id !in exclude {
          childrenMap := childrenMap[folder.parent := Siblings(childrenMap, folder.parent) + [folder]];
        }
      }
      assert folders[..|folders|] == folders;
    }

    method SortBuckets(leq: Order, ghost folders: seq<Folder>, ghost exclude: set<string>)
      requires IsOrder(leq) && IsIndex(folders, exclude, childrenMap)
      modifies this`childrenMap
      ensures IsIndex(folders, exclude, childrenMap) && IndexSorted(leq, childrenMap)
    {
      var pending := childrenMap.Keys;
      while pending != {}
        invariant IsIndex(folders, exclude, childrenMap) && pending <= childrenMap.Keys
        invariant forall p | p in childrenMap && p !in pending :: SortedByName(leq, childrenMap[p])
        decreases |pending|
      {
        var p :| p in pending;
        SortKeepsIndex(leq, folders, exclude, childrenMap, p);
        SortSorts(leq, childrenMap[p]);
        childrenMap := childrenMap[p := SortByName(leq, childrenMap[p])];
        pending := pending - {p};
      }
    }

    /** Lists folder, whose parent chain is chain, and everything below it. */
    method Traverse(folder: Folder, depth: nat, pathParts: seq<string>,
                    ghost folders: seq<Folder>, ghost exclude: set<string>, ghost index: Index,
                    ghost chain: seq<Folder>)
      requires MayList(folders, exclude, index, chain, [folder]) && index == childrenMap
      requires depth == |chain| && pathParts == Names(chain)
      modifies this`result
      ensures result == old(result) + Listing(folders, exclude, index, chain, [folder])
      decreases |folders| - |chain|, 0
    {
      ListOne(folders, exclude, index, chain, folder, result);
      var currentPath := pathParts + [folder.name];
      result := result + [Item(folder.id, folder.name, Join(currentPath), depth)];
      TraverseAll(Siblings(childrenMap, Some(folder.id)), depth + 1, currentPath,
                  folders, exclude, index, chain + [folder]);
    }

    method TraverseAll(children: seq<Folder>, depth: nat, pathParts: seq<string>,
                       ghost folders: seq<Folder>, ghost exclude: set<string>, ghost index: Index,
                       ghost chain: seq<Folder>)
      requires MayList(folders, exclude, index, chain, children) && index == childrenMap
      requires depth == |chain| && pathParts == Names(chain)
      modifies this`result
      ensures result == old(result) + Listing(folders, exclude, index, chain, children)
      decreases |folders| - |chain|, 1
    {
      ghost var before := result;
      for i := 0 to |children|
        invariant result + Listing(folders, exclude, index, chain, children[i..])
                  == before + Listing(folders, exclude, index, chain, children)
      {
        ListSplits(folders, exclude, index, chain, children, i, result);
        Traverse(children[i], depth, pathParts, folders, exclude, index, chain);
      }
    }
  }

  ghost predicate MayList(folders: seq<Folder>, exclude: set<string>, index: Index, chain: seq<Folder>,
                          children: seq<Folder>) {
    && DistinctIds(folders) && IsIndex(folders, exclude, index) && Extends(folders, exclude, chain)
    && forall f | f in children :: f in Siblings(index, ParentOf(chain))
  }

  /** The entries for children, whose parent chain is chain, and everything below them. */
  ghost function Listing(folders: seq<Folder>, exclude: set<string>, index: Index, chain: seq<Folder>,
                         children: seq<Folder>): seq<Item> {
    if MayList(folders, exclude, index, chain, children) then Entries(Walk(folders, exclude, index, chain, children))
    else []
  }

  lemma ListOne(folders: seq<Folder>, exclude: set<string>, index: Index, chain: seq<Folder>, f: Folder,
                listed: seq<Item>)
    requires MayList(folders, exclude, index, chain, [f])
    ensures |chain| < |folders|
    ensures MayList(folders, exclude, index, chain + [f], Siblings(index, Some(f.id)))
    ensures Names(chain + [f]) == Names(chain) + [f.name]
    ensures listed + Listing(folders, exclude, index, chain, [f])
            == listed + [Item(f.id, f.name, Join(Names(chain) + [f.name]), |chain|)]
               + Listing(folders, exclude, index, chain + [f], Siblings(index, Some(f.id)))
  {
    StepDown(folders, exclude, index, chain, f);
    ListingOfOne(folders, exclude, index, chain, f);
  }

  lemma ListingOfOne(folders: seq<Folder>, exclude: set<string>, index: Index, chain: seq<Folder>, f: Folder)
    requires MayList(folders, exclude, index, chain, [f])
    ensures Listing(folders, exclude, index, chain, [f])
            == [ItemOf(chain + [f])] + Listing(folders, exclude, index, chain + [f], Siblings(index, Some(f.id)))
  {
    WalkOfOne(folders, exclude, index, chain, f);
    EntriesJoin([chain + [f]], Walk(folders, exclude, index, chain + [f], Siblings(index, Some(f.id))));
  }

  lemma WalkSplits(folders: seq<Folder>, exclude: set<string>, index: Index, chain: seq<Folder>, children: seq<Folder>)
    requires children != [] && MayList(folders, exclude, index, chain, children)
    requires MayList(folders, exclude, index, chain, [children[0]])
    ensures Walk(folders, exclude, index, chain, children)
            == Walk(folders, exclude, index, chain, [children[0]]) + Walk(folders, exclude, index, chain, children[1..])
  {
    WalkOfOne(folders, exclude, index, chain, children[0]);
    StepDown(folders, exclude, index, chain, children[0]);
  }

  lemma WalkOfOne(folders: seq<Folder>, exclude: set<string>, index: Index, chain: seq<Folder>, f: Folder)
    requires MayList(folders, exclude, index, chain, [f])
    ensures MayList(folders, exclude, index, chain + [f], Siblings(index, Some(f.id)))
    ensures Walk(folders, exclude, index, chain, [f])
            == [chain + [f]] + Walk(folders, exclude, index, chain + [f], Siblings(index, Some(f.id)))
  {
    StepDown(folders, exclude, index, chain, f);
    assert [f][1..] == [];
    assert Walk(folders, exclude, index, chain, []) == [];
  }

  lemma ListingSplits(folders: seq<Folder>, exclude: set<string>, index: Index, chain: seq<Folder>,
                      children: seq<Folder>)
    requires children != [] && MayList(folders, exclude, index, chain, children)
    ensures MayList(folders, exclude, index, chain, [children[0]])
    ensures Listing(folders, exclude, index, chain, children)
            == Listing(folders, exclude, index, chain, [children[0]])
              + Listing(folders, exclude, index, chain, children[1..])
  {
    WalkSplits(folders, exclude, index, chain, children);
    EntriesJoin(Walk(folders, exclude, index, chain, [children[0]]),
                Walk(folders, exclude, index, chain, children[1..]));
  }

  lemma ListSplits(folders: seq<Folder>, exclude: set<string>, index: Index, chain: seq<Folder>, children: seq<Folder>,
                   i: nat, listed: seq<Item>)
    requires i < |children| && MayList(folders, exclude, index, chain, children)
    ensures MayList(folders, exclude, index, chain, [children[i]])
    ensures listed + Listing(folders, exclude, index, chain, children[i..])
            == listed + Listing(folders, exclude, index, chain, [children[i]])
              + Listing(folders, exclude, index, chain, children[i + 1..])
  {
    assert children[i..][1..] == children[i + 1..];
    ListingSplits(folders, exclude, index, chain, children[i..]);
  }

  /** Entry i names a folder of the table: a root folder with its name as path, or one whose parent's
      entry stands earlier, one level up, with the beginning of the path. */
  ghost predicate IsEntry(folders: seq<Folder>, result: seq<Item>, i: nat)
    requires i < |result|
  {
    exists f :: f in folders && result[i].id == f.id && result[i].name == f.name
                && if f.parent == None then result[i].depth == 0 && result[i].path == f.name
                   else exists j :: IsEntryBelow(result, j, i, f.parent.value)
  }

  ghost predicate IsEntryBelow(result: seq<Item>, j: int, i: nat, parent: string)
    requires i < |result|
  {
    && 0 <= j < i && result[j].id == parent && result[i].depth == result[j].depth + 1
    && result[i].path == result[j].path + " / " + result[i].name
  }

  lemma PathBelow(p: seq<Folder>, c: seq<Folder>)
    requires p != [] && IsParentChain(p, c)
    ensures ItemOf(c).path == ItemOf(p).path + " / " + Last(c).name
  {
    assert Names(c)[..|c| - 1] == Names(p);
  }

  lemma PathsNest(folders: seq<Folder>, exclude: set<string>, chains: seq<seq<Folder>>, result: seq<Item>, i: nat)
    requires |result| == |chains| && i < |chains| && ParentsFirst(chains, 1)
    requires forall k | 0 <= k < |chains| :: IsChain(folders, exclude, chains[k]) && result[k] == ItemOf(chains[k])
    ensures IsEntry(folders, result, i)
  {
    var c := chains[i];
    var f := Last(c);
    assert Shown(folders, exclude, f);
    if |c| > 1 {
      assert HasParentBefore(chains, i);
      var j :| 0 <= j < i && IsParentChain(chains[j], c);
      PathBelow(chains[j], c);
      assert f.parent == Some(c[|c| - 2].id);
      assert IsEntryBelow(result, j, i, f.parent.value);
    }
  }

  lemma EntriesNest(folders: seq<Folder>, exclude: set<string>, chains: seq<seq<Folder>>, result: seq<Item>)
    requires |result| == |chains| && ParentsFirst(chains, 1)
    requires forall x | x in chains :: IsChain(folders, exclude, x)
    requires forall k | 0 <= k < |chains| :: chains[k] != [] && result[k] == ItemOf(chains[k])
    ensures forall i | 0 <= i < |result| :: IsEntry(folders, result, i)
  {
    forall i | 0 <= i < |result| ensures IsEntry(folders, result, i) {
      assert forall k | 0 <= k < |chains| :: chains[k] in chains;
      PathsNest(folders, exclude, chains, result, i);
    }
  }

  /** The list has one entry for each folder whose chain of shown folders reaches a root, with the
      depth and the path of that chain; parents come before children, siblings in name order. */
  method BuildFolderHierarchy(folders: seq<Folder>, exclude: set<string>, leq: Order)
    returns (result: seq<Item>, ghost chains: seq<seq<Folder>>)
    requires DistinctIds(folders) && IsOrder(leq)
    ensures |result| == |chains| && forall i | 0 <= i < |chains| :: chains[i] != [] && result[i] == ItemOf(chains[i])
    ensures forall x :: x in chains <==> IsChain(folders, exclude, x)
    ensures forall i, j | 0 <= i < j < |result| :: result[i].id != result[j].id
    ensures forall i | 0 <= i < |result| :: IsEntry(folders, result, i)
    ensures Together(chains) && SiblingsByName(leq, chains)
  {
    var builder := new HierarchyBuilder();
    builder.FillBuckets(folders, exclude);
    builder.SortBuckets(leq, folders, exclude);
    ghost var index := builder.childrenMap;
    var rootFolders := Siblings(builder.childrenMap, None);
    builder.TraverseAll(rootFolders, 0, [], folders, exclude, index, []);
    result := builder.result;
    chains := Walk(folders, exclude, index, [], rootFolders);
    WalkIsHierarchy(leq, folders, exclude, index);
    EntriesNest(folders, exclude, chains, result);
  }

  lemma WalkIsHierarchy(leq: Order, folders: seq<Folder>, exclude: set<string>, index: Index)
    requires DistinctIds(folders) && IsIndex(folders, exclude, index) && IndexSorted(leq, index)
    ensures var w := Walk(folders, exclude, index, [], Siblings(index, None));
            && (forall x :: x in w <==> IsChain(folders, exclude, x))
            && (forall i, j | 0 <= i < j < |w| :: ItemOf(w[i]).id != ItemOf(w[j]).id)
            && ParentsFirst(w, 1) && Together(w) && SiblingsByName(leq, w)
  {
    var roots := Siblings(index, None);
    var w := Walk(folders, exclude, index, [], roots);
    forall x ensures x in w <==> IsChain(folders, exclude, x) {
      WalkVisits(folders, exclude, index, [], roots, x);
      if IsChain(folders, exclude, x) {
        assert Shown(folders, exclude, x[0]);
      }
    }
    WalkOnce(folders, exclude, index, [], roots);
    WalkParentsFirst(folders, exclude, index, [], roots);
    WalkTogether(folders, exclude, index, [], roots);
    WalkSiblings(leq, folders, exclude, index, [], roots);
    forall i, j | 0 <= i < j < |w| ensures ItemOf(w[i]).id != ItemOf(w[j]).id {
      DifferentChainsDifferentIds(folders, exclude, w[i], w[j]);
    }
  }

  lemma DifferentChainsDifferentIds(folders: seq<Folder>, exclude: set<string>, a: seq<Folder>, b: seq<Folder>)
    requires DistinctIds(folders) && IsChain(folders, exclude, a) && IsChain(folders, exclude, b) && a != b
    ensures Last(a).id != Last(b).id
  {
    if Last(a).id == Last(b).id {
      ChainUnique(folders, exclude, a, b);
    }
  }

  // ---- the ids below a folder ----

  function ChildIds(folders: seq<Folder>, parent: string): seq<string> {
    if folders == [] then []
    else ChildIds(folders[..|folders| - 1], parent)
         + if Last(folders).parent == Some(parent) then [Last(folders).id] else []
  }

  lemma {:induction false} ChildIdsHas(folders: seq<Folder>, parent: string, x: string)
    ensures x in ChildIds(folders, parent) <==> exists f :: f in folders && f.id == x && f.parent == Some(parent)
  {
    if folders != [] {
      var front := folders[..|folders| - 1];
      ChildIdsHas(front, parent, x);
      assert folders == front + [Last(folders)];
      assert forall f :: f in folders <==> f in front || f == Last(folders);
    }
  }

  lemma {:induction false} ChildIdsOnce(folders: seq<Folder>, parent: string)
    requires DistinctIds(folders)
    ensures NoDuplicates(ChildIds(folders, parent))
  {
    if folders != [] {
      var front := folders[..|folders| - 1];
      ChildIdsOnce(front, parent);
      ChildIdsHas(front, parent, Last(folders).id);
      assert forall f | f in front :: f.id != Last(folders).id;
    }
  }

  lemma ChildIdsAreChildren(folders: seq<Folder>, parent: string)
    requires DistinctIds(folders)
    ensures IsChildList(LinksOf(folders), parent, ChildIds(folders, parent))
  {
    ChildIdsOnce(folders, parent);
    forall x ensures x in ChildIds(folders, parent) <==> IsChild(LinksOf(folders), parent, x) {
      ChildIdsHas(folders, parent, x);
      if x in ChildIds(folders, parent) {
        var f :| f in folders && f.id == x && f.parent == Some(parent);
        LinksOfHas(folders, f);
      }
    }
  }

  ghost function Descendants(folders: seq<Folder>, x: string): set<string> {
    Subtree(LinksOf(folders), x) - {x}
  }

  lemma DescendantsAreChildSubtrees(folders: seq<Folder>, x: string, path: seq<string>)
    requires MayDescend(folders, x, path)
    ensures Descendants(folders, x) == BelowFirst(folders, x, |folders|)
    ensures BelowFirst(folders, x, 0) == {}
  {
    var g, children := LinksOf(folders), ChildIds(folders, x);
    OffCycleBelow(g, path);
    ChildIdsAreChildren(folders, x);
    SubtreeUnfolds(g, x, children);
    forall c | c in children ensures x !in Subtree(g, c) {
      TopNotBelow(g, x, c);
    }
    assert folders[..|folders|] == folders;
  }

  class DescendantCollector {
    var descendants: set<string>

    constructor ()
      ensures descendants == {}
    {
      descendants := {};
    }

    /** Adds everything below parentId, which path leads to. */
    method AddDescendants(folders: seq<Folder>, parentId: string, ghost path: seq<string>)
      requires MayDescend(folders, parentId, path)
      modifies this
      ensures descendants == old(descendants) + Descendants(folders, parentId)
      decreases |LinksOf(folders)| + 1 - |path|
    {
      DescendantsAreChildSubtrees(folders, parentId, path);
      for i := 0 to |folders|
        invariant descendants == old(descendants) + BelowFirst(folders, parentId, i)
      {
        var f := folders[i];
        BelowNext(folders, parentId, i);
        if f.parent == Some(parentId) {
          DescendInto(folders, parentId, path, f);
          descendants := descendants + {f.id};
          AddDescendants(folders, f.id, path + [f.id]);
        }
      }
    }
  }

  /** path leads down to x from a folder that is on no cycle. */
  ghost predicate MayDescend(folders: seq<Folder>, x: string, path: seq<string>) {
    && DistinctIds(folders) && DownPath(LinksOf(folders), path) && Last(path) == x
    && !OnCycle(LinksOf(folders), path[0])
  }

  /** The children of x among the first n folders, with everything below them. */
  ghost function BelowFirst(folders: seq<Folder>, x: string, n: nat): set<string>
    requires n <= |folders|
  {
    SubtreeOfAll(LinksOf(folders), ChildIds(folders[..n], x))
  }

  lemma BelowNext(folders: seq<Folder>, x: string, n: nat)
    requires n < |folders|
    ensures BelowFirst(folders, x, n + 1) == BelowFirst(folders, x, n)
              + if folders[n].parent == Some(x) then {folders[n].id} + Descendants(folders, folders[n].id) else {}
  {
    var id := folders[n].id;
    assert folders[..n + 1][..n] == folders[..n] && Last(folders[..n + 1]) == folders[n];
    TopInSubtree(LinksOf(folders), id);
  }

  lemma DescendInto(folders: seq<Folder>, x: string, path: seq<string>, f: Folder)
    requires MayDescend(folders, x, path) && f in folders && f.parent == Some(x)
    ensures MayDescend(folders, f.id, path + [f.id]) && |path| < |LinksOf(folders)| + 1
  {
    LinksOfHas(folders, f);
    PathIsBounded(LinksOf(folders), path + [f.id]);
  }

  /** The ids below folderId, for a folder on no cycle: on a cycle the descent does not end. */
  method GetDescendantIds(folderId: string, folders: seq<Folder>) returns (descendants: set<string>)
    requires DistinctIds(folders) && !OnCycle(LinksOf(folders), folderId)
    ensures forall x :: x in descendants <==> Reaches(LinksOf(folders), folderId, x) && x != folderId
  {
    var collector := new DescendantCollector();
    collector.AddDescendants(folders, folderId, [folderId]);
    descendants := collector.descendants;
    forall x | Reaches(LinksOf(folders), folderId, x) && x != folderId ensures x in descendants {
      ReachedIsKnown(LinksOf(folders), folderId, x);
    }
  }

  lemma ReachedIsKnown(g: Parents, top: string, x: string)
    requires Reaches(g, top, x) && x != top
    ensures x in g
  {
    var path :| PathFrom(g, top, path) && Last(path) == x;
    assert IsChild(g, path[|path| - 2], path[|path| - 1]);
  }
}
