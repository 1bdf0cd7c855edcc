/** Entry names of a ZIP archive: no two entries share one. A cache counts the renames of each
    name. */
module ZipNames {
  import opened Decimal
  import opened Sequences

  /** filepath.Ext: what follows the last dot of the last path segment, the dot included. */
  function Ext(name: string): string {
    if name == [] then []
    else
      var c := name[|name| - 1];
      if c == '/' then []
      else if c == '.' then [c]
      else
        var front := Ext(name[..|name| - 1]);
        if front == [] then [] else front + [c]
  }

  lemma {:induction false} ExtIsSuffix(name: string)
    ensures |Ext(name)| <= |name| && name == name[..|name| - |Ext(name)|] + Ext(name)
  {
    if name != [] {
      ExtIsSuffix(name[..|name| - 1]);
      assert name == name[..|name| - 1] + [name[|name| - 1]];
    }
  }

  /** strings.TrimSuffix(name, filepath.Ext(name)). */
  function Base(name: string): string {
    ExtIsSuffix(name);
    name[..|name| - |Ext(name)|]
  }

  /** The n-th alternative for name: "base (n)ext". */
  function Candidate(name: string, n: int): string {
    Base(name) + " (" + Itoa(n) + ")" + Ext(name)
  }

  lemma CandidateInjective(name: string, m: int, n: int)
    requires Candidate(name, m) == Candidate(name, n)
    ensures m == n
  {
    var before := |Base(name)| + 2;
    var after := |Ext(name)| + 1;
    assert Candidate(name, m)[before..|Candidate(name, m)| - after] == Itoa(m);
    assert Candidate(name, n)[before..|Candidate(name, n)| - after] == Itoa(n);
    ItoaInjective(m, n);
  }

  function Requested(name: string): string {
    if name == "" then "file" else name
  }

  /** Candidates lo .. hi - 1 of name are all taken. */
  ghost predicate AllTaken(used: set<string>, name: string, lo: int, hi: int) {
    forall k | lo <= k < hi :: Candidate(name, k) in used
  }

  /** entry is what a search without a cache gives: the requested name if it is free, otherwise the
      first free alternative. */
  ghost predicate IsFirstFree(used: set<string>, name: string, entry: string) {
    if name !in used then entry == name
    else exists n :: 1 <= n && entry == Candidate(name, n) && entry !in used && AllTaken(used, name, 1, n)
  }

  lemma FirstFreeIsUnique(used: set<string>, name: string, a: string, b: string)
    requires IsFirstFree(used, name, a) && IsFirstFree(used, name, b)
    ensures a == b
  {
    if name in used {
      var m :| 1 <= m && a == Candidate(name, m) && a !in used && AllTaken(used, name, 1, m);
      var n :| 1 <= n && b == Candidate(name, n) && b !in used && AllTaken(used, name, 1, n);
      assert m < n ==> Candidate(name, m) in used;
      assert n < m ==> Candidate(name, n) in used;
    }
  }

  ghost function Candidates(name: string, lo: int, hi: int): set<string> {
    set k | lo <= k < hi :: Candidate(name, k)
  }

  lemma {:induction false} CandidateCount(name: string, lo: int, hi: int)
    requires lo <= hi
    ensures |Candidates(name, lo, hi)| == hi - lo
    decreases hi - lo
  {
    if lo < hi {
      CandidateCount(name, lo, hi - 1);
      var last := Candidate(name, hi - 1);
      forall k | lo <= k < hi - 1 ensures Candidate(name, k) != last {
        if Candidate(name, k) == last {
          CandidateInjective(name, k, hi - 1);
        }
      }
      assert Candidates(name, lo, hi) == Candidates(name, lo, hi - 1) + {last};
    }
  }

  /** Only so many alternatives can be taken. */
  lemma TakenIsBounded(used: set<string>, name: string, lo: int, hi: int)
    requires lo <= hi && AllTaken(used, name, lo, hi)
    ensures hi - lo <= |used|
  {
    CandidateCount(name, lo, hi);
    SubsetCount(Candidates(name, lo, hi), used);
  }

  /** What the archive code keeps true of its map: every counter is honest. */
  ghost predicate CountersHonest(seen: map<string, int>) {
    forall name | name in seen :: 0 <= seen[name] && AllTaken(seen.Keys, name, 1, seen[name] + 1)
  }

  lemma HonestAfterFirst(seen: map<string, int>, name: string)
    requires CountersHonest(seen) && name !in seen
    ensures CountersHonest(seen[name := 0])
  {
  }

  lemma HonestAfterRename(seen: map<string, int>, name: string, n: int)
    requires CountersHonest(seen) && name in seen && seen[name] < n
    requires AllTaken(seen.Keys, name, seen[name] + 1, n) && Candidate(name, n) !in seen
    ensures CountersHonest(seen[name := n][Candidate(name, n) := 0])
    ensures IsFirstFree(seen.Keys, name, Candidate(name, n))
  {
    var after := seen[name := n][Candidate(name, n) := 0];
    assert AllTaken(seen.Keys, name, 1, n);
    forall x | x in after ensures 0 <= after[x] && AllTaken(after.Keys, x, 1, after[x] + 1) {
      if x != Candidate(name, n) && x != name {
        assert AllTaken(seen.Keys, x, 1, seen[x] + 1);
      }
    }
  }

  /** The names given out so far, with the rename counters. */
  class NameCache {
    var seen: map<string, int>

    constructor ()
      ensures seen == map[]
    {
      seen := map[];
    }

    /** Ends for every map, whatever its counters say, with a name not given out before. With
        honest counters it is the name a search from 1 would find. */
    method ExpDedupeName(given: string) returns (entry: string)
      modifies this
      ensures entry !in old(seen) && seen.Keys == old(seen).Keys + {entry}
      ensures Requested(given) !in old(seen) ==> entry == Requested(given)
      ensures CountersHonest(old(seen)) ==> CountersHonest(seen) && IsFirstFree(old(seen).Keys, Requested(given), entry)
    {
      var name := Requested(given);
      if name !in seen {
        if CountersHonest(seen) {
          HonestAfterFirst(seen, name);
        }
        seen := seen[name := 0];
        return name;
      }
      entry := NextFree(name);
    }

    method NextFree(name: string) returns (entry: string)
      requires name in seen
      modifies this
      ensures entry !in old(seen) && seen.Keys == old(seen).Keys + {entry}
      ensures CountersHonest(old(seen)) ==> CountersHonest(seen) && IsFirstFree(old(seen).Keys, name, entry)
    {
      ghost var was := seen;
      ghost var n := seen[name];
      while true
        invariant Tried(was, name, n) && seen == was[name := n]
        decreases |was| + was[name] - n
      {
        n := n + 1;
        seen := seen[name := seen[name] + 1];
        entry := Candidate(name, seen[name]);
        if entry !in seen {
          FoundFree(was, name, n);
          seen := seen[entry := 0];
          return;
        }
        TriedOneMore(was, name, n);
      }
    }
  }

  /** The search for an alternative has tried everything up to n in vain. */
  ghost predicate Tried(was: map<string, int>, name: string, n: int) {
    name in was && was[name] <= n && AllTaken(was.Keys, name, was[name] + 1, n + 1)
  }

  lemma TriedOneMore(was: map<string, int>, name: string, n: int)
    requires Tried(was, name, n - 1) && Candidate(name, n) in was
    ensures Tried(was, name, n) && n <= |was| + was[name]
  {
    TakenIsBounded(was.Keys, name, was[name] + 1, n + 1);
  }

  lemma FoundFree(was: map<string, int>, name: string, n: int)
    requires Tried(was, name, n - 1) && Candidate(name, n) !in was
    ensures CountersHonest(was) ==>
              CountersHonest(was[name := n][Candidate(name, n) := 0]) && IsFirstFree(was.Keys, name, Candidate(name, n))
    ensures was[name := n][Candidate(name, n) := 0].Keys == was.Keys + {Candidate(name, n)}
  {
    if CountersHonest(was) {
      HonestAfterRename(was, name, n);
    }
  }

  /** Each entry is the first free name, given the entries before it. */
  ghost predicate AllFirstFree(names: seq<string>, entries: seq<string>)
    requires |entries| <= |names|
  {
    forall i | 0 <= i < |entries| :: IsFirstFree(Elements(entries[..i]), Requested(names[i]), entries[i])
  }

  lemma EntryAdded(names: seq<string>, entries: seq<string>, entry: string)
    requires |entries| < |names| && NoDuplicates(entries) && AllFirstFree(names, entries)
    requires entry !in entries && IsFirstFree(Elements(entries), Requested(names[|entries|]), entry)
    ensures NoDuplicates(entries + [entry]) && AllFirstFree(names, entries + [entry])
    ensures Elements(entries + [entry]) == Elements(entries) + {entry}
  {
    var more := entries + [entry];
    forall i | 0 <= i < |more| ensures IsFirstFree(Elements(more[..i]), Requested(names[i]), more[i]) {
      assert more[..i] == if i < |entries| then entries[..i] else entries;
    }
  }

  /** The entry names of one archive: all different, each the first free one for its file. */
  method EntryNames(names: seq<string>) returns (entries: seq<string>)
    ensures |entries| == |names| && NoDuplicates(entries)
    ensures AllFirstFree(names, entries)
  {
    var cache := new NameCache();
    entries := [];
    for i := 0 to |names|
      invariant |entries| == i && NoDuplicates(entries) && AllFirstFree(names, entries)
      invariant cache.seen.Keys == Elements(entries) && CountersHonest(cache.seen)
    {
      var entry := cache.ExpDedupeName(names[i]);
      EntryAdded(names, entries, entry);
      entries := entries + [entry];
    }
  }

  /** A file gets exactly the name it asks for if and only if no earlier entry has it. */
  lemma FreeNameIsKept(names: seq<string>, entries: seq<string>, i: nat)
    requires i < |entries| <= |names| && NoDuplicates(entries) && AllFirstFree(names, entries)
    ensures entries[i] == Requested(names[i]) <==> Requested(names[i]) !in entries[..i]
  {
    assert IsFirstFree(Elements(entries[..i]), Requested(names[i]), entries[i]);
    assert forall j | 0 <= j < i :: entries[..i][j] == entries[j];
  }

  /** The first file to ask for a name need not get it: an earlier file may have been renamed to it. */
  lemma FirstAskerMayMiss()
    ensures var names, entries := ["a", "a", "a (1)"], ["a", "a (1)", "a (1) (1)"];
            NoDuplicates(entries) && AllFirstFree(names, entries) && "a (1)" !in names[..2]
  {
    var names, entries := ["a", "a", "a (1)"], ["a", "a (1)", "a (1) (1)"];
    NoDotNoExt("a");
    NoDotNoExt("a (1)");
    assert Itoa(1) == "1";
    assert Candidate("a", 1) == "a (1)" && Candidate("a (1)", 1) == "a (1) (1)";
    assert entries[..0] == [] && entries[..1] == ["a"] && entries[..2] == ["a", "a (1)"];
    FirstAlternative(Elements(entries[..1]), "a");
    FirstAlternative(Elements(entries[..2]), "a (1)");
    assert |entries[1]| != |entries[0]| && |entries[2]| > |entries[1]|;
  }

  lemma FirstAlternative(used: set<string>, name: string)
    requires name in used && Candidate(name, 1) !in used
    ensures IsFirstFree(used, name, Candidate(name, 1))
  {
  }

  lemma {:induction false} NoDotNoExt(name: string)
    requires '.' !in name
    ensures Ext(name) == ""
  {
    if name != "" {
      NoDotNoExt(name[..|name| - 1]);
    }
  }

  // ---- the extension ----

  /** At d stands a dot, and from there on no other dot and no slash. */
  ghost predicate LastDotAt(name: string, d: nat) {
    d < |name| && name[d] == '.' && forall k | d < k < |name| :: name[k] != '.' && name[k] != '/'
  }

  /** The extension begins at the last dot of the last path segment; without one it is empty. */
  lemma {:induction false} ExtIs(name: string)
    ensures forall d: nat | LastDotAt(name, d) :: Ext(name) == name[d..]
    ensures (forall d: nat :: !LastDotAt(name, d)) ==> Ext(name) == ""
  {
    if name != "" {
      var front, c := name[..|name| - 1], name[|name| - 1];
      ExtIs(front);
      if c == '.' {
        assert LastDotAt(name, |front|) && forall d: nat | LastDotAt(name, d) :: d == |front|;
      } else if c != '/' {
        forall d: nat ensures LastDotAt(name, d) <==> LastDotAt(front, d) {
          LastDotStays(front, c, d);
          assert name == front + [c];
        }
        forall d: nat | LastDotAt(name, d) ensures Ext(name) == name[d..] {
          assert Ext(front) == front[d..] && name[d..] == front[d..] + [c];
        }
      } else {
        assert forall d: nat :: !LastDotAt(name, d);
      }
    }
  }

  lemma LastDotStays(front: string, c: char, d: nat)
    requires c != '.' && c != '/'
    ensures LastDotAt(front + [c], d) <==> LastDotAt(front, d)
  {
    var name := front + [c];
    assert forall k | 0 <= k < |front| :: name[k] == front[k];
    assert name[|front|] == c;
  }

  /** The number of a rename stands before the extension. */
  lemma RenameExample()
    ensures Requested("") == "file"
    ensures Candidate("docs.v2/a.pdf", 1) == "docs.v2/a (1).pdf" && Candidate("docs.v2/a", 12) == "docs.v2/a (12)"
  {
    var pdf, plain := "docs.v2/a.pdf", "docs.v2/a";
    ExtIs(pdf);
    ExtIs(plain);
    assert LastDotAt(pdf, 9) && pdf[9..] == ".pdf" && pdf[..9] == plain;
    assert plain[7] == '/' && plain[8] == 'a';
    assert forall d: nat :: !LastDotAt(plain, d);
    assert Itoa(1) == "1" && Itoa(12) == "12";
    assert plain + " (1)" + ".pdf" == "docs.v2/a (1).pdf" && plain + " (12)" == "docs.v2/a (12)";
  }
}
