/** Collecting the files of a public folder tree for "download all": a recursion through open
    subfolders that stops below depth 32, so that it ends even when the links form a cycle. */
module ZipCollector {
  import opened Sequences
  import opened GoText
  import opened Wrappers
  import ZipNames

  datatype SharedFolder = SharedFolder(id: string, name: string, parent: Option<string>, isPublic: bool,
                                       password: Option<string>)

  datatype SharedFile = SharedFile(id: string, name: string, original: Option<string>, folder: Option<string>)

  /** The folders table in name order, the files table in order of creation. */
  datatype Site = Site(folders: seq<SharedFolder>, files: seq<SharedFile>)

  datatype ZipFile = ZipFile(name: string, original: Option<string>, rel: string)

  const MAX_DEPTH := 32

  predicate IsOpen(f: SharedFolder) {
    f.isPublic && (f.password == None || f.password == Some(""))
  }

  function Sanitized(name: string): string {
    if name == [] then []
    else [if name[0] in {'"', '\\', '/'} || name[0] < ' ' then '_' else name[0]] + Sanitized(name[1..])
  }

  /** The directory name of a folder in the archive. */
  function Segment(name: string): string {
    if TrimSpace(name) == "" then "folder" else Sanitized(name)
  }

  lemma {:induction false} SanitizedHasNoSlash(name: string)
    ensures '/' !in Sanitized(name) && |Sanitized(name)| == |name|
  {
    if name != [] {
      SanitizedHasNoSlash(name[1..]);
    }
  }

  /** SELECT … FROM files WHERE folder_id = folder ORDER BY created_at. */
  function FilesIn(files: seq<SharedFile>, folder: string): seq<SharedFile> {
    if files == [] then []
    else FilesIn(files[..|files| - 1], folder)
         + if files[|files| - 1].folder == Some(folder) then [files[|files| - 1]] else []
  }

  /** SELECT … FROM folders WHERE parent_id = folder AND public AND no password ORDER BY name. */
  function OpenChildren(folders: seq<SharedFolder>, folder: string): seq<SharedFolder> {
    if folders == [] then []
    else
      var last := folders[|folders| - 1];
      OpenChildren(folders[..|folders| - 1], folder)
      + if last.parent == Some(folder) && IsOpen(last) then [last] else []
  }

  lemma {:induction false} FilesInHas(files: seq<SharedFile>, folder: string, f: SharedFile)
    ensures f in FilesIn(files, folder) <==> f in files && f.folder == Some(folder)
  {
    if files != [] {
      FilesInHas(files[..|files| - 1], folder, f);
      assert files == files[..|files| - 1] + [files[|files| - 1]];
    }
  }

  lemma {:induction false} OpenChildrenHas(folders: seq<SharedFolder>, folder: string, f: SharedFolder)
    ensures f in OpenChildren(folders, folder) <==> f in folders && f.parent == Some(folder) && IsOpen(f)
  {
    if folders != [] {
      OpenChildrenHas(folders[..|folders| - 1], folder, f);
      assert folders == folders[..|folders| - 1] + [folders[|folders| - 1]];
    }
  }

  lemma {:induction false} FilesInOnce(files: seq<SharedFile>, folder: string)
    requires NoDuplicates(files)
    ensures NoDuplicates(FilesIn(files, folder))
  {
    if files != [] {
      FilesInOnce(files[..|files| - 1], folder);
      FilesInHas(files[..|files| - 1], folder, files[|files| - 1]);
    }
  }

  lemma {:induction false} OpenChildrenOnce(folders: seq<SharedFolder>, folder: string)
    requires NoDuplicates(folders)
    ensures NoDuplicates(OpenChildren(folders, folder))
  {
    if folders != [] {
      OpenChildrenOnce(folders[..|folders| - 1], folder);
      OpenChildrenHas(folders[..|folders| - 1], folder, folders[|folders| - 1]);
    }
  }

  // ---- the places a file can be collected at ----

  function EndOf(top: string, chain: seq<SharedFolder>): string {
    if chain == [] then top else chain[|chain| - 1].id
  }

  /** chain leads from top down through open folders. */
  ghost predicate OpenChain(site: Site, top: string, chain: seq<SharedFolder>) {
    forall i | 0 <= i < |chain| :: OpenStep(site, top, chain, i)
  }

  function PrefixOf(chain: seq<SharedFolder>): string {
    if chain == [] then "" else PrefixOf(chain[..|chain| - 1]) + Segment(chain[|chain| - 1].name) + "/"
  }

  /** A file, and the chain of folders through which it is reached. */
  datatype Place = Place(chain: seq<SharedFolder>, file: SharedFile)

  /** A file of a folder that a chain of at most limit open folders leads to. */
  ghost predicate IsPlace(site: Site, top: string, limit: nat, p: Place) {
    && OpenChain(site, top, p.chain) && |p.chain| <= limit
    && p.file in site.files && p.file.folder == Some(EndOf(top, p.chain))
  }

  function EntryOf(p: Place): ZipFile {
    ZipFile(p.file.name, p.file.original, PrefixOf(p.chain))
  }

  function EntriesOf(places: seq<Place>): seq<ZipFile> {
    seq(|places|, i requires 0 <= i < |places| => EntryOf(places[i]))
  }

  function PlacesHere(chain: seq<SharedFolder>, files: seq<SharedFile>): seq<Place> {
    if files == [] then [] else PlacesHere(chain, files[..|files| - 1]) + [Place(chain, files[|files| - 1])]
  }

  lemma {:induction false} PlacesHereAt(chain: seq<SharedFolder>, files: seq<SharedFile>)
    ensures var r := PlacesHere(chain, files);
            |r| == |files| && forall i | 0 <= i < |r| :: r[i] == Place(chain, files[i])
  {
    if files != [] {
      PlacesHereAt(chain, files[..|files| - 1]);
    }
  }

  /** The places at and below chain, in the order of the recursion, with budget levels left. */
  function Places(site: Site, top: string, chain: seq<SharedFolder>, budget: nat): seq<Place>
    decreases budget, 0, 0
  {
    if budget == 0 then []
    else PlacesHere(chain, FilesIn(site.files, EndOf(top, chain)))
         + PlacesBelow(site, top, chain, OpenChildren(site.folders, EndOf(top, chain)), budget - 1)
  }

  function PlacesBelow(site: Site, top: string, chain: seq<SharedFolder>, kids: seq<SharedFolder>,
                       budget: nat): seq<Place>
    decreases budget, 1, |kids|
  {
    if kids == [] then []
    else Places(site, top, chain + [kids[0]], budget) + PlacesBelow(site, top, chain, kids[1..], budget)
  }

  /** The i-th step of chain is one down a public folder without a password. */
  ghost predicate OpenStep(site: Site, top: string, chain: seq<SharedFolder>, i: nat)
    requires i < |chain|
  {
    && chain[i] in site.folders && chain[i].parent == Some(if i == 0 then top else chain[i - 1].id)
    && chain[i].isPublic && (chain[i].password == None || chain[i].password == Some(""))
  }

  lemma OpenChainExtends(site: Site, top: string, chain: seq<SharedFolder>, f: SharedFolder)
    requires OpenChain(site, top, chain)
    ensures f in OpenChildren(site.folders, EndOf(top, chain)) <==> OpenChain(site, top, chain + [f])
  {
    OpenChildrenHas(site.folders, EndOf(top, chain), f);
    var next := chain + [f];
    forall i | 0 <= i < |chain| ensures OpenStep(site, top, next, i) {
      assert next[..i] == chain[..i] && OpenStep(site, top, chain, i);
    }
    assert next[..|chain|] == chain;
    assert OpenStep(site, top, next, |chain|) <==> f in OpenChildren(site.folders, EndOf(top, chain));
  }

  lemma OpenChainPrefix(site: Site, top: string, chain: seq<SharedFolder>, n: nat)
    requires OpenChain(site, top, chain) && n <= |chain|
    ensures OpenChain(site, top, chain[..n])
  {
    forall i | 0 <= i < n ensures OpenStep(site, top, chain[..n], i) {
      assert chain[..n][..i] == chain[..i] && OpenStep(site, top, chain, i);
    }
  }

  /** p is a place whose chain starts with chain, at most budget - 1 folders longer. */
  ghost predicate IsPlaceUnder(site: Site, top: string, chain: seq<SharedFolder>, budget: nat, p: Place) {
    chain <= p.chain && |p.chain| < |chain| + budget && IsPlace(site, top, |p.chain|, p)
  }

  ghost predicate AreNext(site: Site, top: string, chain: seq<SharedFolder>, kids: seq<SharedFolder>) {
    forall f | f in kids :: OpenChain(site, top, chain + [f])
  }

  ghost predicate UnderKid(site: Site, top: string, chain: seq<SharedFolder>, kids: seq<SharedFolder>, budget: nat,
                           p: Place) {
    exists f :: f in kids && IsPlaceUnder(site, top, chain + [f], budget, p)
  }

  lemma {:induction false} PlacesAreUnder(site: Site, top: string, chain: seq<SharedFolder>, budget: nat, p: Place)
    requires OpenChain(site, top, chain)
    ensures p in Places(site, top, chain, budget) <==> IsPlaceUnder(site, top, chain, budget, p)
    decreases budget, 0, 0
  {
    if budget > 0 {
      var kids := OpenChildren(site.folders, EndOf(top, chain));
      KidsAreNext(site, top, chain);
      HereUnder(site, top, chain, budget, p);
      BelowUnder(site, top, chain, budget, p);
      BelowAreUnder(site, top, chain, kids, budget - 1, p);
    }
  }

  lemma KidsAreNext(site: Site, top: string, chain: seq<SharedFolder>)
    requires OpenChain(site, top, chain)
    ensures AreNext(site, top, chain, OpenChildren(site.folders, EndOf(top, chain)))
  {
    var kids := OpenChildren(site.folders, EndOf(top, chain));
    forall f | f in kids ensures OpenChain(site, top, chain + [f]) {
      OpenChainExtends(site, top, chain, f);
    }
  }

  lemma HereUnder(site: Site, top: string, chain: seq<SharedFolder>, budget: nat, p: Place)
    requires OpenChain(site, top, chain) && budget > 0
    ensures p in PlacesHere(chain, FilesIn(site.files, EndOf(top, chain))) <==>
            p.chain == chain && IsPlaceUnder(site, top, chain, budget, p)
  {
    FilesInHas(site.files, EndOf(top, chain), p.file);
    HereIs(chain, FilesIn(site.files, EndOf(top, chain)), p);
  }

  lemma BelowUnder(site: Site, top: string, chain: seq<SharedFolder>, budget: nat, p: Place)
    requires OpenChain(site, top, chain) && budget > 0
    ensures UnderKid(site, top, chain, OpenChildren(site.folders, EndOf(top, chain)), budget - 1, p) <==>
            p.chain != chain && IsPlaceUnder(site, top, chain, budget, p)
  {
    if p.chain != chain && IsPlaceUnder(site, top, chain, budget, p) {
      FirstStep(site, top, chain, p.chain);
      OpenChainExtends(site, top, chain, p.chain[|chain|]);
      assert IsPlaceUnder(site, top, chain + [p.chain[|chain|]], budget - 1, p);
    }
  }

  lemma HereIs(chain: seq<SharedFolder>, files: seq<SharedFile>, p: Place)
    ensures p in PlacesHere(chain, files) <==> p.chain == chain && p.file in files
  {
    PlacesHereAt(chain, files);
    if p.chain == chain && p.file in files {
      var i :| 0 <= i < |files| && files[i] == p.file;
      assert PlacesHere(chain, files)[i] == p;
    }
  }

  lemma FirstStep(site: Site, top: string, chain: seq<SharedFolder>, longer: seq<SharedFolder>)
    requires OpenChain(site, top, longer) && chain <= longer && chain != longer
    ensures |chain| < |longer| && chain + [longer[|chain|]] <= longer && OpenChain(site, top, chain + [longer[|chain|]])
  {
    assert longer[..|chain| + 1] == chain + [longer[|chain|]];
    OpenChainPrefix(site, top, longer, |chain| + 1);
  }

  lemma {:induction false} BelowAreUnder(site: Site, top: string, chain: seq<SharedFolder>, kids: seq<SharedFolder>,
                                         budget: nat, p: Place)
    requires AreNext(site, top, chain, kids)
    ensures p in PlacesBelow(site, top, chain, kids, budget) <==> UnderKid(site, top, chain, kids, budget, p)
    decreases budget, 1, |kids|
  {
    if kids != [] {
      PlacesAreUnder(site, top, chain + [kids[0]], budget, p);
      BelowAreUnder(site, top, chain, kids[1..], budget, p);
      assert kids == [kids[0]] + kids[1..];
    }
  }

  /** A file is collected at every place within the depth limit, and nowhere else. */
  lemma CollectsEveryPlace(site: Site, top: string, p: Place)
    ensures p in Places(site, top, [], MAX_DEPTH + 1) <==> IsPlace(site, top, 32, p)
  {
    PlacesAreUnder(site, top, [], MAX_DEPTH + 1, p);
  }

  // ---- and only once ----

  lemma {:induction false} PlacesOnce(site: Site, top: string, chain: seq<SharedFolder>, budget: nat)
    requires OpenChain(site, top, chain) && NoDuplicates(site.folders) && NoDuplicates(site.files)
    ensures NoDuplicates(Places(site, top, chain, budget))
    decreases budget, 0, 0
  {
    if budget > 0 {
      var end := EndOf(top, chain);
      var kids := OpenChildren(site.folders, end);
      KidsAreNext(site, top, chain);
      OpenChildrenOnce(site.folders, end);
      BelowOnce(site, top, chain, kids, budget - 1);
      HereOnce(site, top, chain, kids, budget - 1);
    }
  }

  lemma HereOnce(site: Site, top: string, chain: seq<SharedFolder>, kids: seq<SharedFolder>, budget: nat)
    requires AreNext(site, top, chain, kids)
    requires NoDuplicates(site.files) && NoDuplicates(PlacesBelow(site, top, chain, kids, budget))
    ensures NoDuplicates(PlacesHere(chain, FilesIn(site.files, EndOf(top, chain)))
                         + PlacesBelow(site, top, chain, kids, budget))
  {
    var files := FilesIn(site.files, EndOf(top, chain));
    FilesInOnce(site.files, EndOf(top, chain));
    PlacesHereAt(chain, files);
    forall p | p in PlacesHere(chain, files) ensures p !in PlacesBelow(site, top, chain, kids, budget) {
      BelowAreUnder(site, top, chain, kids, budget, p);
    }
    NoDuplicatesJoin(PlacesHere(chain, files), PlacesBelow(site, top, chain, kids, budget));
  }

  lemma NoDuplicatesJoin<T>(a: seq<T>, b: seq<T>)
    requires NoDuplicates(a) && NoDuplicates(b) && forall x | x in a :: x !in b
    ensures NoDuplicates(a + b)
  {
    forall i, j | 0 <= i < j < |a + b| ensures (a + b)[i] != (a + b)[j] {
      if i < |a| <= j {
        assert (a + b)[i] in a && (a + b)[j] == b[j - |a|];
      }
    }
  }

  lemma {:induction false} BelowOnce(site: Site, top: string, chain: seq<SharedFolder>, kids: seq<SharedFolder>,
                                     budget: nat)
    requires NoDuplicates(site.folders) && NoDuplicates(site.files) && NoDuplicates(kids)
    requires AreNext(site, top, chain, kids)
    ensures NoDuplicates(PlacesBelow(site, top, chain, kids, budget))
    decreases budget, 1, |kids|
  {
    if kids != [] {
      var first := Places(site, top, chain + [kids[0]], budget);
      var rest := PlacesBelow(site, top, chain, kids[1..], budget);
      PlacesOnce(site, top, chain + [kids[0]], budget);
      BelowOnce(site, top, chain, kids[1..], budget);
      forall p | p in first ensures p !in rest {
        PlacesAreUnder(site, top, chain + [kids[0]], budget, p);
        BelowAreUnder(site, top, chain, kids[1..], budget, p);
      }
      NoDuplicatesJoin(first, rest);
    }
  }

  // ---- the collecting recursion ----

  class Collector {
    var out: seq<ZipFile>

    constructor ()
      ensures out == []
    {
      out := [];
    }

    /** folderID is where chain leads from top, prefix its path in the archive. */
    method SactCollectZipFiles(site: Site, folderID: string, prefix: string, depth: nat,
                               ghost top: string, ghost chain: seq<SharedFolder>, ghost budget: nat)
      requires folderID == EndOf(top, chain) && prefix == PrefixOf(chain) && depth + budget == MAX_DEPTH + 1
      modifies this
      ensures out == old(out) + EntriesOf(Places(site, top, chain, budget))
      decreases budget, 1
    {
      if depth > MAX_DEPTH {
        return;
      }
      var files, kids := FilesIn(site.files, folderID), OpenChildren(site.folders, folderID);
      PlacesUnfold(site, top, chain, budget, old(out));
      AppendFiles(files, prefix, chain);
      CollectKids(site, kids, prefix, depth, top, chain, budget - 1);
    }

    method CollectKids(site: Site, kids: seq<SharedFolder>, prefix: string, depth: nat,
                       ghost top: string, ghost chain: seq<SharedFolder>, ghost budget: nat)
      requires prefix == PrefixOf(chain) && depth + budget == MAX_DEPTH
      modifies this
      ensures out == old(out) + EntriesOf(PlacesBelow(site, top, chain, kids, budget))
      decreases budget, 2
    {
      ghost var all := out + EntriesOf(PlacesBelow(site, top, chain, kids, budget));
      assert kids[0..] == kids;
      for i := 0 to |kids|
        invariant out + EntriesOf(PlacesBelow(site, top, chain, kids[i..], budget)) == all
      {
        var c := kids[i];
        NextKid(site, top, chain, kids, i, budget, out);
        SactCollectZipFiles(site, c.id, prefix + Segment(c.name) + "/", depth + 1, top, chain + [c], budget);
      }
    }

    method AppendFiles(files: seq<SharedFile>, prefix: string, ghost chain: seq<SharedFolder>)
      requires prefix == PrefixOf(chain)
      modifies this
      ensures out == old(out) + EntriesOf(PlacesHere(chain, files))
    {
      for i := 0 to |files|
        invariant out == old(out) + EntriesOf(PlacesHere(chain, files[..i]))
      {
        PlacesHereGrow(chain, files, i, old(out));
        out := out + [ZipFile(files[i].name, files[i].original, prefix)];
      }
      assert files[..|files|] == files;
    }
  }

  lemma PlacesHereGrow(chain: seq<SharedFolder>, files: seq<SharedFile>, i: nat, out: seq<ZipFile>)
    requires i < |files|
    ensures out + EntriesOf(PlacesHere(chain, files[..i + 1]))
            == out + EntriesOf(PlacesHere(chain, files[..i]))
              + [ZipFile(files[i].name, files[i].original, PrefixOf(chain))]
  {
    assert files[..i + 1][..i] == files[..i];
    EntriesJoin(PlacesHere(chain, files[..i]), [Place(chain, files[i])]);
  }

  lemma EntriesJoin(a: seq<Place>, b: seq<Place>)
    ensures EntriesOf(a + b) == EntriesOf(a) + EntriesOf(b)
  {
  }

  lemma NextKid(site: Site, top: string, chain: seq<SharedFolder>, kids: seq<SharedFolder>, i: nat, budget: nat,
                out: seq<ZipFile>)
    requires i < |kids|
    ensures out + EntriesOf(PlacesBelow(site, top, chain, kids[i..], budget))
            == out + EntriesOf(Places(site, top, chain + [kids[i]], budget))
               + EntriesOf(PlacesBelow(site, top, chain, kids[i + 1..], budget))
    ensures PrefixOf(chain + [kids[i]]) == PrefixOf(chain) + Segment(kids[i].name) + "/"
  {
    assert kids[i..][1..] == kids[i + 1..];
    PrefixOneMore(chain, kids[i]);
    EntriesJoin(Places(site, top, chain + [kids[i]], budget), PlacesBelow(site, top, chain, kids[i + 1..], budget));
  }

  lemma PlacesUnfold(site: Site, top: string, chain: seq<SharedFolder>, budget: nat, out: seq<ZipFile>)
    requires budget > 0
    ensures out + EntriesOf(Places(site, top, chain, budget))
            == out + EntriesOf(PlacesHere(chain, FilesIn(site.files, EndOf(top, chain))))
               + EntriesOf(PlacesBelow(site, top, chain, OpenChildren(site.folders, EndOf(top, chain)), budget - 1))
  {
    var here := PlacesHere(chain, FilesIn(site.files, EndOf(top, chain)));
    var below := PlacesBelow(site, top, chain, OpenChildren(site.folders, EndOf(top, chain)), budget - 1);
    assert Places(site, top, chain, budget) == here + below;
    EntriesJoin(here, below);
  }

  // ---- paths in the archive ----

  function Segments(chain: seq<SharedFolder>): seq<string> {
    if chain == [] then [] else Segments(chain[..|chain| - 1]) + [Segment(chain[|chain| - 1].name)]
  }

  /** The directory path shows how deep the folder was, and the directory names on the way. */
  lemma {:induction false} PrefixDeterminesSegments(a: seq<SharedFolder>, b: seq<SharedFolder>)
    requires PrefixOf(a) == PrefixOf(b)
    ensures Segments(a) == Segments(b)
  {
    if a != [] && b != [] {
      SplitLast(a, b);
      PrefixDeterminesSegments(a[..|a| - 1], b[..|b| - 1]);
    }
  }

  lemma SplitLast(a: seq<SharedFolder>, b: seq<SharedFolder>)
    requires PrefixOf(a) == PrefixOf(b) && a != [] && b != []
    ensures PrefixOf(a[..|a| - 1]) == PrefixOf(b[..|b| - 1])
    ensures Segment(a[|a| - 1].name) == Segment(b[|b| - 1].name)
  {
    SegmentHasNoSlash(a[|a| - 1].name);
    SegmentHasNoSlash(b[|b| - 1].name);
    PrefixEndsInSlash(a[..|a| - 1]);
    PrefixEndsInSlash(b[..|b| - 1]);
    LastSegment(PrefixOf(a[..|a| - 1]), Segment(a[|a| - 1].name), PrefixOf(b[..|b| - 1]), Segment(b[|b| - 1].name));
  }

  lemma SegmentHasNoSlash(name: string)
    ensures '/' !in Segment(name)
  {
    SanitizedHasNoSlash(name);
  }

  lemma PrefixEndsInSlash(chain: seq<SharedFolder>)
    ensures PrefixOf(chain) == [] || PrefixOf(chain)[|PrefixOf(chain)| - 1] == '/'
  {
  }

  lemma InFirstOrSecond(p: string, s: string, k: nat)
    requires k < |p + s|
    ensures k < |p| || (p + s)[k] in s
  {
    if k >= |p| {
      assert (p + s)[k] == s[k - |p|];
    }
  }

  lemma LastSegment(p: string, s: string, q: string, t: string)
    requires p + s + "/" == q + t + "/" && '/' !in s && '/' !in t
    requires p == [] || p[|p| - 1] == '/'
    requires q == [] || q[|q| - 1] == '/'
    ensures p == q && s == t
  {
    assert (p + s + "/")[..|p + s|] == p + s && (q + t + "/")[..|q + t|] == q + t;
    var w := p + s;
    assert w == q + t;
    assert p != [] ==> w[|p| - 1] == '/';
    assert q != [] ==> w[|q| - 1] == '/';
    if p != [] {
      InFirstOrSecond(q, t, |p| - 1);
    }
    if q != [] {
      InFirstOrSecond(p, s, |q| - 1);
    }
    assert |p| == |q|;
    assert w[..|p|] == p && w[..|q|] == q && w[|p|..] == s && w[|q|..] == t;
  }

  /** A folder's directory name: "folder" for a blank name, else the name with quotes, backslashes,
      slashes and control characters replaced by underscores. */
  lemma SegmentIs(name: string)
    ensures (forall i | 0 <= i < |name| :: IsSpace(name[i])) ==> Segment(name) == "folder"
    ensures (exists i :: 0 <= i < |name| && !IsSpace(name[i])) ==>
              && |Segment(name)| == |name|
              && forall i | 0 <= i < |name| ::
                   Segment(name)[i] == if name[i] in "\"\\/" || (name[i] as int) < 32 then '_' else name[i]
  {
    TrimSpaceBlank(name);
    SanitizedAt(name);
  }

  lemma {:induction false} SanitizedAt(name: string)
    ensures |Sanitized(name)| == |name|
    ensures forall i | 0 <= i < |name| ::
              Sanitized(name)[i] == if name[i] in "\"\\/" || (name[i] as int) < 32 then '_' else name[i]
  {
    if name != [] {
      SanitizedAt(name[1..]);
      assert forall i | 0 < i < |name| :: name[i] == name[1..][i - 1];
      assert Sanitized(name)[1..] == Sanitized(name[1..]);
    }
  }

  /** The directory names that a path of an archive entry is read as: what stands before each slash. */
  function Directories(path: string, part: string): seq<string> {
    if path == "" then []
    else if path[0] == '/' then [part] + Directories(path[1..], "")
    else Directories(path[1..], part + [path[0]])
  }

  lemma {:induction false} DirectoriesThen(path: string, part: string, segment: string)
    requires '/' !in segment && (path == "" || path[|path| - 1] == '/')
    ensures Directories(path + segment + "/", part)
            == if path == "" then [part + segment] else Directories(path, part) + [segment]
    decreases |path|
  {
    var longer := path + segment + "/";
    if path == "" {
      assert longer == segment + "/";
      OneDirectory(segment, part);
    } else {
      assert longer[0] == path[0] && longer[1..] == path[1..] + segment + "/";
      if path[0] == '/' {
        DirectoriesThen(path[1..], "", segment);
        assert "" + segment == segment;
      } else {
        DirectoriesThen(path[1..], part + [path[0]], segment);
      }
    }
  }

  lemma {:induction false} OneDirectory(segment: string, part: string)
    requires '/' !in segment
    ensures Directories(segment + "/", part) == [part + segment]
    decreases |segment|
  {
    if segment == "" {
      assert Directories("/", part) == [part] + Directories("/"[1..], "");
      assert part + segment == part && segment + "/" == "/";
    } else {
      OneDirectory(segment[1..], part + [segment[0]]);
      assert (segment + "/")[1..] == segment[1..] + "/" && (segment + "/")[0] == segment[0];
      assert part + [segment[0]] + segment[1..] == part + segment;
    }
  }

  /** A file's path in the archive is read as the directory names of the folders that lead to it, from
      the top folder down. */
  lemma {:induction false} PathIsChain(chain: seq<SharedFolder>)
    ensures AreDirectoriesOf(Directories(PrefixOf(chain), ""), chain)
  {
    if chain != [] {
      var front, last := chain[..|chain| - 1], chain[|chain| - 1];
      PathIsChain(front);
      OneMoreDirectory(front, last);
      assert chain == front + [last];
    }
  }

  ghost predicate AreDirectoriesOf(names: seq<string>, chain: seq<SharedFolder>) {
    |names| == |chain| && forall i | 0 <= i < |chain| :: names[i] == Segment(chain[i].name)
  }

  lemma OneMoreDirectory(chain: seq<SharedFolder>, last: SharedFolder)
    requires AreDirectoriesOf(Directories(PrefixOf(chain), ""), chain)
    ensures AreDirectoriesOf(Directories(PrefixOf(chain + [last]), ""), chain + [last])
  {
    var names := Directories(PrefixOf(chain), "");
    PrefixOneMore(chain, last);
    PathOneMore(chain, last.name);
    assert AreDirectoriesOf(names + [Segment(last.name)], chain + [last]);
  }

  lemma PrefixOneMore(chain: seq<SharedFolder>, last: SharedFolder)
    ensures PrefixOf(chain + [last]) == PrefixOf(chain) + Segment(last.name) + "/"
  {
    assert (chain + [last])[..|chain|] == chain;
  }

  lemma PathOneMore(chain: seq<SharedFolder>, name: string)
    ensures Directories(PrefixOf(chain) + Segment(name) + "/", "")
            == Directories(PrefixOf(chain), "") + [Segment(name)]
  {
    SegmentHasNoSlash(name);
    PrefixEndsInSlash(chain);
    DirectoriesThen(PrefixOf(chain), "", Segment(name));
    assert "" + Segment(name) == Segment(name);
    assert [] + [Segment(name)] == [Segment(name)];
  }

  // ---- in which order ----

  ghost predicate Precedes<T(!new)>(s: seq<T>, x: T, y: T) {
    exists i, j :: 0 <= i < j < |s| && s[i] == x && s[j] == y
  }

  /** Of two places whose chains agree in their first d folders: the files of a folder come before its
      subfolders, both in the order of their tables. */
  ghost predicate Before(site: Site, p: Place, q: Place, d: nat)
    requires d <= |p.chain| && d <= |q.chain|
    decreases |p.chain| - d
  {
    if |p.chain| == d then |q.chain| == d ==> Precedes(site.files, p.file, q.file)
    else
      && |q.chain| > d
      && if p.chain[d] == q.chain[d] then Before(site, p, q, d + 1)
         else Precedes(site.folders, p.chain[d], q.chain[d])
  }

  ghost predicate InOrder(site: Site, places: seq<Place>, d: nat) {
    && (forall p | p in places :: |p.chain| >= d)
    && (forall i, j | 0 <= i < j < |places| :: Before(site, places[i], places[j], d))
  }

  lemma {:induction false} FilesInOrder(files: seq<SharedFile>, folder: string, i: nat, j: nat)
    requires i < j < |FilesIn(files, folder)|
    ensures Precedes(files, FilesIn(files, folder)[i], FilesIn(files, folder)[j])
  {
    var front := files[..|files| - 1];
    if j < |FilesIn(front, folder)| {
      FilesInOrder(front, folder, i, j);
      var found := FilesIn(front, folder);
      var a, b :| 0 <= a < b < |front| && front[a] == found[i] && front[b] == found[j];
      assert files[a] == front[a] && files[b] == front[b];
    } else {
      FilesInHas(front, folder, FilesIn(front, folder)[i]);
      var a :| 0 <= a < |front| && front[a] == FilesIn(front, folder)[i];
      assert files[a] == front[a] && files[|files| - 1] == FilesIn(files, folder)[j];
    }
  }

  lemma {:induction false} OpenChildrenInOrder(folders: seq<SharedFolder>, folder: string, i: nat, j: nat)
    requires i < j < |OpenChildren(folders, folder)|
    ensures Precedes(folders, OpenChildren(folders, folder)[i], OpenChildren(folders, folder)[j])
  {
    var front := folders[..|folders| - 1];
    var kids := OpenChildren(front, folder);
    if j < |kids| {
      OpenChildrenInOrder(front, folder, i, j);
      var a, b :| 0 <= a < b < |front| && front[a] == kids[i] && front[b] == kids[j];
      assert folders[a] == front[a] && folders[b] == front[b];
    } else {
      OpenChildrenHas(front, folder, kids[i]);
      var a :| 0 <= a < |front| && front[a] == kids[i];
      assert folders[a] == front[a] && folders[|folders| - 1] == OpenChildren(folders, folder)[j];
    }
  }

  lemma {:induction false} PlacesInOrder(site: Site, top: string, chain: seq<SharedFolder>, budget: nat)
    requires OpenChain(site, top, chain) && NoDuplicates(site.folders)
    ensures InOrder(site, Places(site, top, chain, budget), |chain|)
    decreases budget, 0, 0
  {
    if budget > 0 {
      var end := EndOf(top, chain);
      var kids := OpenChildren(site.folders, end);
      KidsAreNext(site, top, chain);
      OpenChildrenOnce(site.folders, end);
      KidsInOrder(site.folders, end);
      BelowInOrder(site, top, chain, kids, budget - 1);
      HereInOrder(site, chain, end);
      HereBeforeBelow(site, top, chain, kids, budget - 1, FilesIn(site.files, end));
      OrderJoins(site, PlacesHere(chain, FilesIn(site.files, end)), PlacesBelow(site, top, chain, kids, budget - 1),
                 |chain|);
    }
  }

  ghost predicate OrderedAs(folders: seq<SharedFolder>, kids: seq<SharedFolder>) {
    forall i, j | 0 <= i < j < |kids| :: Precedes(folders, kids[i], kids[j])
  }

  lemma KidsInOrder(folders: seq<SharedFolder>, folder: string)
    ensures OrderedAs(folders, OpenChildren(folders, folder))
  {
    var kids := OpenChildren(folders, folder);
    forall i, j | 0 <= i < j < |kids| ensures Precedes(folders, kids[i], kids[j]) {
      OpenChildrenInOrder(folders, folder, i, j);
    }
  }

  lemma HereBeforeBelow(site: Site, top: string, chain: seq<SharedFolder>, kids: seq<SharedFolder>, budget: nat,
                        files: seq<SharedFile>)
    requires AreNext(site, top, chain, kids)
    ensures forall p, q | p in PlacesHere(chain, files) && q in PlacesBelow(site, top, chain, kids, budget) ::
              |p.chain| == |chain| < |q.chain| && Before(site, p, q, |chain|)
  {
    PlacesHereAt(chain, files);
    forall q | q in PlacesBelow(site, top, chain, kids, budget) ensures |q.chain| > |chain| {
      BelowAreUnder(site, top, chain, kids, budget, q);
    }
  }

  lemma HereInOrder(site: Site, chain: seq<SharedFolder>, end: string)
    ensures InOrder(site, PlacesHere(chain, FilesIn(site.files, end)), |chain|)
  {
    var files := FilesIn(site.files, end);
    PlacesHereAt(chain, files);
    forall i, j | 0 <= i < j < |files| ensures Precedes(site.files, files[i], files[j]) {
      FilesInOrder(site.files, end, i, j);
    }
  }

  lemma OrderJoins(site: Site, a: seq<Place>, b: seq<Place>, d: nat)
    requires InOrder(site, a, d) && InOrder(site, b, d)
    requires forall p, q | p in a && q in b :: Before(site, p, q, d)
    ensures InOrder(site, a + b, d)
  {
    var all := a + b;
    forall i, j | 0 <= i < j < |all| ensures Before(site, all[i], all[j], d) {
      if i < |a| <= j {
        assert a[i] in a && b[j - |a|] in b;
      }
    }
  }

  lemma {:induction false} BelowInOrder(site: Site, top: string, chain: seq<SharedFolder>, kids: seq<SharedFolder>,
                                        budget: nat)
    requires NoDuplicates(site.folders) && NoDuplicates(kids) && AreNext(site, top, chain, kids)
    requires OrderedAs(site.folders, kids)
    ensures InOrder(site, PlacesBelow(site, top, chain, kids, budget), |chain|)
    decreases budget, 1, |kids|
  {
    if kids != [] {
      var first := Places(site, top, chain + [kids[0]], budget);
      var rest := PlacesBelow(site, top, chain, kids[1..], budget);
      PlacesInOrder(site, top, chain + [kids[0]], budget);
      assert OrderedAs(site.folders, kids[1..]);
      BelowInOrder(site, top, chain, kids[1..], budget);
      PlacesThrough(site, top, chain + [kids[0]], budget);
      BelowThrough(site, top, chain, kids[1..], budget);
      FirstThroughKid(site, chain, kids[0], first);
      KidBeforeRest(site, chain, kids, first, rest);
      OrderJoins(site, first, rest, |chain|);
    }
  }

  lemma PlacesThrough(site: Site, top: string, chain: seq<SharedFolder>, budget: nat)
    requires OpenChain(site, top, chain)
    ensures forall p | p in Places(site, top, chain, budget) :: chain <= p.chain
  {
    forall p | p in Places(site, top, chain, budget) ensures chain <= p.chain {
      PlacesAreUnder(site, top, chain, budget, p);
    }
  }

  lemma BelowThrough(site: Site, top: string, chain: seq<SharedFolder>, kids: seq<SharedFolder>, budget: nat)
    requires AreNext(site, top, chain, kids)
    ensures forall q | q in PlacesBelow(site, top, chain, kids, budget) :: ThroughOne(chain, kids, q)
  {
    forall q | q in PlacesBelow(site, top, chain, kids, budget) ensures ThroughOne(chain, kids, q) {
      BelowAreUnder(site, top, chain, kids, budget, q);
    }
  }

  lemma FirstThroughKid(site: Site, chain: seq<SharedFolder>, kid: SharedFolder, first: seq<Place>)
    requires InOrder(site, first, |chain| + 1) && forall p | p in first :: chain + [kid] <= p.chain
    ensures InOrder(site, first, |chain|)
  {
    forall i, j | 0 <= i < j < |first| ensures Before(site, first[i], first[j], |chain|) {
      assert first[i] in first && first[j] in first;
    }
  }

  lemma KidBeforeRest(site: Site, chain: seq<SharedFolder>, kids: seq<SharedFolder>, first: seq<Place>,
                      rest: seq<Place>)
    requires kids != [] && NoDuplicates(kids)
    requires OrderedAs(site.folders, kids)
    requires forall p | p in first :: chain + [kids[0]] <= p.chain
    requires forall q | q in rest :: ThroughOne(chain, kids[1..], q)
    ensures forall p, q | p in first && q in rest ::
              |p.chain| >= |chain| && |q.chain| >= |chain| && Before(site, p, q, |chain|)
  {
    forall p, q | p in first && q in rest
      ensures |p.chain| >= |chain| && |q.chain| >= |chain| && Before(site, p, q, |chain|)
    {
      LaterKid(site, chain, kids, p, q);
    }
  }

  lemma LaterKid(site: Site, chain: seq<SharedFolder>, kids: seq<SharedFolder>, p: Place, q: Place)
    requires kids != [] && NoDuplicates(kids) && OrderedAs(site.folders, kids)
    requires chain + [kids[0]] <= p.chain && ThroughOne(chain, kids[1..], q)
    ensures |p.chain| >= |chain| && |q.chain| >= |chain| && Before(site, p, q, |chain|)
  {
    var k :| 0 <= k < |kids[1..]| && chain + [kids[1..][k]] <= q.chain;
    assert kids[1..][k] == kids[k + 1];
    KidBefore(site, chain, kids[0], kids[k + 1], p, q);
  }

  ghost predicate ThroughOne(chain: seq<SharedFolder>, kids: seq<SharedFolder>, q: Place) {
    exists k :: 0 <= k < |kids| && chain + [kids[k]] <= q.chain
  }

  lemma KidBefore(site: Site, chain: seq<SharedFolder>, kid: SharedFolder, later: SharedFolder, p: Place, q: Place)
    requires chain + [kid] <= p.chain && chain + [later] <= q.chain
    requires kid != later && Precedes(site.folders, kid, later)
    ensures |p.chain| >= |chain| && |q.chain| >= |chain| && Before(site, p, q, |chain|)
  {
    assert p.chain[|chain|] == (chain + [kid])[|chain|] && q.chain[|chain|] == (chain + [later])[|chain|];
  }

  // ---- the whole download ----

  /** The file's directory, followed by the original upload name where there is one that is not blank,
      else by the stored name. */
  ghost predicate AsksFor(f: ZipFile, name: string) {
    name == f.rel + if f.original.Some? && exists i :: 0 <= i < |f.original.value| && !IsSpace(f.original.value[i])
                    then f.original.value else f.name
  }

  /** The whole download: what is collected, in which order, the names asked for, and the entry names
      the files get. */
  method PublicFolderZip(site: Site, folderID: string)
    returns (files: seq<ZipFile>, entries: seq<string>, ghost places: seq<Place>, ghost names: seq<string>)
    requires NoDuplicates(site.folders) && NoDuplicates(site.files)
    ensures files == EntriesOf(places) && NoDuplicates(places) && InOrder(site, places, 0)
    ensures forall p :: p in places <==> IsPlace(site, folderID, 32, p)
    ensures |entries| == |names| == |files| && NoDuplicates(entries) && ZipNames.AllFirstFree(names, entries)
    ensures forall i | 0 <= i < |files| :: AsksFor(files[i], names[i])
  {
    var collector := new Collector();
    collector.SactCollectZipFiles(site, folderID, "", 0, folderID, [], MAX_DEPTH + 1);
    files := collector.out;
    places := Places(site, folderID, [], MAX_DEPTH + 1);
    PlacesOnce(site, folderID, [], MAX_DEPTH + 1);
    PlacesInOrder(site, folderID, [], MAX_DEPTH + 1);
    forall p ensures p in places <==> IsPlace(site, folderID, 32, p) {
      CollectsEveryPlace(site, folderID, p);
    }
    names := RequestedNames(files);
    RequestedAsk(files);
    entries := ZipNames.EntryNames(RequestedNames(files));
  }

  function EntryName(f: ZipFile): string {
    if f.original.Some? && TrimSpace(f.original.value) != "" then f.original.value else f.name
  }

  function RequestedNames(files: seq<ZipFile>): (names: seq<string>)
    ensures |names| == |files|
  {
    if files == [] then []
    else RequestedNames(files[..|files| - 1]) + [files[|files| - 1].rel + EntryName(files[|files| - 1])]
  }

  lemma {:induction false} RequestedAsk(files: seq<ZipFile>)
    ensures forall i | 0 <= i < |files| :: AsksFor(files[i], RequestedNames(files)[i])
  {
    if files != [] {
      var f := files[|files| - 1];
      RequestedAsk(files[..|files| - 1]);
      if f.original.Some? {
        TrimSpaceBlank(f.original.value);
      }
    }
  }
}
