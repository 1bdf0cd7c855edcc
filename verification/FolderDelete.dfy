/** Deleting a folder: the recursive cascade over the folders and files tables, whose foreign
    keys are set to null when the row they point to goes away. */
module FolderDelete {
  import opened Sequences
  import opened FolderGraph
  import opened Wrappers

  datatype FolderRow = FolderRow(owner: string, parent: Option<string>)

  datatype FileRow = FileRow(name: string, folder: Option<string>)

  type FolderTable = map<string, FolderRow>
  type FileTable = map<string, FileRow>

  function Links(folders: FolderTable): Parents {
    map x | x in folders :: folders[x].parent
  }

  predicate Within(file: FileRow, s: set<string>) {
    file.folder.Some? && file.folder.value in s
  }

  /** The files table once the folders in s are gone: their files go with them, or lose their
      folder. */
  ghost function FilesWithout(files: FileTable, s: set<string>, deleteFiles: bool): FileTable {
    map f | f in files && !(deleteFiles && Within(files[f], s)) ::
      if Within(files[f], s) then files[f].(folder := None) else files[f]
  }

  /** The foreign key of the folders table: children of a deleted row become root folders. */
  function Orphaned(folders: FolderTable, id: string): FolderTable {
    map x | x in folders && x != id ::
      if folders[x].parent == Some(id) then folders[x].(parent := None) else folders[x]
  }

  /** order lists the folders in tops once each, every folder after all its children. */
  ghost predicate ChildrenFirst(g: Parents, tops: set<string>, order: seq<string>) {
    && NoDuplicates(order)
    && (forall x :: x in order <==> x in tops)
    && (forall i, j | 0 <= i < |order| && 0 <= j < |order| && IsChild(g, order[i], order[j]) :: j < i)
  }

  /** The current table is the original one g0 minus some folders, none of them below top. */
  ghost predicate StillWhole(g0: Parents, folders: FolderTable, top: string) {
    && (forall x | x in folders :: x in g0 && folders[x].parent == g0[x])
    && Subtree(g0, top) <= folders.Keys
  }

  class FolderStore {
    var folders: FolderTable
    var files: FileTable
    /** The folder rows deleted so far, in the order of the DELETE statements. */
    ghost var log: seq<string>

    constructor (folders: FolderTable, files: FileTable)
      ensures this.folders == folders && this.files == files && log == []
    {
      this.folders := folders;
      this.files := files;
      this.log := [];
    }

    /** SELECT id FROM folders WHERE parent_id = parent, in any order. */
    method QueryChildren(parent: string) returns (ids: seq<string>)
      ensures NoDuplicates(ids)
      ensures forall x :: x in ids <==> x in folders && folders[x].parent == Some(parent)
    {
      ids := [];
      var left := folders.Keys;
      while left != {}
        invariant left <= folders.Keys && NoDuplicates(ids)
        invariant forall x :: x in ids <==> x in folders && x !in left && folders[x].parent == Some(parent)
        decreases |left|
      {
        var x :| x in left;
        left := left - {x};
        if folders[x].parent == Some(parent) {
          ids := ids + [x];
        }
      }
    }

    /** SELECT id, name FROM files WHERE folder_id = folder, in any order. */
    method QueryFiles(folder: string) returns (ids: seq<string>, names: seq<string>)
      ensures NoDuplicates(ids) && Names(files, ids, names)
      ensures forall f :: f in ids <==> f in files && files[f].folder == Some(folder)
    {
      ids, names := [], [];
      var left := files.Keys;
      while left != {}
        invariant left <= files.Keys && NoDuplicates(ids) && Names(files, ids, names)
        invariant forall f :: f in ids <==> f in files && f !in left && files[f].folder == Some(folder)
        decreases |left|
      {
        var f :| f in left;
        left := left - {f};
        if files[f].folder == Some(folder) {
          ids, names := ids + [f], names + [files[f].name];
        }
      }
    }

    /** DELETE FROM folders WHERE id = id, with both foreign keys set to null. */
    method ExecDeleteFolder(id: string)
      modifies this
      ensures folders == Orphaned(old(folders), id)
      ensures files == FilesWithout(old(files), if id in old(folders) then {id} else {}, false)
      ensures log == old(log) + if id in old(folders) then [id] else []
    {
      if id in folders {
        log := log + [id];
        files := map f | f in files ::
          if files[f].folder == Some(id) then files[f].(folder := None) else files[f];
      } else {
        assert files == FilesWithout(files, {}, false);
      }
      folders := Orphaned(folders, id);
    }

    /** DELETE FROM files WHERE folder_id = folder. */
    method ExecDeleteFiles(folder: string)
      modifies this`files
      ensures files == FilesWithout(old(files), {folder}, true)
    {
      files := map f | f in files && files[f].folder != Some(folder) :: files[f];
    }

    /** Deletes the subtree of folderId; the log shows every folder's DELETE after those of its
        children. path is how the recursion got here in the original table g. */
    method DeleteFolderTree(folderId: string, deleteFiles: bool, ghost g: Parents, ghost path: seq<string>)
      returns (ghost order: seq<string>)
      requires DownPath(g, path) && !OnCycle(g, path[0]) && path[0] in g && Last(path) == folderId
      requires StillWhole(g, folders, folderId)
      modifies this
      ensures folders == old(folders) - Subtree(g, folderId)
      ensures files == FilesWithout(old(files), Subtree(g, folderId), deleteFiles)
      ensures log == old(log) + order && ChildrenFirst(g, Subtree(g, folderId), order)
      decreases |g| - |path|, 1
    {
      PathIsBounded(g, path);
      OffCycleBelow(g, path);
      var childIds := QueryChildren(folderId);
      ChildrenInTable(g, folders, folderId, childIds);
      order := DeleteEach(folderId, childIds, deleteFiles, g, path);
      OrderTop(g, folderId, childIds, order);
      Associates(old(log), order, [folderId]);
      order := order + [folderId];
      TopGoes(g, old(folders), old(files), folderId, childIds, deleteFiles);
      if deleteFiles {
        ExecDeleteFiles(folderId);
      }
      ExecDeleteFolder(folderId);
    }

    /** The recursion into the children. */
    method DeleteEach(folderId: string, childIds: seq<string>, deleteFiles: bool, ghost g: Parents,
                      ghost path: seq<string>)
      returns (ghost order: seq<string>)
      requires DownPath(g, path) && !OnCycle(g, path[0]) && path[0] in g && Last(path) == folderId
      requires |path| <= |g| && !OnCycle(g, folderId)
      requires StillWhole(g, folders, folderId) && IsChildList(g, folderId, childIds)
      modifies this
      ensures folders == old(folders) - SubtreeOfAll(g, childIds)
      ensures files == FilesWithout(old(files), SubtreeOfAll(g, childIds), deleteFiles)
      ensures log == old(log) + order && ChildrenFirst(g, SubtreeOfAll(g, childIds), order)
      decreases |g| - |path|, 0
    {
      order := [];
      for i := 0 to |childIds|
        invariant folders == old(folders) - SubtreeOfAll(g, childIds[..i])
        invariant files == FilesWithout(old(files), SubtreeOfAll(g, childIds[..i]), deleteFiles)
        invariant log == old(log) + order && ChildrenFirst(g, SubtreeOfAll(g, childIds[..i]), order)
      {
        var cid := childIds[i];
        NextChild(g, old(folders), folderId, childIds, i);
        PathIsBounded(g, path + [cid]);
        ghost var below;
        below := DeleteFolderTree(cid, deleteFiles, g, path + [cid]);
        FilesWithoutBoth(old(files), SubtreeOfAll(g, childIds[..i]), Subtree(g, cid), deleteFiles);
        OrderJoin(g, folderId, childIds, i, order, below);
        Associates(old(log), order, below);
        order := order + below;
      }
      assert childIds[..|childIds|] == childIds;
    }

    /** Gathers the names of all files in the subtree of folderId. */
    method CollectFolderFileNames(folderId: string, ghost g: Parents, ghost path: seq<string>)
      returns (names: seq<string>, ghost ids: seq<string>)
      requires g == Links(folders) && DownPath(g, path) && !OnCycle(g, path[0]) && path[0] in g
               && Last(path) == folderId
      ensures NamesOf(files, Subtree(g, folderId), ids, names)
      ensures forall n ::
                n in names <==> exists f :: f in files && Within(files[f], Subtree(g, folderId)) && files[f].name == n
      decreases |g| - |path|, 1
    {
      ghost var own;
      own, names := QueryFiles(folderId);
      var childIds := QueryChildren(folderId);
      PathIsBounded(g, path);
      OffCycleBelow(g, path);
      names, ids := CollectEach(folderId, childIds, g, path, own, names);
      SubtreeUnfolds(g, folderId, childIds);
      NamesAre(files, Subtree(g, folderId), ids, names);
    }

    method CollectEach(folderId: string, childIds: seq<string>, ghost g: Parents, ghost path: seq<string>,
                       ghost own: seq<string>, ownNames: seq<string>)
      returns (names: seq<string>, ghost ids: seq<string>)
      requires g == Links(folders) && DownPath(g, path) && !OnCycle(g, path[0]) && path[0] in g
               && Last(path) == folderId
      requires |path| <= |g| && !OnCycle(g, folderId) && IsChildList(g, folderId, childIds)
      requires NamesOf(files, {folderId}, own, ownNames)
      ensures NamesOf(files, {folderId} + SubtreeOfAll(g, childIds), ids, names)
      decreases |g| - |path|, 0
    {
      names, ids := ownNames, own;
      for i := 0 to |childIds|
        invariant NamesOf(files, {folderId} + SubtreeOfAll(g, childIds[..i]), ids, names)
      {
        var cid := childIds[i];
        Descend(g, path, childIds, i);
        var more;
        ghost var moreIds;
        more, moreIds := CollectFolderFileNames(cid, g, path + [cid]);
        NamesJoin(files, {folderId} + SubtreeOfAll(g, childIds[..i]), Subtree(g, cid), ids, names, moreIds, more);
        names, ids := names + more, ids + moreIds;
      }
      assert childIds[..|childIds|] == childIds;
    }
  }

  // ---- how the pieces of a collection fit together ----

  /** names are the names of the files in the folders s, each file once. */
  ghost predicate NamesOf(files: FileTable, s: set<string>, ids: seq<string>, names: seq<string>) {
    && NoDuplicates(ids) && Names(files, ids, names)
    && forall f :: f in ids <==> f in files && Within(files[f], s)
  }

  lemma NamesAre(files: FileTable, s: set<string>, ids: seq<string>, names: seq<string>)
    requires NamesOf(files, s, ids, names)
    ensures forall n :: n in names <==> exists f :: f in files && Within(files[f], s) && files[f].name == n
  {
    forall n ensures n in names <==> exists f :: f in files && Within(files[f], s) && files[f].name == n {
      if n in names {
        var i :| 0 <= i < |names| && names[i] == n;
        assert ids[i] in ids;
      }
      if f :| f in files && Within(files[f], s) && files[f].name == n {
        var i :| 0 <= i < |ids| && ids[i] == f;
        assert names[i] == n;
      }
    }
  }

  lemma NamesJoin(files: FileTable, a: set<string>, b: set<string>, ids: seq<string>, names: seq<string>,
                  moreIds: seq<string>, more: seq<string>)
    requires NamesOf(files, a, ids, names) && NamesOf(files, b, moreIds, more) && a !! b
    ensures NamesOf(files, a + b, ids + moreIds, names + more)
  {
    var all := ids + moreIds;
    forall f ensures f in all <==> f in files && Within(files[f], a + b) {
      assert f in all <==> f in ids || f in moreIds;
    }
    forall i, j | 0 <= i < j < |all| ensures all[i] != all[j] {
      if i < |ids| <= j {
        assert all[i] in ids && all[j] in moreIds;
      }
    }
  }

  /** Going down to the next child, whose subtree is apart from what has been collected. */
  lemma Descend(g: Parents, path: seq<string>, children: seq<string>, i: nat)
    requires DownPath(g, path) && !OnCycle(g, path[0]) && path[0] in g && !OnCycle(g, Last(path))
    requires IsChildList(g, Last(path), children) && i < |children|
    ensures var longer := path + [children[i]];
            DownPath(g, longer) && longer[0] == path[0] && Last(longer) == children[i] && |longer| <= |g|
    ensures {Last(path)} + SubtreeOfAll(g, children[..i]) !! Subtree(g, children[i])
    ensures {Last(path)} + SubtreeOfAll(g, children[..i + 1])
            == {Last(path)} + SubtreeOfAll(g, children[..i]) + Subtree(g, children[i])
  {
    assert children[i] in children;
    PathIsBounded(g, path + [children[i]]);
    NextSubtree(g, Last(path), children, i);
    TopNotBelow(g, Last(path), children[i]);
  }

  // ---- how the pieces of a deletion fit together ----

  lemma ChildrenInTable(g: Parents, folders: FolderTable, top: string, children: seq<string>)
    requires StillWhole(g, folders, top) && NoDuplicates(children)
    requires forall x :: x in children <==> x in folders && folders[x].parent == Some(top)
    ensures IsChildList(g, top, children)
  {
    forall x ensures x in children <==> IsChild(g, top, x) {
      if IsChild(g, top, x) {
        ChildBelow(g, top, x);
      }
    }
  }

  lemma ChildBelow(g: Parents, top: string, x: string)
    requires IsChild(g, top, x)
    ensures x in Subtree(g, top)
  {
    assert PathFrom(g, top, [top, x]) && Last([top, x]) == x;
  }

  /** The next child's subtree is untouched by what was deleted for the earlier children. */
  lemma NextSubtree(g: Parents, top: string, children: seq<string>, i: nat)
    requires !OnCycle(g, top) && IsChildList(g, top, children) && i < |children|
    ensures SubtreeOfAll(g, children[..i + 1]) == SubtreeOfAll(g, children[..i]) + Subtree(g, children[i])
    ensures SubtreeOfAll(g, children[..i]) !! Subtree(g, children[i])
    ensures top !in SubtreeOfAll(g, children[..i + 1])
  {
    assert children[..i + 1] == children[..i] + [children[i]];
    forall t | t in children[..i + 1] ensures IsChild(g, top, t) && top !in Subtree(g, t) {
      assert t in children;
      TopNotBelow(g, top, t);
    }
    forall t | t in children[..i] ensures Subtree(g, t) !! Subtree(g, children[i]) {
      var k :| 0 <= k < i && children[k] == t;
      assert children[i] in children;
      ChildSubtreesApart(g, top, t, children[i]);
    }
  }

  lemma NextChild(g: Parents, folders0: FolderTable, top: string, children: seq<string>, i: nat)
    requires !OnCycle(g, top) && IsChildList(g, top, children) && i < |children|
    requires StillWhole(g, folders0, top)
    ensures SubtreeOfAll(g, children[..i + 1]) == SubtreeOfAll(g, children[..i]) + Subtree(g, children[i])
    ensures SubtreeOfAll(g, children[..i]) !! Subtree(g, children[i])
    ensures StillWhole(g, folders0 - SubtreeOfAll(g, children[..i]), children[i])
    ensures IsChild(g, top, children[i])
  {
    NextSubtree(g, top, children, i);
    SubtreeUnfolds(g, top, children);
    assert children[i] in children;
    assert Subtree(g, children[i]) <= SubtreeOfAll(g, children);
  }

  lemma ChildrenGoneAndTopNot(g: Parents, top: string, children: seq<string>)
    requires !OnCycle(g, top) && IsChildList(g, top, children)
    ensures top !in SubtreeOfAll(g, children)
    ensures forall x | x in children :: x in SubtreeOfAll(g, children)
  {
    forall t | t in children ensures top !in Subtree(g, t) && t in Subtree(g, t) {
      TopNotBelow(g, top, t);
      TopInSubtree(g, t);
    }
  }

  lemma OnlyTopLeft(g: Parents, folders0: FolderTable, top: string, children: seq<string>)
    requires !OnCycle(g, top) && IsChildList(g, top, children) && StillWhole(g, folders0, top)
    ensures Orphaned(folders0 - SubtreeOfAll(g, children), top) == folders0 - Subtree(g, top)
    ensures top in folders0 - SubtreeOfAll(g, children)
  {
    SubtreeUnfolds(g, top, children);
    ChildrenGoneAndTopNot(g, top, children);
    TopInSubtree(g, top);
    var left := folders0 - SubtreeOfAll(g, children);
    assert forall x | x in folders0 && folders0[x].parent == Some(top) :: IsChild(g, top, x);
    assert left - {top} == folders0 - Subtree(g, top);
  }

  lemma FilesWithoutBoth(files: FileTable, a: set<string>, b: set<string>, deleteFiles: bool)
    ensures FilesWithout(FilesWithout(files, a, deleteFiles), b, deleteFiles) == FilesWithout(files, a + b, deleteFiles)
  {
  }

  /** With the children's subtrees gone, deleting top's files (or not) and its row finishes its own
      subtree. */
  lemma TopGoes(g: Parents, folders0: FolderTable, files0: FileTable, top: string, children: seq<string>,
                deleteFiles: bool)
    requires !OnCycle(g, top) && IsChildList(g, top, children) && StillWhole(g, folders0, top)
    ensures var left := folders0 - SubtreeOfAll(g, children);
            top in left && Orphaned(left, top) == folders0 - Subtree(g, top)
    ensures var before := FilesWithout(files0, SubtreeOfAll(g, children), deleteFiles);
            var emptied := if deleteFiles then FilesWithout(before, {top}, true) else before;
            FilesWithout(emptied, {top}, false) == FilesWithout(files0, Subtree(g, top), deleteFiles)
  {
    OnlyTopLeft(g, folders0, top, children);
    SubtreeUnfolds(g, top, children);
    assert SubtreeOfAll(g, children) + {top} == Subtree(g, top);
    FilesWithoutBoth(files0, SubtreeOfAll(g, children), {top}, deleteFiles);
  }

  lemma SubtreeClosed(g: Parents, top: string, p: string, c: string)
    requires p in Subtree(g, top) && IsChild(g, p, c)
    ensures c in Subtree(g, top)
  {
    var path :| PathFrom(g, top, path) && Last(path) == p;
    assert Last(path + [c]) == c;
  }

  lemma OrderJoin(g: Parents, top: string, children: seq<string>, i: nat, order: seq<string>, below: seq<string>)
    requires !OnCycle(g, top) && IsChildList(g, top, children) && i < |children|
    requires ChildrenFirst(g, SubtreeOfAll(g, children[..i]), order)
    requires ChildrenFirst(g, Subtree(g, children[i]), below)
    ensures ChildrenFirst(g, SubtreeOfAll(g, children[..i + 1]), order + below)
  {
    NextSubtree(g, top, children, i);
    var all := order + below;
    assert forall k | 0 <= k < |below| :: below[k] in below;
    assert forall k | |order| <= k < |all| :: all[k] !in SubtreeOfAll(g, children[..i]);
    forall a, b | 0 <= a < |all| && 0 <= b < |all| && IsChild(g, all[a], all[b]) ensures b < a {
      if a < |order| {
        assert all[a] in order;
        var t :| t in children[..i] && all[a] in Subtree(g, t);
        SubtreeClosed(g, t, all[a], all[b]);
        assert all[b] in SubtreeOfAll(g, children[..i]);
      } else {
        if b >= |order| {
          assert IsChild(g, below[a - |order|], below[b - |order|]);
        }
      }
    }
    forall x ensures x in all <==> x in SubtreeOfAll(g, children[..i + 1]) {
      assert x in all <==> x in order || x in below;
    }
    forall a, b | 0 <= a < b < |all| ensures all[a] != all[b] {
      if a < |order| <= b {
        assert all[a] in order && all[b] in below;
      }
    }
  }

  lemma OrderTop(g: Parents, top: string, children: seq<string>, order: seq<string>)
    requires !OnCycle(g, top) && IsChildList(g, top, children)
    requires ChildrenFirst(g, SubtreeOfAll(g, children), order)
    ensures ChildrenFirst(g, Subtree(g, top), order + [top])
  {
    SubtreeUnfolds(g, top, children);
    forall t | t in children ensures top !in Subtree(g, t) {
      TopNotBelow(g, top, t);
    }
    var all := order + [top];
    forall a, b | 0 <= a < |all| && 0 <= b < |all| && IsChild(g, all[a], all[b]) ensures b < a {
      if a < |order| {
        assert all[a] in order;
        var t :| t in children && all[a] in Subtree(g, t);
        SubtreeClosed(g, t, all[a], all[b]);
      } else {
        if b == |order| {
          ChildBelow(g, top, top);
        }
      }
    }
  }

  /** names are the names of the files ids, position by position. */
  ghost predicate Names(files: FileTable, ids: seq<string>, names: seq<string>) {
    |names| == |ids| && forall i | 0 <= i < |ids| :: ids[i] in files && names[i] == files[ids[i]].name
  }
}
