/** The delete-folder request: what happens to the children and files of a deleted folder. */
module FolderActions {
  import opened Sequences
  import opened FolderGraph
  import opened FolderDelete
  import opened Wrappers

  datatype ChildrenAction = Leave | ToRoot | ToFolder(target: Option<string>) | Cascade | CascadeFiles

  /** UPDATE folders SET parent_id = target WHERE parent_id = id. */
  function Reparented(folders: FolderTable, id: string, target: Option<string>): FolderTable {
    map x | x in folders :: if folders[x].parent == Some(id) then folders[x].(parent := target) else folders[x]
  }

  /** UPDATE files SET folder_id = target WHERE folder_id = id. */
  function Refiled(files: FileTable, id: string, target: Option<string>): FileTable {
    map f | f in files :: if files[f].folder == Some(id) then files[f].(folder := target) else files[f]
  }

  /** Whether the two UPDATEs of a move take effect: a missing target breaks the foreign key. */
  predicate Moves(folders: FolderTable, action: ChildrenAction) {
    action.ToFolder? && action.target.Some? && action.target.value != "" && action.target.value in folders
  }

  ghost function FoldersAfter(folders: FolderTable, id: string, action: ChildrenAction): FolderTable {
    if action.Cascade? || action.CascadeFiles? then folders - Subtree(Links(folders), id)
    else if Moves(folders, action) then Orphaned(Reparented(folders, id, action.target), id)
    else Orphaned(folders, id)
  }

  ghost function FilesAfter(folders: FolderTable, files: FileTable, id: string, action: ChildrenAction): FileTable {
    if action.Cascade? || action.CascadeFiles? then
      FilesWithout(files, Subtree(Links(folders), id), action.CascadeFiles?)
    else if Moves(folders, action) then FilesWithout(Refiled(files, id, action.target), {id}, false)
    else FilesWithout(files, {id}, false)
  }

  /** The requester deletes one of their folders. The cascades must not start on a cycle; the
      other actions take any table. objects are the stored objects removed along the way. */
  method UserDeleteFolder(store: FolderStore, id: string, user: string, action: ChildrenAction)
    returns (found: bool, objects: seq<string>, ghost ids: seq<string>)
    requires action.Cascade? || action.CascadeFiles? ==> !OnCycle(Links(store.folders), id)
    modifies store
    ensures found <==> id in old(store.folders) && old(store.folders)[id].owner == user
    ensures !found ==> store.folders == old(store.folders) && store.files == old(store.files)
    ensures found ==> store.folders == FoldersAfter(old(store.folders), id, action)
    ensures found ==> store.files == FilesAfter(old(store.folders), old(store.files), id, action)
    ensures found && (action.Cascade? || action.CascadeFiles?) ==>
              exists order :: store.log == old(store.log) + order
                              && ChildrenFirst(Links(old(store.folders)), Subtree(Links(old(store.folders)), id), order)
    ensures NoDuplicates(ids) && Names(old(store.files), ids, objects)
    ensures forall f :: f in ids <==> found && action.CascadeFiles? && f in old(store.files) && f !in store.files
  {
    objects, ids := [], [];
    found := id in store.folders && store.folders[id].owner == user;
    if !found {
      return;
    }
    ghost var g := Links(store.folders);
    match action {
      case Leave =>
        store.ExecDeleteFolder(id);
      case ToRoot =>
        store.folders := Reparented(store.folders, id, None);
        store.files := Refiled(store.files, id, None);
        store.ExecDeleteFolder(id);
      case ToFolder(target) =>
        if target.Some? && target.value != "" {
          if target.value in store.folders {
            store.folders := Reparented(store.folders, id, target);
            store.files := Refiled(store.files, id, target);
          }
        }
        store.ExecDeleteFolder(id);
      case Cascade =>
        ghost var order := store.DeleteFolderTree(id, false, g, [id]);
        NothingToDelete(store.folders, store.files, id, old(store.folders));
        store.ExecDeleteFolder(id);
      case CascadeFiles =>
        objects, ids := store.CollectFolderFileNames(id, g, [id]);
        ghost var order := store.DeleteFolderTree(id, true, g, [id]);
        NothingToDelete(store.folders, store.files, id, old(store.folders));
        store.ExecDeleteFolder(id);
    }
  }

  lemma NothingToDelete(folders: FolderTable, files: FileTable, id: string, folders0: FolderTable)
    requires folders == folders0 - Subtree(Links(folders0), id)
    ensures id !in folders && Orphaned(folders, id) == folders
    ensures files == FilesWithout(files, {}, false)
  {
    TopInSubtree(Links(folders0), id);
    forall x | x in folders ensures folders[x].parent != Some(id) {
      if folders[x].parent == Some(id) {
        ChildBelow(Links(folders0), id, x);
      }
    }
  }

  // ---- moving the children elsewhere ----

  ghost predicate Forest(g: Parents) {
    forall x :: !OnCycle(g, x)
  }

  /** The links after the children of id have moved under target and id is gone. */
  ghost function MovedLinks(folders: FolderTable, id: string, target: string): Parents {
    Links(FoldersAfter(folders, id, ToFolder(Some(target))))
  }

  /** g' is g after the children of id have moved under target and id is gone. */
  ghost predicate IsMove(g: Parents, g': Parents, id: string, target: string) {
    && g'.Keys == g.Keys - {id}
    && forall x | x in g' :: g'[x] == if g[x] == Some(id) then Some(target) else g[x]
  }

  /** front leads from a folder to x and meets x at its end only. */
  ghost predicate LeadsFirst(g: Parents, from: string, x: string, front: seq<string>) {
    PathFrom(g, from, front) && Last(front) == x && forall i | 0 <= i < |front| - 1 :: front[i] != x
  }

  /** The part of a path up to the first time it meets x. */
  lemma {:induction false} UpToFirst(g: Parents, path: seq<string>, x: string)
    requires DownPath(g, path) && x in path
    ensures exists front :: LeadsFirst(g, path[0], x, front)
  {
    var shorter := path[..|path| - 1];
    if x in shorter {
      UpToFirst(g, shorter, x);
    } else {
      assert forall i | 0 <= i < |shorter| :: shorter[i] in shorter;
      assert LeadsFirst(g, path[0], x, path);
    }
  }

  /** Going on round a closed path from its i-th folder leads to the folder before it. */
  lemma GoRound(g: Parents, path: seq<string>, i: nat)
    requires DownPath(g, path) && path[0] == Last(path) && 0 < i < |path|
    ensures exists round :: PathFrom(g, path[i], round) && path[i - 1] in round
  {
    var round := path[i..] + path[1..i];
    forall k | 0 < k < |round| ensures IsChild(g, round[k - 1], round[k]) {
      if k < |path| - i {
        assert IsChild(g, path[i + k - 1], path[i + k]);
      } else {
        var j := k - (|path| - i) + 1;
        assert IsChild(g, path[j - 1], path[j]);
      }
    }
    assert Last(round) == path[i - 1];
    assert PathFrom(g, path[i], round) && path[i - 1] in round;
  }

  /** Any cycle after the move comes from a cycle before, or from target having been below id. */
  lemma NewCycleMeansBelow(g: Parents, g': Parents, id: string, target: string, path: seq<string>)
    requires IsMove(g, g', id, target)
    requires DownPath(g', path) && |path| > 1 && path[0] == Last(path)
    ensures target in Subtree(g, id) || !Forest(g)
  {
    if forall i | 0 <= i < |path| - 1 :: path[i] != target {
      assert PathFrom(g, path[0], path);
      assert OnCycle(g, path[0]);
    } else {
      var before :| 0 <= before < |path| - 1 && path[before] == target;
      var i := before + 1;
      assert IsChild(g', path[i - 1], path[i]);
      GoRound(g', path, i);
      var round :| PathFrom(g', path[i], round) && path[i - 1] in round;
      UpToFirst(g', round, target);
      var front :| LeadsFirst(g', path[i], target, front);
      if g[path[i]] == Some(id) {
        assert Last([id] + front) == target;
        InKeys(g, [id] + front);
      } else {
        assert IsChild(g, target, path[i]);
        assert Last([target] + front) == target;
        assert OnCycle(g, target);
      }
    }
  }

  lemma InKeys(g: Parents, path: seq<string>)
    requires DownPath(g, path)
    ensures Last(path) in g.Keys + {path[0]}
  {
    if |path| > 1 {
      assert IsChild(g, path[|path| - 2], path[|path| - 1]);
    }
  }

  /** Moving the children of id under a folder below id closes a cycle. */
  lemma BelowMeansNewCycle(g: Parents, g': Parents, id: string, target: string)
    requires IsMove(g, g', id, target) && !OnCycle(g, id) && target != id && target in Subtree(g, id)
    ensures OnCycle(g', target)
  {
    var path :| PathFrom(g, id, path) && Last(path) == target;
    PathIsSimple(g, path);
    var round := [target] + path[1..];
    forall i | 0 < i < |round| ensures IsChild(g', round[i - 1], round[i]) {
      assert IsChild(g, path[i - 1], path[i]);
      assert path[i] != path[0];
      assert i > 1 ==> path[i - 1] != path[0];
    }
    assert PathFrom(g', target, round) && Last(round) == target;
  }

  lemma FewerLinks(g: Parents, g': Parents, x: string)
    requires OnCycle(g', x) && forall p, c | IsChild(g', p, c) :: IsChild(g, p, c)
    ensures OnCycle(g, x)
  {
    var path :| PathFrom(g', x, path) && |path| > 1 && Last(path) == x;
    forall i | 0 < i < |path| ensures IsChild(g, path[i - 1], path[i]) {
      assert IsChild(g', path[i - 1], path[i]);
    }
    assert PathFrom(g, x, path);
  }

  lemma MoveElsewhereKeepsForest(g: Parents, g': Parents, id: string, target: string)
    requires Forest(g) && IsMove(g, g', id, target) && target !in Subtree(g, id)
    ensures Forest(g')
  {
    forall x ensures !OnCycle(g', x) {
      if OnCycle(g', x) {
        var path :| PathFrom(g', x, path) && |path| > 1 && Last(path) == x;
        NewCycleMeansBelow(g, g', id, target, path);
      }
    }
  }

  /** Deleting a folder with its children moved to target keeps a forest a forest exactly when target
      is not below the deleted folder. The deleted folder itself is no harm: its children become
      root folders; nor is the empty target, which moves nothing. */
  lemma MoveKeepsForest(folders: FolderTable, id: string, target: string)
    requires id in folders && Forest(Links(folders))
    ensures Forest(MovedLinks(folders, id, target)) <==>
            target == "" || target == id || target !in Subtree(Links(folders), id)
  {
    var g, g' := Links(folders), MovedLinks(folders, id, target);
    if target == "" || target == id || target !in folders {
      forall x ensures !OnCycle(g', x) {
        if OnCycle(g', x) {
          FewerLinks(g, g', x);
        }
      }
    } else if target in Subtree(g, id) {
      BelowMeansNewCycle(g, g', id, target);
    } else {
      MoveElsewhereKeepsForest(g, g', id, target);
    }
  }

  /** The smallest table on which it goes wrong: c is in b, b is in a, and a is deleted with its
      children moved to c. */
  lemma MoveMakesCycle()
    ensures var folders: FolderTable := map[
              "a" := FolderRow("u", None), "b" := FolderRow("u", Some("a")), "c" := FolderRow("u", Some("b"))];
            Forest(Links(folders)) && OnCycle(MovedLinks(folders, "a", "c"), "b")
  {
    var folders: FolderTable := map[
      "a" := FolderRow("u", None), "b" := FolderRow("u", Some("a")), "c" := FolderRow("u", Some("b"))];
    var g, g' := Links(folders), MovedLinks(folders, "a", "c");
    assert IsChild(g', "b", "c") && IsChild(g', "c", "b");
    assert PathFrom(g', "b", ["b", "c", "b"]) && Last(["b", "c", "b"]) == "b";
    forall x, path | PathFrom(g, x, path) && |path| > 1 ensures Last(path) != x {
      var n := |path|;
      assert IsChild(g, path[n - 2], path[n - 1]);
      if n > 2 {
        assert IsChild(g, path[n - 3], path[n - 2]);
        if n > 3 {
          assert IsChild(g, path[n - 4], path[n - 3]);
        }
      }
    }
  }

  // ---- each folder and each file ----

  ghost predicate IsBelow(folders: FolderTable, top: string, x: string) {
    exists path :: PathFrom(Links(folders), top, path) && Last(path) == x
  }

  /** Where the children and files of the deleted folder go. */
  function Destination(folders: FolderTable, id: string, action: ChildrenAction): Option<string> {
    if action.ToFolder? && action.target.Some? && action.target.value !in {"", id} && action.target.value in folders
    then action.target else None
  }

  /** After a deletion with the given action: in a cascade exactly the folders at or below the deleted
      one are gone; otherwise only that one is, and its children are where the action sends them. */
  lemma FolderFate(folders: FolderTable, id: string, action: ChildrenAction, x: string)
    requires x in folders
    ensures var after := FoldersAfter(folders, id, action);
            if action.Cascade? || action.CascadeFiles? then
              (x in after <==> !IsBelow(folders, id, x)) && (x in after ==> after[x] == folders[x])
            else
              && (x in after <==> x != id)
              && (x in after && folders[x].parent != Some(id) ==> after[x] == folders[x])
              && (x in after && folders[x].parent == Some(id) ==>
                    after[x].owner == folders[x].owner && after[x].parent == Destination(folders, id, action))
  {
  }

  /** The folder exists, or is the one deleted, and lies at or below that. */
  ghost predicate InCascade(folders: FolderTable, id: string, folder: Option<string>) {
    folder.Some? && (folder.value in folders || folder.value == id) && IsBelow(folders, id, folder.value)
  }

  /** The files: cascade-files takes those in the folders that go, cascade unfiles them; otherwise the
      files of the deleted folder follow its children. Every other file stays as it is. */
  lemma FileFate(folders: FolderTable, files: FileTable, id: string, action: ChildrenAction, f: string)
    requires f in files
    ensures var after := FilesAfter(folders, files, id, action);
            var folder := files[f].folder;
            if action.Cascade? || action.CascadeFiles? then
              if InCascade(folders, id, folder) then
                if action.CascadeFiles? then f !in after
                else f in after && after[f] == FileRow(files[f].name, None)
              else f in after && after[f] == files[f]
            else
              && f in after
              && after[f] == if folder == Some(id) then FileRow(files[f].name, Destination(folders, id, action))
                             else files[f]
  {
  }
}
