/** Chunked uploads: the shared temp directory, the request handler over it, and every
    interleaving of many uploads' requests. */
module ChunkUpload {
  import opened Bytes
  import opened Sequences
  import opened ChunkNames
  import opened ChunkAssembly
  import opened Wrappers
  import FileNames

  /** The bytes of the named files, one after the other. */
  ghost function JoinFiles(order: seq<ChunkRef>, dir: map<string, bytes>): bytes
    requires forall r | r in order :: r.path in dir
  {
    if order == [] then []
    else JoinFiles(order[..|order| - 1], dir) + dir[order[|order| - 1].path]
  }

  ghost function Paths(order: seq<ChunkRef>): set<string> {
    set r | r in order :: r.path
  }

  predicate AcceptsIdentifier(id: string) {
    IsIdentifier(id) && FileNames.Sanitized(id) == id
  }

  /** The identifiers accepted: not empty, without an underscore, and names the sanitiser leaves as
      they are. */
  lemma AcceptedIff(id: string)
    ensures AcceptsIdentifier(id) <==> id != "" && '_' !in id && FileNames.IsClean(id)
  {
    FileNames.SanitizedFixpoints(id);
  }

  datatype Response =
    | InvalidIdentifier
    | Stored(identifier: Option<string>)
    | AssembleFailed
    | Assembled(content: bytes)

  class TempDirectory {
    var files: map<string, bytes>

    constructor ()
      ensures files == map[]
    {
      files := map[];
    }

    /** Creates or truncates the file and streams data into it. */
    method WriteFile(name: string, data: bytes)
      modifies this
      ensures files == old(files)[name := data]
    {
      files := files[name := data];
    }

    /** The directory's names, in no particular order. */
    method ReadDir() returns (names: seq<string>)
      ensures NoDuplicates(names) && forall n :: n in names <==> n in files
    {
      names := [];
      var left := files.Keys;
      while left != {}
        invariant NoDuplicates(names) && forall n :: n in files <==> n in names || n in left
        invariant forall n :: n in names ==> n !in left
        decreases |left|
      {
        var n :| n in left;
        left := left - {n};
        names := names + [n];
      }
    }

    /** The directory entries that decode as chunks of id. */
    method GatherChunks(id: string) returns (chunks: seq<ChunkRef>)
      ensures NoDuplicates(chunks)
      ensures forall r :: r in chunks <==> r.path in files && DecodeStart(id, r.path) == Some(r.start)
    {
      var entries := ReadDir();
      chunks := [];
      for i := 0 to |entries|
        invariant NoDuplicates(chunks)
        invariant forall r :: r in chunks <==> r.path in entries[..i] && DecodeStart(id, r.path) == Some(r.start)
      {
        assert entries[..i + 1] == entries[..i] + [entries[i]];
        var start := DecodeStart(id, entries[i]);
        if start.Some? {
          chunks := chunks + [ChunkRef(entries[i], start.value)];
        }
      }
      assert entries[..|entries|] == entries;
    }

    /** Copies the files to the output in order, removing each as it goes. */
    method AppendAndRemove(ghost id: string, order: seq<ChunkRef>) returns (out: bytes)
      requires IsOrder(id, files, order)
      modifies this
      ensures out == JoinFiles(order, old(files))
      ensures files == old(files) - Paths(order)
    {
      ghost var was := files;
      out := [];
      for i := 0 to |order|
        invariant out == JoinFiles(order[..i], was) && files == was - Paths(order[..i])
      {
        TakeOne(id, was, order, i);
        out := out + files[order[i].path];
        files := files - {order[i].path};
      }
      assert order[..|order|] == order;
    }

    /** Gathers the identifier's chunk files, sorts them by start offset, appends them to one
        file and removes them. None when there is nothing to assemble. */
    method AssembleChunks(id: string) returns (assembled: Option<bytes>, ghost order: seq<ChunkRef>)
      modifies this
      ensures IsOrder(id, old(files), order)
      ensures order == [] ==> assembled.None? && files == old(files)
      ensures order != [] ==> assembled == Some(JoinFiles(order, old(files)))
      ensures order != [] ==> files == old(files) - Paths(order)
    {
      var chunks := GatherChunks(id);
      var sorted := SortByStart(chunks);
      order := sorted;
      SortedIsOrder(id, files, chunks, sorted);
      if sorted == [] {
        return None, order;
      }
      var out := AppendAndRemove(id, sorted);
      return Some(out), order;
    }

    /** One chunk request: check the identifier, store the chunk, and assemble when the client
        marks it as the last one. */
    method HandlePartial(id: string, start: nat, end: nat, lastchunk: bool, data: bytes)
      returns (resp: Response, ghost order: seq<ChunkRef>)
      modifies this
      ensures resp.InvalidIdentifier? <==> !AcceptsIdentifier(id)
      ensures !AcceptsIdentifier(id) ==> files == old(files)
      ensures AcceptsIdentifier(id) && !lastchunk ==>
                && files == old(files)[ChunkName(id, start, end) := data]
                && resp == Stored(if start == 0 then Some(id) else None)
      ensures AcceptsIdentifier(id) && lastchunk ==>
                var written := old(files)[ChunkName(id, start, end) := data];
                && IsOrder(id, written, order)
                && (order == [] ==> resp == AssembleFailed && files == written)
                && (order != [] ==> resp == Assembled(JoinFiles(order, written)) && files == written - Paths(order))
    {
      order := [];
      if id == "" {
        return InvalidIdentifier, order;
      }
      var clean := FileNames.SanitizeFilename(id);
      if clean != id || '_' in id {
        return InvalidIdentifier, order;
      }
      WriteFile(ChunkName(id, start, end), data);
      if !lastchunk {
        return Stored(if start == 0 then Some(id) else None), order;
      }
      var assembled;
      assembled, order := AssembleChunks(id);
      if assembled.None? {
        return AssembleFailed, order;
      }
      return Assembled(assembled.value), order;
    }
  }

  lemma SortedIsOrder(id: string, dir: map<string, bytes>, chunks: seq<ChunkRef>, sorted: seq<ChunkRef>)
    requires NoDuplicates(chunks) && SortedByStart(sorted) && multiset(sorted) == multiset(chunks)
    requires forall r :: r in chunks <==> r.path in dir && DecodeStart(id, r.path) == Some(r.start)
    ensures IsOrder(id, dir, sorted)
  {
    forall r ensures r in sorted <==> r in chunks {
      assert r in sorted <==> r in multiset(sorted);
      assert r in chunks <==> r in multiset(chunks);
    }
    forall i, j | 0 <= i < j < |sorted| ensures sorted[i] != sorted[j] {
      MultiplicityOne(chunks, sorted[i]);
      if sorted[i] == sorted[j] {
        TwiceInSequence(sorted, i, j);
      }
    }
  }

  lemma TwiceInSequence<T>(s: seq<T>, i: nat, j: nat)
    requires i < j < |s| && s[i] == s[j]
    ensures multiset(s)[s[i]] >= 2
  {
    assert s == s[..j] + [s[j]] + s[j + 1..];
    assert multiset(s) == multiset(s[..j]) + multiset{s[j]} + multiset(s[j + 1..]);
    assert s[..j][i] == s[i];
    assert s[i] in multiset(s[..j]);
  }

  lemma TakeOne(id: string, dir: map<string, bytes>, order: seq<ChunkRef>, i: nat)
    requires IsOrder(id, dir, order) && i < |order|
    ensures order[i].path in dir && order[i].path !in Paths(order[..i])
    ensures Paths(order[..i + 1]) == Paths(order[..i]) + {order[i].path}
    ensures forall r | r in order[..i + 1] :: r.path in dir
    ensures JoinFiles(order[..i + 1], dir) == JoinFiles(order[..i], dir) + dir[order[i].path]
  {
    assert order[i] in order;
    forall j | 0 <= j < i ensures order[j].path != order[i].path {
      assert order[j] in order;
    }
    assert order[..i + 1] == order[..i] + [order[i]];
    assert order[..i + 1][..i] == order[..i];
  }
}
