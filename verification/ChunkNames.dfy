/** Names of the chunk files in the temp directory: how an upload request writes them
    and how the assembling request reads them back. */
module ChunkNames {
  import opened Decimal
  import opened Wrappers

  const PARTIAL := "zipline_partial_"

  /** What an accepted identifier looks like: not empty and free of the separator. */
  predicate IsIdentifier(id: string) {
    id != "" && '_' !in id
  }

  function Prefix(id: string): string {
    PARTIAL + id + "_"
  }

  /** The name a chunk covering [start, end) of upload id is written under. */
  function ChunkName(id: string, start: nat, end: nat): string {
    Prefix(id) + (Show(start) + "_" + Show(end))
  }

  /** The part of s before its first underscore, or all of s. */
  function FirstField(s: string): string {
    if s == [] || s[0] == '_' then [] else [s[0]] + FirstField(s[1..])
  }

  /** The offset the assembler reads from a directory entry, None when it skips the entry. */
  function DecodeStart(id: string, name: string): Option<int> {
    if Prefix(id) <= name then ParseInt64(FirstField(name[|Prefix(id)|..])) else None
  }

  lemma {:induction false} FirstFieldOf(a: string, b: string)
    requires '_' !in a
    ensures FirstField(a + "_" + b) == a
  {
    if a == [] {
      assert (a + "_" + b)[0] == '_';
    } else {
      assert (a + "_" + b)[0] == a[0];
      assert (a + "_" + b)[1..] == a[1..] + "_" + b;
      FirstFieldOf(a[1..], b);
    }
  }

  /** Decoding inverts encoding: a chunk's own upload reads its start offset back. */
  lemma DecodeOfName(id: string, start: nat, end: nat)
    requires start <= MAX_INT64
    ensures DecodeStart(id, ChunkName(id, start, end)) == Some(start)
  {
    FirstFieldOf(Show(start), Show(end));
    var rest := Show(start) + "_" + Show(end);
    assert ChunkName(id, start, end)[|Prefix(id)|..] == rest;
    ParseShow(start);
  }

  /** Two underscore-free words followed by an underscore in the same text are the same word. */
  lemma SameFirstField(a: string, b: string, x: string, y: string)
    requires '_' !in a && '_' !in b
    requires a + "_" + x == b + "_" + y
    ensures a == b && x == y
  {
    FirstFieldOf(a, x);
    FirstFieldOf(b, y);
    assert (a + "_" + x)[|a| + 1..] == x;
    assert (b + "_" + y)[|b| + 1..] == y;
  }

  lemma AfterPartial(id: string, start: nat, end: nat)
    ensures ChunkName(id, start, end)[|PARTIAL|..] == id + "_" + (Show(start) + "_" + Show(end))
    ensures PARTIAL <= ChunkName(id, start, end)
  {
  }

  /** Distinct chunks never share a file: the name determines identifier, start and end. */
  lemma ChunkNameInjective(id: string, s: nat, e: nat, id': string, s': nat, e': nat)
    requires IsIdentifier(id) && IsIdentifier(id')
    requires ChunkName(id, s, e) == ChunkName(id', s', e')
    ensures id == id' && s == s' && e == e'
  {
    AfterPartial(id, s, e);
    AfterPartial(id', s', e');
    SameFirstField(id, id', Show(s) + "_" + Show(e), Show(s') + "_" + Show(e'));
    SameFirstField(Show(s), Show(s'), Show(e), Show(e'));
    ShowInjective(s, s');
    ShowInjective(e, e');
  }

  /** The assembler's prefix filter picks exactly its own upload's chunks. */
  lemma PrefixSelectsOwnChunks(id: string, id': string, s: nat, e: nat)
    requires IsIdentifier(id) && IsIdentifier(id')
    ensures Prefix(id) <= ChunkName(id', s, e) <==> id == id'
  {
    AfterPartial(id', s, e);
    var name := ChunkName(id', s, e);
    if Prefix(id) <= name {
      var rest := name[|Prefix(id)|..];
      assert name[|PARTIAL|..] == id + "_" + rest by {
        assert name == Prefix(id) + rest;
      }
      SameFirstField(id, id', rest, Show(s) + "_" + Show(e));
    }
  }

  lemma WordPrefix(a: string, b: string, x: string)
    requires '_' !in a
    ensures a <= b + "_" + x <==> a <= b
  {
    var t := b + "_" + x;
    assert t[|b|] == '_' && t[..|b|] == b;
    if a <= t {
      assert forall i | 0 <= i < |a| :: t[i] == a[i];
      assert |a| <= |b|;
      assert a == t[..|b|][..|a|];
    }
  }

  /** The filter of the TypeScript worker, which stops at the identifier. */
  predicate WorkerSelects(id: string, name: string) {
    PARTIAL + id <= name
  }

  /** The worker's filter takes another upload's chunk exactly when its own identifier is a
      prefix of the other one. */
  lemma WorkerSelectsPrefixes(id: string, id': string, s: nat, e: nat)
    requires IsIdentifier(id) && IsIdentifier(id')
    ensures WorkerSelects(id, ChunkName(id', s, e)) <==> id <= id'
  {
    AfterPartial(id', s, e);
    var name := ChunkName(id', s, e);
    var tail := name[|PARTIAL|..];
    assert name == PARTIAL + tail;
    assert PARTIAL + id <= PARTIAL + tail <==> id <= tail by {
      assert id <= tail ==> (PARTIAL + tail)[..|PARTIAL + id|] == PARTIAL + id;
      assert PARTIAL + id <= PARTIAL + tail ==> tail[..|id|] == (PARTIAL + tail)[|PARTIAL|..|PARTIAL + id|] == id;
    }
    WordPrefix(id, id', Show(s) + "_" + Show(e));
  }

  /** What the TypeScript server's randomCharacters(8) makes: it hands out all identifiers itself. */
  predicate IsIssued(id: string) {
    |id| == 8 && forall c | c in id :: 'A' <= c <= 'Z' || 'a' <= c <= 'z' || '0' <= c <= '9'
  }

  /** Among identifiers of one length the worker's filter takes exactly its own upload's chunks. */
  lemma EqualLengthSelectsOwnChunks(id: string, id': string, s: nat, e: nat)
    requires IsIdentifier(id) && IsIdentifier(id') && |id| == |id'|
    ensures WorkerSelects(id, ChunkName(id', s, e)) <==> id == id'
  {
    WorkerSelectsPrefixes(id, id', s, e);
  }

  /** So the worker, whose uploads all have issued identifiers, filters as the assembler does, though
      it leaves the last underscore out. */
  lemma WorkerSelectsOwnChunks(id: string, id': string, s: nat, e: nat)
    requires IsIssued(id) && IsIssued(id')
    ensures IsIdentifier(id) && IsIdentifier(id')
    ensures WorkerSelects(id, ChunkName(id', s, e)) <==> id == id'
    ensures WorkerSelects(id, ChunkName(id', s, e)) <==> Prefix(id) <= ChunkName(id', s, e)
  {
    EqualLengthSelectsOwnChunks(id, id', s, e);
    PrefixSelectsOwnChunks(id, id', s, e);
  }

  lemma ChunkNameExample()
    ensures ChunkName("k3", 5, 9) == "zipline_partial_k3_5_9"
  {
    assert Show(5) == "5" && Show(9) == "9";
  }
}
