/** Putting an upload's chunks back together: sort by start offset and concatenate, or write
    every chunk at its own offset. */
module ChunkAssembly {
  import opened Bytes
  import opened Decimal
  import opened Sequences
  import opened ChunkNames
  import opened Wrappers

  datatype ChunkRef = ChunkRef(path: string, start: int)

  ghost predicate SortedByStart(refs: seq<ChunkRef>) {
    forall i, j | 0 <= i < j < |refs| :: refs[i].start <= refs[j].start
  }

  ghost predicate StrictlySorted(refs: seq<ChunkRef>) {
    forall i, j | 0 <= i < j < |refs| :: refs[i].start < refs[j].start
  }

  lemma SameHead(a: seq<ChunkRef>, b: seq<ChunkRef>)
    requires StrictlySorted(a) && SortedByStart(b) && multiset(a) == multiset(b)
    requires a != [] && b != []
    ensures a[0] == b[0]
  {
    assert a[0] in multiset(b) && b[0] in multiset(a);
    var i :| 0 <= i < |a| && a[i] == b[0];
    var j :| 0 <= j < |b| && b[j] == a[0];
    assert b[0].start <= b[j].start;
  }

  /** A sorted sequence is the only sorted arrangement of its elements when no two starts tie. */
  lemma {:induction false} SortedArrangementUnique(a: seq<ChunkRef>, b: seq<ChunkRef>)
    requires StrictlySorted(a) && SortedByStart(b) && multiset(a) == multiset(b)
    ensures a == b
  {
    assert |a| == |multiset(a)| == |multiset(b)| == |b|;
    if a != [] {
      SameHead(a, b);
      WithoutHead(a);
      WithoutHead(b);
      SortedArrangementUnique(a[1..], b[1..]);
      assert a == [a[0]] + a[1..] && b == [b[0]] + b[1..];
    }
  }

  lemma WithoutHead(a: seq<ChunkRef>)
    requires a != []
    ensures multiset(a[1..]) == multiset(a) - multiset{a[0]}
  {
    assert a == [a[0]] + a[1..];
  }

  /** One pass of insertion: r enters a sorted sequence without disturbing it. */
  function Insert(r: ChunkRef, refs: seq<ChunkRef>): (s: seq<ChunkRef>)
    ensures multiset(s) == multiset(refs) + multiset{r}
  {
    if refs == [] || r.start <= refs[0].start then [r] + refs
    else
      assert refs == [refs[0]] + refs[1..];
      [refs[0]] + Insert(r, refs[1..])
  }

  lemma {:induction false} InsertSorts(r: ChunkRef, refs: seq<ChunkRef>)
    requires SortedByStart(refs)
    ensures SortedByStart(Insert(r, refs))
  {
    if refs != [] && r.start > refs[0].start {
      InsertSorts(r, refs[1..]);
      var rest := Insert(r, refs[1..]);
      forall j | 0 <= j < |rest| ensures refs[0].start <= rest[j].start {
        assert rest[j] in multiset(rest);
        if rest[j] != r {
          assert rest[j] in multiset(refs[1..]);
          var k :| 0 <= k < |refs[1..]| && refs[1..][k] == rest[j];
          assert refs[0].start <= refs[k + 1].start;
        }
      }
    }
  }

  method SortByStart(refs: seq<ChunkRef>) returns (sorted: seq<ChunkRef>)
    ensures multiset(sorted) == multiset(refs) && SortedByStart(sorted)
  {
    sorted := [];
    for i := 0 to |refs|
      invariant multiset(sorted) == multiset(refs[..i]) && SortedByStart(sorted)
    {
      InsertSorts(refs[i], sorted);
      sorted := Insert(refs[i], sorted);
      assert refs[..i + 1] == refs[..i] + [refs[i]];
    }
    assert refs[..|refs|] == refs;
  }

  // ---- an upload and the part of it that has arrived ----

  /** A client's file cut into chunks: chunk i covers [cuts[i], cuts[i+1]). */
  datatype Upload = Upload(id: string, content: bytes, cuts: seq<nat>) {
    /** The chunks tile the content; only the last one may be empty. */
    ghost predicate Valid() {
      && IsIdentifier(id)
      && |content| <= MAX_INT64
      && |cuts| >= 2 && cuts[0] == 0 && cuts[|cuts| - 1] == |content|
      && (forall i, j | 0 <= i < j < |cuts| :: cuts[i] <= cuts[j])
      && (forall i, j | 0 <= i < j < |cuts| - 1 :: cuts[i] < cuts[j])
    }

    ghost function Count(): nat
      requires Valid()
    {
      |cuts| - 1
    }

    ghost function Slice(i: nat): bytes
      requires Valid() && i < Count()
    {
      content[cuts[i]..cuts[i + 1]]
    }

    ghost function Name(i: nat): string
      requires Valid() && i < Count()
    {
      ChunkName(id, cuts[i], cuts[i + 1])
    }
  }

  ghost predicate Indices(u: Upload, s: seq<nat>)
    requires u.Valid()
  {
    forall i | 0 <= i < |s| :: s[i] < u.Count()
  }

  /** The chunk numbers below k that are in sent, in ascending order. */
  ghost function Received(sent: set<nat>, k: nat): (s: seq<nat>)
    ensures forall i | 0 <= i < |s| :: s[i] < k
  {
    if k == 0 then []
    else Received(sent, k - 1) + (if k - 1 in sent then [k - 1] else [])
  }

  lemma {:induction false} ReceivedAscends(sent: set<nat>, k: nat)
    ensures forall i, j | 0 <= i < j < |Received(sent, k)| :: Received(sent, k)[i] < Received(sent, k)[j]
    ensures forall i | 0 <= i < |Received(sent, k)| :: Received(sent, k)[i] in sent
  {
    if k > 0 {
      ReceivedAscends(sent, k - 1);
    }
  }

  lemma {:induction false} ReceivedContains(sent: set<nat>, k: nat, i: nat)
    requires i in sent && i < k
    ensures i in Received(sent, k)
  {
    if i < k - 1 {
      ReceivedContains(sent, k - 1, i);
    }
  }

  /** The bytes of the given chunks, one after the other. */
  ghost function Joined(u: Upload, s: seq<nat>): bytes
    requires u.Valid() && Indices(u, s)
  {
    if s == [] then [] else Joined(u, s[..|s| - 1]) + u.Slice(s[|s| - 1])
  }

  ghost function RefsOf(u: Upload, s: seq<nat>): seq<ChunkRef>
    requires u.Valid() && Indices(u, s)
  {
    seq(|s|, k requires 0 <= k < |s| => ChunkRef(u.Name(s[k]), u.cuts[s[k]]))
  }

  /** Every chunk that carries bytes has arrived. */
  ghost predicate Complete(u: Upload, sent: set<nat>)
    requires u.Valid()
  {
    forall i: nat | i < u.Count() && u.Slice(i) != [] :: i in sent
  }

  ghost predicate CompleteBelow(u: Upload, sent: set<nat>, k: nat)
    requires u.Valid() && k <= u.Count()
  {
    k == 0 || (CompleteBelow(u, sent, k - 1) && (k - 1 in sent || u.Slice(k - 1) == []))
  }

  lemma {:induction false} CompleteBelowMeans(u: Upload, sent: set<nat>, k: nat)
    requires u.Valid() && k <= u.Count()
    ensures CompleteBelow(u, sent, k) <==> forall i: nat | i < k && u.Slice(i) != [] :: i in sent
  {
    if k > 0 {
      CompleteBelowMeans(u, sent, k - 1);
      assert u.Slice(k - 1) == u.Slice(k - 1);
    }
  }

  lemma JoinedStep(u: Upload, sent: set<nat>, k: nat)
    requires u.Valid() && 0 < k <= u.Count()
    ensures Joined(u, Received(sent, k)) ==
            Joined(u, Received(sent, k - 1)) + if k - 1 in sent then u.Slice(k - 1) else []
  {
    var all := Received(sent, k);
    if k - 1 in sent {
      assert all[..|all| - 1] == Received(sent, k - 1);
    } else {
      assert all == Received(sent, k - 1);
    }
  }

  lemma SplitContent(u: Upload, k: nat)
    requires u.Valid() && 0 < k <= u.Count()
    ensures u.cuts[k - 1] <= u.cuts[k] && |u.Slice(k - 1)| == u.cuts[k] - u.cuts[k - 1]
    ensures u.content[..u.cuts[k]] == u.content[..u.cuts[k - 1]] + u.Slice(k - 1)
  {
  }

  lemma {:induction false} JoinedPrefix(u: Upload, sent: set<nat>, k: nat)
    requires u.Valid() && k <= u.Count()
    ensures |Joined(u, Received(sent, k))| <= u.cuts[k]
    ensures |Joined(u, Received(sent, k))| == u.cuts[k] <==> CompleteBelow(u, sent, k)
    ensures CompleteBelow(u, sent, k) ==> Joined(u, Received(sent, k)) == u.content[..u.cuts[k]]
  {
    if k > 0 {
      JoinedPrefix(u, sent, k - 1);
      JoinedStep(u, sent, k);
      SplitContent(u, k);
    }
  }

  /** Joining what has arrived gives the client's file exactly when no chunk with bytes is
      missing. */
  lemma JoinedIsContent(u: Upload, sent: set<nat>)
    requires u.Valid()
    ensures Joined(u, Received(sent, u.Count())) == u.content <==> Complete(u, sent)
  {
    JoinedPrefix(u, sent, u.Count());
    assert u.content[..u.cuts[u.Count()]] == u.content;
    CompleteBelowMeans(u, sent, u.Count());
  }

  // ---- the directory an assembly reads ----

  /** order is what the assembler works through: every decodable file of id, by start offset. */
  ghost predicate IsOrder(id: string, dir: map<string, bytes>, order: seq<ChunkRef>) {
    && NoDuplicates(order)
    && SortedByStart(order)
    && (forall r :: r in order <==> r.path in dir && DecodeStart(id, r.path) == Some(r.start))
  }

  /** The files dir keeps for u are exactly the chunks numbered in sent, with their own bytes. */
  ghost predicate Holds(u: Upload, sent: set<nat>, dir: map<string, bytes>)
    requires u.Valid()
  {
    && (forall i | i in sent :: i < u.Count() && u.Name(i) in dir && dir[u.Name(i)] == u.Slice(i))
    && (forall n | n in dir && Prefix(u.id) <= n :: exists i :: i in sent && i < u.Count() && n == u.Name(i))
  }

  lemma NameInjective(u: Upload, i: nat, j: nat)
    requires u.Valid() && i < u.Count() && j < u.Count() && u.Name(i) == u.Name(j)
    ensures i == j
  {
    ChunkNameInjective(u.id, u.cuts[i], u.cuts[i + 1], u.id, u.cuts[j], u.cuts[j + 1]);
  }

  lemma DecodeName(u: Upload, i: nat)
    requires u.Valid() && i < u.Count()
    ensures DecodeStart(u.id, u.Name(i)) == Some(u.cuts[i])
    ensures Prefix(u.id) <= u.Name(i)
  {
    DecodeOfName(u.id, u.cuts[i], u.cuts[i + 1]);
  }

  lemma RefsStrictlySorted(u: Upload, sent: set<nat>)
    requires u.Valid()
    ensures StrictlySorted(RefsOf(u, Received(sent, u.Count())))
    ensures NoDuplicates(RefsOf(u, Received(sent, u.Count())))
  {
    ReceivedAscends(sent, u.Count());
  }

  /** Whatever order the directory was listed in, the assembler visits the received chunks by
      number. */
  lemma OrderIsReceived(u: Upload, sent: set<nat>, dir: map<string, bytes>, order: seq<ChunkRef>)
    requires u.Valid() && Holds(u, sent, dir) && IsOrder(u.id, dir, order)
    ensures order == RefsOf(u, Received(sent, u.Count()))
  {
    var idx := Received(sent, u.Count());
    var refs := RefsOf(u, idx);
    RefsStrictlySorted(u, sent);
    forall r ensures r in order <==> r in refs {
      if r in refs {
        var k :| 0 <= k < |refs| && refs[k] == r;
        ReceivedAscends(sent, u.Count());
        DecodeName(u, idx[k]);
      }
      if r in order {
        var i: nat :| i in sent && i < u.Count() && r.path == u.Name(i);
        DecodeName(u, i);
        ReceivedContains(sent, u.Count(), i);
        var k :| 0 <= k < |idx| && idx[k] == i;
        assert refs[k] == r;
      }
    }
    SameElements(order, refs);
    SortedArrangementUnique(refs, order);
  }

  // ---- writing at offsets ----

  datatype Chunk = Chunk(start: nat, data: bytes)

  /** What a write stream opened at offset leaves in the file; an empty stream writes nothing. */
  function WriteAt(file: bytes, offset: nat, data: bytes): bytes {
    if data == [] then file
    else
      var grown := if offset + |data| <= |file| then file else file + Repeat<byte>(0, offset + |data| - |file|);
      grown[..offset] + data + grown[offset + |data|..]
  }

  function WriteAll(chunks: seq<Chunk>): bytes {
    if chunks == [] then []
    else
      var last := chunks[|chunks| - 1];
      WriteAt(WriteAll(chunks[..|chunks| - 1]), last.start, last.data)
  }

  /** The combine loop: each chunk is written at its own offset into an empty file. */
  method CombineAtOffsets(chunks: seq<Chunk>) returns (file: bytes)
    ensures file == WriteAll(chunks)
  {
    file := [];
    for i := 0 to |chunks|
      invariant file == WriteAll(chunks[..i])
    {
      file := WriteAt(file, chunks[i].start, chunks[i].data);
      assert chunks[..i + 1][..i] == chunks[..i];
    }
    assert chunks[..|chunks|] == chunks;
  }

  /** c carries the bytes content has at c's place. */
  ghost predicate IsSlice(c: Chunk, content: bytes) {
    c.start + |c.data| <= |content| && content[c.start..c.start + |c.data|] == c.data
  }

  ghost predicate Covers(c: Chunk, p: int) {
    c.start <= p < c.start + |c.data|
  }

  ghost predicate CoveredAt(chunks: seq<Chunk>, p: int) {
    exists c :: c in chunks && Covers(c, p)
  }

  /** Every position is covered by some chunk. */
  ghost predicate Covered(chunks: seq<Chunk>, content: bytes) {
    forall p | 0 <= p < |content| :: CoveredAt(chunks, p)
  }

  lemma {:induction false} WriteAllImage(chunks: seq<Chunk>, content: bytes)
    requires forall c | c in chunks :: IsSlice(c, content)
    ensures |WriteAll(chunks)| <= |content|
    ensures forall c, p | c in chunks && Covers(c, p) :: p < |WriteAll(chunks)| && WriteAll(chunks)[p] == content[p]
  {
    if chunks != [] {
      var before := chunks[..|chunks| - 1];
      var last := chunks[|chunks| - 1];
      assert chunks == before + [last];
      WriteAllImage(before, content);
      assert IsSlice(last, content);
      forall c, p | c in chunks && Covers(c, p)
        ensures p < |WriteAll(chunks)| && WriteAll(chunks)[p] == content[p]
      {
        if Covers(last, p) {
          assert WriteAll(chunks)[p] == last.data[p - last.start];
          assert content[last.start..last.start + |last.data|][p - last.start] == content[p];
        } else {
          assert c in before;
          assert WriteAll(chunks)[p] == WriteAll(before)[p];
        }
      }
    }
  }

  /** Offset writing rebuilds the file from any slices that cover it: in any order, repeated or
      overlapping. */
  lemma OffsetWritingRebuilds(chunks: seq<Chunk>, content: bytes)
    requires forall c | c in chunks :: IsSlice(c, content)
    requires Covered(chunks, content)
    ensures WriteAll(chunks) == content
  {
    WriteAllImage(chunks, content);
    forall p | 0 <= p < |content|
      ensures p < |WriteAll(chunks)| && WriteAll(chunks)[p] == content[p]
    {
      assert CoveredAt(chunks, p);
      var c :| c in chunks && Covers(c, p);
    }
    if content != [] {
      assert CoveredAt(chunks, |content| - 1);
      var c :| c in chunks && Covers(c, |content| - 1);
    }
  }

  ghost function ChunksOf(u: Upload, s: seq<nat>): seq<Chunk>
    requires u.Valid() && Indices(u, s)
  {
    seq(|s|, k requires 0 <= k < |s| => Chunk(u.cuts[s[k]], u.Slice(s[k])))
  }

  ghost predicate ChunkHas(u: Upload, i: nat, p: int)
    requires u.Valid()
  {
    i < u.Count() && u.cuts[i] <= p < u.cuts[i + 1]
  }

  lemma {:induction false} ChunkAt(u: Upload, p: int, k: nat)
    requires u.Valid() && k <= u.Count() && 0 <= p < u.cuts[k]
    ensures exists i :: ChunkHas(u, i, p)
  {
    if u.cuts[k - 1] <= p {
      assert ChunkHas(u, k - 1, p);
    } else {
      ChunkAt(u, p, k - 1);
    }
  }

  lemma ArrangementSlices(u: Upload, arrangement: seq<nat>)
    requires u.Valid() && Indices(u, arrangement)
    ensures forall c | c in ChunksOf(u, arrangement) :: IsSlice(c, u.content)
  {
    var chunks := ChunksOf(u, arrangement);
    forall c | c in chunks ensures IsSlice(c, u.content) {
      var k :| 0 <= k < |chunks| && chunks[k] == c;
      SplitContent(u, arrangement[k] + 1);
    }
  }

  lemma ArrangementCovers(u: Upload, arrangement: seq<nat>, p: nat)
    requires u.Valid() && Indices(u, arrangement) && p < |u.content|
    requires forall i: nat | i < u.Count() && u.Slice(i) != [] :: i in arrangement
    ensures CoveredAt(ChunksOf(u, arrangement), p)
  {
    ChunkAt(u, p, u.Count());
    var i :| ChunkHas(u, i, p);
    assert u.Slice(i) != [];
    var k :| 0 <= k < |arrangement| && arrangement[k] == i;
    var c := ChunksOf(u, arrangement)[k];
    assert c in ChunksOf(u, arrangement) && Covers(c, p);
  }

  /** The two forms agree: once a complete set of chunks has arrived, writing them at their
      offsets in any arrangement (repeats included) gives the file that sorting and
      concatenating gives. */
  lemma OffsetFormRefinesConcatenation(u: Upload, sent: set<nat>, arrangement: seq<nat>)
    requires u.Valid() && Indices(u, arrangement) && Complete(u, sent)
    requires forall i | i in sent && i < u.Count() :: i in arrangement
    ensures WriteAll(ChunksOf(u, arrangement)) == Joined(u, Received(sent, u.Count()))
  {
    JoinedIsContent(u, sent);
    var chunks := ChunksOf(u, arrangement);
    ArrangementSlices(u, arrangement);
    forall p | 0 <= p < |u.content| ensures CoveredAt(chunks, p) {
      ArrangementCovers(u, arrangement, p);
    }
    OffsetWritingRebuilds(chunks, u.content);
  }
}
