/** Erasing GPS data from an image in place: the entries of the GPS directory are overwritten with
    zeros. Reads past the end of the buffer throw. */
module GpsErase {
  import opened Bytes
  import opened Wrappers

  const EXIF_JPEG_TAG := 0x45786966
  const EXIF_PNG_TAG := 0x65584966
  const GPS_IFD_TAG := 0x8825
  const JPEG_EXIF_TAG := 0xffd8ffe1
  const JPEG_APP1_TAG := 0xffe1
  const JPEG_JFIF_TAG := 0xffd8ffe0
  const TIFF_LE := 0x49492a00
  const TIFF_BE := 0x4d4d002a
  const PNG_TAG := 0x89504e47
  const PNG_IEND := 0x49454e44

  /** Whether something was removed, or a read was out of range. */
  datatype Outcome = Removed(yes: bool) | Threw

  /** The value of a directory entry, if one was found. */
  datatype Lookup = Found(offset: nat) | Missing | BadRead

  function At(b: bytes, o: nat): int
    requires o < |b|
  {
    b[o]
  }

  /** readUInt16LE and readUInt16BE. */
  function U16(b: bytes, o: nat, le: bool): Option<nat> {
    if o + 2 > |b| then None
    else if le then Some(At(b, o) + 0x100 * At(b, o + 1)) else Some(0x100 * At(b, o) + At(b, o + 1))
  }

  /** readUInt32LE and readUInt32BE. */
  function U32(b: bytes, o: nat, le: bool): Option<nat> {
    if o + 4 > |b| then None
    else if le then Some(At(b, o) + 0x100 * At(b, o + 1) + 0x1_0000 * At(b, o + 2) + 0x100_0000 * At(b, o + 3))
    else Some(0x100_0000 * At(b, o) + 0x1_0000 * At(b, o + 1) + 0x100 * At(b, o + 2) + At(b, o + 3))
  }

  // ---- finding the GPS directory ----

  function EntryAt(ifd: nat, i: nat): nat {
    ifd + 2 + 12 * i
  }

  predicate Readable(b: bytes, ifd: nat, i: nat) {
    EntryAt(ifd, i) + 12 <= |b|
  }

  predicate IsGpsEntry(b: bytes, ifd: nat, i: nat, le: bool) {
    && U16(b, EntryAt(ifd, i), le) == Some(GPS_IFD_TAG)
    && U16(b, EntryAt(ifd, i) + 2, le) == Some(4)
    && U32(b, EntryAt(ifd, i) + 4, le) == Some(1)
  }

  /** Entry i is the first GPS pointer, and no entry before it runs past the end. */
  ghost predicate IsFirstGps(b: bytes, ifd: nat, n: nat, le: bool, i: nat) {
    && i < n && Readable(b, ifd, i) && IsGpsEntry(b, ifd, i, le)
    && forall j: nat | j < i :: Readable(b, ifd, j) && !IsGpsEntry(b, ifd, j, le)
  }

  method LocateGpsTagOffset(b: bytes, ifd: nat, le: bool) returns (r: Lookup)
    ensures U16(b, ifd, le) == None ==> r == BadRead
    ensures U16(b, ifd, le).Some? ==>
              match r
              case Found(v) => exists i: nat :: IsFirstGps(b, ifd, U16(b, ifd, le).value, le, i)
                                                && U32(b, EntryAt(ifd, i) + 8, le) == Some(v)
              case Missing =>
                forall i: nat | i < U16(b, ifd, le).value :: Readable(b, ifd, i) && !IsGpsEntry(b, ifd, i, le)
              case BadRead => exists i: nat :: i < U16(b, ifd, le).value && !Readable(b, ifd, i)
                                               && forall j: nat | j < i :: Readable(b, ifd, j)
                                                                           && !IsGpsEntry(b, ifd, j, le)
    ensures r == Locate(b, ifd, le)
  {
    var numEntries := U16(b, ifd, le);
    if numEntries == None {
      return BadRead;
    }
    var i := 0;
    while i < numEntries.value
      invariant forall j: nat | j < i :: Readable(b, ifd, j) && !IsGpsEntry(b, ifd, j, le)
      invariant Locate(b, ifd, le) == LocateFrom(b, ifd, numEntries.value, le, i)
    {
      if !Readable(b, ifd, i) {
        return BadRead;
      }
      if IsGpsEntry(b, ifd, i, le) {
        return Found(U32(b, EntryAt(ifd, i) + 8, le).value);
      }
      i := i + 1;
    }
    return Missing;
  }

  function LocateFrom(b: bytes, ifd: nat, n: nat, le: bool, i: nat): Lookup
    decreases n - i
  {
    if i >= n then Missing
    else if !Readable(b, ifd, i) then BadRead
    else if IsGpsEntry(b, ifd, i, le) then Found(U32(b, EntryAt(ifd, i) + 8, le).value)
    else LocateFrom(b, ifd, n, le, i + 1)
  }

  function Locate(b: bytes, ifd: nat, le: bool): Lookup {
    match U16(b, ifd, le)
    case None => BadRead
    case Some(n) => LocateFrom(b, ifd, n, le, 0)
  }

  // ---- erasing ----

  function ZeroRange(b: bytes, from: nat, count: nat): (z: bytes)
    ensures |z| == |b|
    ensures forall k | 0 <= k < |b| :: z[k] == if from <= k < from + count then 0 else b[k]
  {
    seq(|b|, k requires 0 <= k < |b| => if from <= k < from + count then 0 else b[k])
  }

  /** The entries of the directory at dir: everything after its count. */
  function Erased(b: bytes, dir: nat, le: bool): (Outcome, bytes) {
    match U16(b, dir, le)
    case None => (Threw, b)
    case Some(n) => (Removed(true), ZeroRange(b, dir + 2, 12 * n))
  }

  /** The directory at ifd points to the GPS directory, counted from base. */
  function Stripped(b: bytes, ifd: nat, base: nat, le: bool): (Outcome, bytes) {
    match Locate(b, ifd, le)
    case BadRead => (Threw, b)
    case Missing => (Removed(false), b)
    case Found(v) => Erased(b, v + base, le)
  }

  /** An Exif block whose header starts at offset. */
  function ExifStripped(b: bytes, offset: nat): (Outcome, bytes) {
    match U32(b, offset, false)
    case None => (Threw, b)
    case Some(header) => Stripped(b, offset + 8, offset, header == TIFF_LE)
  }

  method RemoveGpsEntries(buffer: array<byte>, dir: nat, le: bool) returns (r: Outcome)
    modifies buffer
    ensures (r, buffer[..]) == Erased(old(buffer[..]), dir, le)
  {
    var numEntries := U16(buffer[..], dir, le);
    if numEntries == None {
      return Threw;
    }
    var from := dir + 2;
    var end := if from + 12 * numEntries.value < buffer.Length then from + 12 * numEntries.value else buffer.Length;
    for k := from to end
      invariant forall j | 0 <= j < buffer.Length :: buffer[j] == if from <= j < k then 0 else old(buffer[j])
    {
      buffer[k] := 0;
    }
    assert buffer[..] == ZeroRange(old(buffer[..]), from, 12 * numEntries.value);
    return Removed(true);
  }

  method StripGpsFromTiff(buffer: array<byte>, ifd: nat, base: nat, le: bool) returns (r: Outcome)
    modifies buffer
    ensures (r, buffer[..]) == Stripped(old(buffer[..]), ifd, base, le)
  {
    var found := LocateGpsTagOffset(buffer[..], ifd, le);
    match found {
      case BadRead => return Threw;
      case Missing => return Removed(false);
      case Found(v) => r := RemoveGpsEntries(buffer, v + base, le);
    }
  }

  method StripGpsFromExif(buffer: array<byte>, offset: nat) returns (r: Outcome)
    modifies buffer
    ensures (r, buffer[..]) == ExifStripped(old(buffer[..]), offset)
  {
    var header := U32(buffer[..], offset, false);
    if header == None {
      return Threw;
    }
    r := StripGpsFromTiff(buffer, offset + 8, offset, header.value == TIFF_LE);
  }

  // ---- the three formats ----

  /** The chunks of a PNG file from offset on, up to IEND or a read out of range. */
  function PngWalk(b: bytes, offset: nat, removed: bool): (Outcome, bytes)
    decreases |b| - offset
  {
    match (U32(b, offset, false), U32(b, offset + 4, false))
    case (Some(length), Some(kind)) =>
      if kind == PNG_IEND then (Removed(removed), b)
      else if kind == EXIF_PNG_TAG then
        var (r, after) := ExifStripped(b, offset + 8);
        if r == Threw then (Threw, after) else PngWalk(after, offset + 12 + length, r.yes)
      else PngWalk(b, offset + 12 + length, removed)
    case _ => (Threw, b)
  }

  /** Where the Exif directory of a JPEG or TIFF file is: at ifd, its offsets counted from base; the
      first header bytes of the file say so. */
  datatype Exif = Directory(ifd: nat, base: nat, le: bool, header: nat) | NoExif | Unreadable

  function ExifBlock(b: bytes, marker: nat): Exif {
    match U32(b, marker + 2, false)
    case None => Unreadable
    case Some(name) =>
      if name != EXIF_JPEG_TAG then NoExif
      else match U32(b, marker + 8, false)
        case None => Unreadable
        case Some(header) => Directory(marker + 16, marker + 8, header == TIFF_LE, marker + 12)
  }

  function JpegExif(b: bytes, signature: nat): Exif {
    if signature == JPEG_EXIF_TAG then ExifBlock(b, 4)
    else match U16(b, 4, false)
      case None => Unreadable
      case Some(size) =>
        match U16(b, 4 + size, false)
        case None => Unreadable
        case Some(marker) => if marker == JPEG_APP1_TAG then ExifBlock(b, 4 + size + 2) else NoExif
  }

  function TiffExif(b: bytes, signature: nat): Exif {
    match U32(b, 4, signature == TIFF_LE)
    case None => Unreadable
    case Some(ifd) => Directory(ifd, 0, signature == TIFF_LE, 8)
  }

  function ExifOf(b: bytes): Exif {
    match U32(b, 0, false)
    case None => Unreadable
    case Some(s) =>
      if s == JPEG_EXIF_TAG || s == JPEG_JFIF_TAG then JpegExif(b, s)
      else if s == TIFF_LE || s == TIFF_BE then TiffExif(b, s)
      else NoExif
  }

  function GpsRemoved(b: bytes): (Outcome, bytes) {
    if U32(b, 0, false) == Some(PNG_TAG) then PngWalk(b, 8, false)
    else match ExifOf(b)
      case Unreadable => (Threw, b)
      case NoExif => (Removed(false), b)
      case Directory(ifd, base, le, _) => Stripped(b, ifd, base, le)
  }

  method WalkPng(buffer: array<byte>) returns (r: Outcome)
    modifies buffer
    ensures (r, buffer[..]) == PngWalk(old(buffer[..]), 8, false)
  {
    var offset, removed, chunkType := 8, false, 0;
    while chunkType != PNG_IEND
      invariant chunkType != PNG_IEND ==> PngWalk(old(buffer[..]), 8, false) == PngWalk(buffer[..], offset, removed)
      invariant chunkType == PNG_IEND ==> PngWalk(old(buffer[..]), 8, false) == (Removed(removed), buffer[..])
      decreases chunkType != PNG_IEND, buffer.Length - offset
    {
      var length, kind := U32(buffer[..], offset, false), U32(buffer[..], offset + 4, false);
      if length == None || kind == None {
        return Threw;
      }
      chunkType := kind.value;
      if chunkType == EXIF_PNG_TAG {
        var one := StripGpsFromExif(buffer, offset + 8);
        if one == Threw {
          return Threw;
        }
        removed := one.yes;
      }
      if chunkType != PNG_IEND {
        offset := offset + 12 + length.value;
      }
    }
    return Removed(removed);
  }

  method JpegOffset(b: bytes, signature: nat) returns (r: Exif)
    ensures r == JpegExif(b, signature)
  {
    var offset := 4;
    if signature != JPEG_EXIF_TAG {
      var size := U16(b, offset, false);
      if size == None {
        return Unreadable;
      }
      offset := offset + size.value;
      var marker := U16(b, offset, false);
      if marker == None {
        return Unreadable;
      }
      if marker.value != JPEG_APP1_TAG {
        return NoExif;
      }
      offset := offset + 2;
    }
    return ExifBlock(b, offset);
  }

  method RemoveGps(buffer: array<byte>) returns (r: Outcome)
    modifies buffer
    ensures (r, buffer[..]) == GpsRemoved(old(buffer[..]))
  {
    var signature := U32(buffer[..], 0, false);
    if signature == None {
      return Threw;
    }
    if signature.value == PNG_TAG {
      r := WalkPng(buffer);
    } else if signature.value == JPEG_EXIF_TAG || signature.value == JPEG_JFIF_TAG {
      var exif := JpegOffset(buffer[..], signature.value);
      match exif {
        case Unreadable => return Threw;
        case NoExif => return Removed(false);
        case Directory(ifd, base, _, _) => r := StripGpsFromExif(buffer, base);
      }
    } else if signature.value == TIFF_LE || signature.value == TIFF_BE {
      var ifd := U32(buffer[..], 4, signature.value == TIFF_LE);
      if ifd == None {
        return Threw;
      }
      r := StripGpsFromTiff(buffer, ifd.value, 0, signature.value == TIFF_LE);
    } else {
      return Removed(false);
    }
  }

  // ---- what it does to the bytes ----

  /** after is b with count bytes zeroed from a position on, or fewer where b ends. */
  ghost predicate IsErased(b: bytes, from: nat, count: nat, after: bytes) {
    |after| == |b| && forall k | 0 <= k < |b| :: after[k] == if from <= k < from + count then 0 else b[k]
  }

  /** In a JPEG or TIFF file the length stays, and exactly the 12-byte entries of the directory that
      the first GPS pointer names become zero, as far as they lie in the file. Otherwise nothing
      changes. */
  lemma ErasesExactly(b: bytes)
    requires U32(b, 0, false) != Some(PNG_TAG)
    ensures var (r, after) := GpsRemoved(b);
            && |after| == |b|
            && (r != Removed(true) ==> after == b)
            && (r == Removed(true) ==>
                  && ExifOf(b).Directory?
                  && exists v: nat, n: nat :: IsDirectory(b, ExifOf(b), v, n)
                                              && IsErased(b, ExifOf(b).base + v + 2, 12 * n, after))
  {
    var (r, after) := GpsRemoved(b);
    if r == Removed(true) {
      var e := ExifOf(b);
      var v := Locate(b, e.ifd, e.le).offset;
      var n := U16(b, v + e.base, e.le).value;
      assert IsDirectory(b, e, v, n) && IsErased(b, e.base + v + 2, 12 * n, after);
    }
  }

  /** The first GPS pointer of the Exif directory holds v, and the directory there has n entries. */
  ghost predicate IsDirectory(b: bytes, e: Exif, v: nat, n: nat)
    requires e.Directory?
  {
    Locate(b, e.ifd, e.le) == Found(v) && U16(b, v + e.base, e.le) == Some(n)
  }

  // ---- the chunks of a PNG file ----

  /** A chunk the walk passes: no eXIf chunk, one without a GPS pointer, or one whose first GPS
      pointer holds v and names a directory of n entries. */
  datatype Visit = Plain(offset: nat) | NoGps(offset: nat) | Gps(offset: nat, v: nat, n: nat)

  /** The Exif directory of the eXIf chunk at offset. */
  function ChunkExif(b: bytes, offset: nat): Exif {
    match U32(b, offset + 8, false)
    case None => Unreadable
    case Some(header) => Directory(offset + 16, offset + 8, header == TIFF_LE, offset + 12)
  }

  ghost predicate IsVisit(b: bytes, x: Visit) {
    && U32(b, x.offset, false).Some? && U32(b, x.offset + 4, false).Some?
    && var kind := U32(b, x.offset + 4, false).value;
       match x
       case Plain(_) => kind != PNG_IEND && kind != EXIF_PNG_TAG
       case NoGps(o) =>
         && kind == EXIF_PNG_TAG && ChunkExif(b, o).Directory?
         && Locate(b, ChunkExif(b, o).ifd, ChunkExif(b, o).le) == Missing
       case Gps(o, v, n) => kind == EXIF_PNG_TAG && ChunkExif(b, o).Directory? && IsDirectory(b, ChunkExif(b, o), v, n)
  }

  /** Position k lies in an entry of the directory this chunk names. */
  predicate Covers(x: Visit, k: nat) {
    x.Gps? && x.offset + 8 + x.v + 2 <= k < x.offset + 8 + x.v + 2 + 12 * x.n
  }

  /** b with all entries of the directories named so far set to zero. */
  ghost function Zeroed(b: bytes, visits: seq<Visit>): bytes {
    seq(|b|, k requires 0 <= k < |b| => if exists x | x in visits :: Covers(x, k) then 0 else b[k])
  }

  function NextOffset(b: bytes, x: Visit): nat
    requires U32(b, x.offset, false).Some?
  {
    x.offset + 12 + U32(b, x.offset, false).value
  }

  /** The chunks follow each other from offset on; each is read after the earlier ones' entries were
      erased. */
  ghost predicate IsWalk(b: bytes, offset: nat, visits: seq<Visit>)
    decreases |visits|
  {
    visits != [] ==>
      var x := visits[0];
      x.offset == offset && IsVisit(b, x) && IsWalk(Zeroed(b, [x]), NextOffset(b, x), visits[1..])
  }

  /** Where the walk stands after those chunks. */
  ghost function WalkEnd(b: bytes, offset: nat, visits: seq<Visit>): nat
    requires IsWalk(b, offset, visits)
    decreases |visits|
  {
    if visits == [] then offset else WalkEnd(Zeroed(b, [visits[0]]), NextOffset(b, visits[0]), visits[1..])
  }

  /** No chunk header can be read at offset, or an Exif directory there cannot. */
  ghost predicate CannotRead(b: bytes, offset: nat) {
    || U32(b, offset, false) == None || U32(b, offset + 4, false) == None
    || (U32(b, offset + 4, false) == Some(EXIF_PNG_TAG) && ExifStripped(b, offset + 8).0 == Threw)
  }

  /** The walk goes no further: it is at IEND, or at something that cannot be read. */
  ghost predicate Stops(b: bytes, offset: nat) {
    CannotRead(b, offset) || U32(b, offset + 4, false) == Some(PNG_IEND)
  }

  /** The chunks in visits are all that the walk from offset passes. */
  ghost predicate IsFullWalk(b: bytes, offset: nat, visits: seq<Visit>) {
    IsWalk(b, offset, visits) && Stops(Zeroed(b, visits), WalkEnd(b, offset, visits))
  }

  /** Chunk i had a GPS pointer, and no eXIf chunk follows. */
  ghost predicate LastExifAt(visits: seq<Visit>, i: int) {
    0 <= i < |visits| && visits[i].Gps? && forall j | i < j < |visits| :: visits[j].Plain?
  }

  /** The last eXIf chunk had a GPS pointer. */
  ghost predicate LastExifHasGps(visits: seq<Visit>) {
    exists i :: LastExifAt(visits, i)
  }

  ghost predicate Reported(removed: bool, visits: seq<Visit>) {
    LastExifHasGps(visits) || (removed && forall x | x in visits :: x.Plain?)
  }

  /** What is left after the walk over the chunks in visits: their directories' entries are zero and
      nothing else changed. It ends at IEND, telling only of the last eXIf chunk, or throws. */
  ghost predicate WalkOutcome(b: bytes, offset: nat, removed: bool, visits: seq<Visit>, result: (Outcome, bytes)) {
    && IsWalk(b, offset, visits)
    && result.1 == Zeroed(b, visits)
    && var end := WalkEnd(b, offset, visits);
       match result.0
       case Threw => CannotRead(result.1, end)
       case Removed(yes) =>
         && !CannotRead(result.1, end) && U32(result.1, end + 4, false) == Some(PNG_IEND)
         && (yes <==> Reported(removed, visits))
  }

  lemma ZeroedNone(b: bytes)
    ensures Zeroed(b, []) == b
  {
  }

  lemma ZeroedThen(b: bytes, x: Visit, visits: seq<Visit>)
    ensures Zeroed(Zeroed(b, [x]), visits) == Zeroed(b, [x] + visits)
  {
    var all := [x] + visits;
    forall k: nat
      ensures (exists y | y in all :: Covers(y, k)) <==> (Covers(x, k) || exists y | y in visits :: Covers(y, k))
    {
      assert x in all;
      assert forall y | y in visits :: y in all;
    }
  }

  lemma LastShifts(x: Visit, visits: seq<Visit>, i: nat)
    ensures LastExifAt(visits, i) <==> LastExifAt([x] + visits, i + 1)
  {
    var all := [x] + visits;
    assert forall j | 0 <= j < |visits| :: all[j + 1] == visits[j];
    if LastExifAt(all, i + 1) {
      forall j | i < j < |visits| ensures visits[j].Plain? {
        assert all[j + 1].Plain?;
      }
    }
  }

  lemma LastThen(x: Visit, visits: seq<Visit>)
    ensures LastExifHasGps([x] + visits) <==> LastExifHasGps(visits) || LastExifAt([x] + visits, 0)
  {
    if LastExifHasGps(visits) {
      var i :| LastExifAt(visits, i);
      LastShifts(x, visits, i);
    }
    if LastExifHasGps([x] + visits) {
      var i :| LastExifAt([x] + visits, i);
      if i > 0 {
        LastShifts(x, visits, i - 1);
      }
    }
  }

  lemma ZeroedOne(b: bytes, x: Visit)
    ensures Zeroed(b, [x]) == if x.Gps? then ZeroRange(b, x.offset + 8 + x.v + 2, 12 * x.n) else b
  {
    forall k: nat ensures (exists y | y in [x] :: Covers(y, k)) <==> Covers(x, k) {
      assert x in [x];
    }
  }

  lemma ExifOutcome(b: bytes, offset: nat)
    requires ExifStripped(b, offset + 8).0 != Threw
    ensures ChunkExif(b, offset).Directory?
    ensures var e := ChunkExif(b, offset);
            match Locate(b, e.ifd, e.le)
            case BadRead => false
            case Missing => ExifStripped(b, offset + 8) == (Removed(false), b)
            case Found(v) =>
              && U16(b, v + e.base, e.le).Some?
              && ExifStripped(b, offset + 8)
                 == (Removed(true), ZeroRange(b, v + e.base + 2, 12 * U16(b, v + e.base, e.le).value))
  {
  }

  lemma ExifVisit(b: bytes, offset: nat)
    requires U32(b, offset, false).Some? && U32(b, offset + 4, false) == Some(EXIF_PNG_TAG)
    requires ChunkExif(b, offset).Directory?
    requires var e := ChunkExif(b, offset);
             match Locate(b, e.ifd, e.le)
             case BadRead => false
             case Missing => true
             case Found(v) => U16(b, v + e.base, e.le).Some?
    ensures !VisitAt(b, offset).Plain? && IsVisit(b, VisitAt(b, offset))
  {
  }

  lemma ExifErases(b: bytes, offset: nat)
    requires U32(b, offset + 4, false) == Some(EXIF_PNG_TAG)
    requires ExifStripped(b, offset + 8).0 != Threw
    ensures var x := VisitAt(b, offset);
            ExifStripped(b, offset + 8) == (Removed(x.Gps?), Zeroed(b, [x]))
  {
    ExifOutcome(b, offset);
    ZeroedOne(b, VisitAt(b, offset));
  }

  /** The chunk at offset, when the walk passes it: what it was, and what erasing it leaves. */
  lemma FirstVisit(b: bytes, offset: nat)
    requires !CannotRead(b, offset) && U32(b, offset + 4, false) != Some(PNG_IEND)
    ensures var x := VisitAt(b, offset);
            && x.offset == offset && IsVisit(b, x)
            && (x.Plain? <==> U32(b, offset + 4, false) != Some(EXIF_PNG_TAG))
            && (x.Plain? ==> Zeroed(b, [x]) == b)
            && (!x.Plain? ==> ExifStripped(b, offset + 8) == (Removed(x.Gps?), Zeroed(b, [x])))
  {
    if U32(b, offset + 4, false) == Some(EXIF_PNG_TAG) {
      ExifOutcome(b, offset);
      ExifVisit(b, offset);
      ExifErases(b, offset);
    } else {
      ZeroedOne(b, Plain(offset));
    }
  }

  function VisitAt(b: bytes, offset: nat): Visit {
    var e := ChunkExif(b, offset);
    if U32(b, offset + 4, false) != Some(EXIF_PNG_TAG) || !e.Directory? then Plain(offset)
    else match Locate(b, e.ifd, e.le)
      case Found(v) =>
        (match U16(b, v + e.base, e.le)
         case Some(n) => Gps(offset, v, n)
         case None => NoGps(offset))
      case _ => NoGps(offset)
  }

  lemma FlagThen(x: Visit, removed: bool, visits: seq<Visit>)
    ensures Reported(removed, [x] + visits) <==> Reported(if x.Plain? then removed else x.Gps?, visits)
  {
    var all := [x] + visits;
    LastThen(x, visits);
    assert (forall y | y in all :: y.Plain?) <==> x.Plain? && forall y | y in visits :: y.Plain? by {
      assert x in all && forall y | y in visits :: y in all;
    }
    assert (forall y | y in visits :: y.Plain?) <==> forall j | 0 < j < |all| :: all[j].Plain? by {
      assert forall j | 0 < j < |all| :: all[j] == visits[j - 1];
      assert forall j | 0 <= j < |visits| :: all[j + 1] == visits[j];
    }
  }

  lemma WalkThen(b: bytes, x: Visit, visits: seq<Visit>)
    requires IsVisit(b, x) && IsWalk(Zeroed(b, [x]), NextOffset(b, x), visits)
    ensures IsWalk(b, x.offset, [x] + visits)
    ensures WalkEnd(b, x.offset, [x] + visits) == WalkEnd(Zeroed(b, [x]), NextOffset(b, x), visits)
  {
    var all := [x] + visits;
    assert all[0] == x && all[1..] == visits;
  }

  /** A walk that starts one chunk earlier. */
  lemma OutcomeThen(b: bytes, x: Visit, removed: bool, visits: seq<Visit>, result: (Outcome, bytes))
    requires IsVisit(b, x)
    requires var now := if x.Plain? then removed else x.Gps?;
             WalkOutcome(Zeroed(b, [x]), NextOffset(b, x), now, visits, result)
    ensures WalkOutcome(b, x.offset, removed, [x] + visits, result)
  {
    WalkThen(b, x, visits);
    FlagThen(x, removed, visits);
    ZeroedThen(b, x, visits);
  }

  lemma PassChunk(b: bytes, offset: nat, removed: bool)
    requires !CannotRead(b, offset) && U32(b, offset + 4, false) != Some(PNG_IEND)
    ensures var x := VisitAt(b, offset);
            PngWalk(b, offset, removed)
            == PngWalk(Zeroed(b, [x]), NextOffset(b, x), if x.Plain? then removed else x.Gps?)
  {
    FirstVisit(b, offset);
  }

  lemma {:induction false} WalkErases(b: bytes, offset: nat, removed: bool)
    ensures exists visits :: WalkOutcome(b, offset, removed, visits, PngWalk(b, offset, removed))
    decreases |b| - offset
  {
    if CannotRead(b, offset) || U32(b, offset + 4, false) == Some(PNG_IEND) {
      ZeroedNone(b);
      assert WalkOutcome(b, offset, removed, [], PngWalk(b, offset, removed));
    } else {
      FirstVisit(b, offset);
      PassChunk(b, offset, removed);
      var x := VisitAt(b, offset);
      var now := if x.Plain? then removed else x.Gps?;
      var after, next := Zeroed(b, [x]), NextOffset(b, x);
      WalkErases(after, next, now);
      var visits :| WalkOutcome(after, next, now, visits, PngWalk(after, next, now));
      OutcomeThen(b, x, removed, visits, PngWalk(after, next, now));
    }
  }

  lemma VisitPasses(b: bytes, x: Visit)
    requires IsVisit(b, x)
    ensures !Stops(b, x.offset)
  {
    if !x.Plain? {
      var e := ChunkExif(b, x.offset);
      assert ExifStripped(b, x.offset + 8) == Stripped(b, e.ifd, e.base, e.le);
    }
  }

  lemma SameVisit(b: bytes, x: Visit, y: Visit)
    requires IsVisit(b, x) && IsVisit(b, y) && x.offset == y.offset
    ensures x == y
  {
  }

  lemma FullWalkTail(b: bytes, offset: nat, visits: seq<Visit>)
    requires IsFullWalk(b, offset, visits) && visits != []
    ensures IsFullWalk(Zeroed(b, [visits[0]]), NextOffset(b, visits[0]), visits[1..])
  {
    ZeroedThen(b, visits[0], visits[1..]);
    assert [visits[0]] + visits[1..] == visits;
  }

  lemma EmptyFullWalk(b: bytes, offset: nat, visits: seq<Visit>)
    requires IsFullWalk(b, offset, []) && IsWalk(b, offset, visits)
    ensures visits == []
  {
    ZeroedNone(b);
    if visits != [] {
      VisitPasses(b, visits[0]);
    }
  }

  /** The bytes determine the walk. */
  lemma {:induction false} FullWalkUnique(b: bytes, offset: nat, v: seq<Visit>, w: seq<Visit>)
    requires IsFullWalk(b, offset, v) && IsFullWalk(b, offset, w)
    ensures v == w
    decreases |v|
  {
    if v == [] {
      EmptyFullWalk(b, offset, w);
    } else if w == [] {
      EmptyFullWalk(b, offset, v);
    } else {
      SameVisit(b, v[0], w[0]);
      FullWalkTail(b, offset, v);
      FullWalkTail(b, offset, w);
      FullWalkUnique(Zeroed(b, [v[0]]), NextOffset(b, v[0]), v[1..], w[1..]);
    }
  }

  /** In a PNG file the length stays, and exactly the entries of the directories that the eXIf chunks
      before IEND name become zero. The flag returned speaks of the last eXIf chunk alone. There is
      one such list of chunks. */
  lemma PngErasesExactly(b: bytes)
    requires U32(b, 0, false) == Some(PNG_TAG)
    ensures exists visits :: IsFullWalk(b, 8, visits)
    ensures forall visits | IsFullWalk(b, 8, visits) :: WalkOutcome(b, 8, false, visits, GpsRemoved(b))
  {
    WalkErases(b, 8, false);
    assert GpsRemoved(b) == PngWalk(b, 8, false);
    var visits :| WalkOutcome(b, 8, false, visits, GpsRemoved(b));
    assert IsFullWalk(b, 8, visits);
    forall other | IsFullWalk(b, 8, other) ensures other == visits {
      FullWalkUnique(b, 8, other, visits);
    }
  }

  // ---- what reaches the file ----

  /** A file given by its path is written back only when removal is reported. */
  function SavedFile(b: bytes): bytes {
    if GpsRemoved(b).0 == Removed(true) then GpsRemoved(b).1 else b
  }

  /** The entries of the directories named on the walk hold nothing but zeros. */
  ghost predicate NothingToErase(b: bytes, visits: seq<Visit>) {
    forall x, k: nat | x in visits && k < |b| && Covers(x, k) :: b[k] == 0
  }

  /** The walk ends at IEND, with all the chunks before it read. */
  ghost predicate ReachesEnd(b: bytes, visits: seq<Visit>)
    requires IsWalk(b, 8, visits)
  {
    !CannotRead(Zeroed(b, visits), WalkEnd(b, 8, visits))
  }

  lemma ErasesNothing(b: bytes, visits: seq<Visit>)
    ensures Zeroed(b, visits) == b <==> NothingToErase(b, visits)
  {
    var after := Zeroed(b, visits);
    if NothingToErase(b, visits) {
      assert after == b;
    }
    if after == b {
      forall x, k: nat | x in visits && k < |b| && Covers(x, k) ensures b[k] == 0 {
        assert after[k] == 0;
      }
    }
  }

  /** The GPS data erased in the buffer of a PNG file are erased in the file exactly when there were
      none, or the walk ended at IEND and the last eXIf chunk had a GPS pointer. */
  lemma PngSavedIff(b: bytes, visits: seq<Visit>)
    requires U32(b, 0, false) == Some(PNG_TAG) && IsFullWalk(b, 8, visits)
    ensures SavedFile(b) == Zeroed(b, visits) <==>
            NothingToErase(b, visits) || (ReachesEnd(b, visits) && LastExifHasGps(visits))
  {
    PngErasesExactly(b);
    ErasesNothing(b, visits);
    assert WalkOutcome(b, 8, false, visits, GpsRemoved(b));
    assert Reported(false, visits) <==> LastExifHasGps(visits);
  }

  /** In the other formats everything that is erased is saved. */
  lemma OtherFormatsSave(b: bytes)
    requires U32(b, 0, false) != Some(PNG_TAG)
    ensures SavedFile(b) == GpsRemoved(b).1
  {
    ErasesExactly(b);
  }

  // ---- files that keep their GPS data ----

  /** A PNG file of 86 bytes: an eXIf chunk at 8 whose GPS directory at 38 has one entry at 40, an
      eXIf chunk at 56 with an empty directory, and IEND at 78. */
  function TwoExifByte(k: nat): byte {
    match k
    case 0 => 0x89 case 1 => 0x50 case 2 => 0x4e case 3 => 0x47
    case 11 => 36 case 12 => 0x65 case 13 => 0x58 case 14 => 0x49 case 15 => 0x66
    case 25 => 1 case 26 => 0x88 case 27 => 0x25 case 29 => 4 case 33 => 1 case 37 => 22
    case 39 => 1 case 40 => 7
    case 59 => 10 case 60 => 0x65 case 61 => 0x58 case 62 => 0x49 case 63 => 0x66
    case 82 => 0x49 case 83 => 0x45 case 84 => 0x4e case 85 => 0x44
    case _ => 0
  }

  /** The first bytes of that file, with the whole first chunk. */
  ghost predicate BeginsLikeTwoExif(b: bytes) {
    56 <= |b| <= 86 && forall k | 0 <= k < |b| :: b[k] == TwoExifByte(k)
  }

  const FIRST := Gps(8, 22, 1)
  const SECOND := NoGps(56)

  lemma FirstVisited(b: bytes)
    requires BeginsLikeTwoExif(b)
    ensures U32(b, 0, false) == Some(PNG_TAG) && IsVisit(b, FIRST) && NextOffset(b, FIRST) == 56
    ensures Zeroed(b, [FIRST]) == ZeroRange(b, 40, 12)
  {
    assert U16(b, 24, false) == Some(1) && U16(b, 38, false) == Some(1);
    assert IsGpsEntry(b, 24, 0, false) && U32(b, 34, false) == Some(22);
    assert Locate(b, 24, false) == Found(22);
    ZeroedOne(b, FIRST);
  }

  lemma SecondVisited(b: bytes)
    requires BeginsLikeTwoExif(b) && |b| == 86
    ensures var after := ZeroRange(b, 40, 12); IsVisit(after, SECOND) && NextOffset(after, SECOND) == 78
  {
    assert U16(ZeroRange(b, 40, 12), 72, false) == Some(0);
  }

  lemma EndVisited(b: bytes)
    requires BeginsLikeTwoExif(b) && |b| == 86
    ensures U32(ZeroRange(b, 40, 12), 78, false).Some? && U32(ZeroRange(b, 40, 12), 82, false) == Some(PNG_IEND)
  {
  }

  /** A walk of two chunks, step by step. */
  lemma WalkOfTwo(b: bytes, x: Visit, y: Visit)
    requires IsVisit(b, x) && IsVisit(Zeroed(b, [x]), y) && y.offset == NextOffset(b, x) && !y.Gps?
    requires Stops(Zeroed(b, [x]), NextOffset(Zeroed(b, [x]), y))
    ensures IsFullWalk(b, x.offset, [x, y])
    ensures Zeroed(b, [x, y]) == Zeroed(b, [x])
    ensures WalkEnd(b, x.offset, [x, y]) == NextOffset(Zeroed(b, [x]), y)
  {
    var after := Zeroed(b, [x]);
    ZeroedOne(after, y);
    ZeroedNone(after);
    assert [y][1..] == [];
    WalkOfOne(after, y);
    WalkThen(b, x, [y]);
    ZeroedThen(b, x, [y]);
    assert [x] + [y] == [x, y];
  }

  lemma WalkOfOne(b: bytes, x: Visit)
    requires IsVisit(b, x) && Stops(Zeroed(b, [x]), NextOffset(b, x))
    ensures IsFullWalk(b, x.offset, [x])
  {
    assert [x][1..] == [];
  }

  /** A PNG file with these chunks, whose GPS data are erased in memory only. */
  ghost predicate Unsaved(b: bytes, visits: seq<Visit>) {
    U32(b, 0, false) == Some(PNG_TAG) && IsFullWalk(b, 8, visits) && SavedFile(b) != Zeroed(b, visits)
  }

  lemma TwoChunks(b: bytes)
    requires BeginsLikeTwoExif(b) && |b| == 86
    ensures Unsaved(b, [FIRST, SECOND]) && ReachesEnd(b, [FIRST, SECOND])
  {
    FirstVisited(b);
    SecondVisited(b);
    EndVisited(b);
    WalkOfTwo(b, FIRST, SECOND);
    EntryRemains(b, [FIRST, SECOND]);
    PngSavedIff(b, [FIRST, SECOND]);
  }

  lemma OneChunk(b: bytes)
    requires BeginsLikeTwoExif(b) && |b| == 56
    ensures Unsaved(b, [FIRST]) && GpsRemoved(b).0 == Threw
  {
    FirstVisited(b);
    WalkOfOne(b, FIRST);
    EntryRemains(b, [FIRST]);
    assert CannotRead(Zeroed(b, [FIRST]), 56);
    PngSavedIff(b, [FIRST]);
    PngErasesExactly(b);
  }

  /** The file with both chunks keeps its GPS entry though the walk reaches IEND. */
  lemma EarlierErasureUnreported()
    ensures exists b: bytes :: Unsaved(b, [FIRST, SECOND]) && ReachesEnd(b, [FIRST, SECOND])
  {
    TwoChunks(seq(86, k requires 0 <= k < 86 => TwoExifByte(k)));
  }

  /** So does the file that ends after its first chunk, though its last eXIf chunk has a GPS pointer:
      reading on for IEND throws. */
  lemma ErasedThenThrown()
    ensures LastExifHasGps([FIRST])
    ensures exists b: bytes :: Unsaved(b, [FIRST]) && GpsRemoved(b).0 == Threw
  {
    OneChunk(seq(56, k requires 0 <= k < 56 => TwoExifByte(k)));
    assert LastExifAt([FIRST], 0);
  }

  lemma EntryRemains(b: bytes, visits: seq<Visit>)
    requires BeginsLikeTwoExif(b) && FIRST in visits
    ensures !NothingToErase(b, visits)
  {
    assert Covers(FIRST, 40) && b[40] == 7;
  }

  // ---- erasing twice ----

  ghost predicate SameBytes(b: bytes, c: bytes, from: nat, to: nat) {
    |b| == |c| && forall k | from <= k < to && k < |b| :: b[k] == c[k]
  }

  /** The entry that the search from entry i finds. */
  function GpsIndex(b: bytes, ifd: nat, n: nat, le: bool, i: nat): nat
    decreases n - i
  {
    if i >= n || !Readable(b, ifd, i) || IsGpsEntry(b, ifd, i, le) then i else GpsIndex(b, ifd, n, le, i + 1)
  }

  lemma {:induction false} IndexGrows(b: bytes, ifd: nat, n: nat, le: bool, i: nat)
    ensures GpsIndex(b, ifd, n, le, i) >= i
    decreases n - i
  {
    if !(i >= n || !Readable(b, ifd, i) || IsGpsEntry(b, ifd, i, le)) {
      IndexGrows(b, ifd, n, le, i + 1);
    }
  }

  /** Where the search from entry i stops reading. */
  function SearchStop(b: bytes, ifd: nat, n: nat, le: bool, i: nat): nat {
    var last := GpsIndex(b, ifd, n, le, i);
    EntryAt(ifd, if last < n then last + 1 else n)
  }

  /** Where the search for the GPS pointer of the directory at ifd stops reading. */
  function DirectoryStop(b: bytes, ifd: nat, le: bool): nat {
    SearchStop(b, ifd, if U16(b, ifd, le).Some? then U16(b, ifd, le).value else 0, le, 0)
  }

  lemma {:induction false} SameSearch(b: bytes, c: bytes, ifd: nat, n: nat, le: bool, i: nat)
    requires SameBytes(b, c, ifd, SearchStop(b, ifd, n, le, i))
    ensures LocateFrom(c, ifd, n, le, i) == LocateFrom(b, ifd, n, le, i)
    decreases n - i
  {
    IndexGrows(b, ifd, n, le, i);
    if i < n && Readable(b, ifd, i) && !IsGpsEntry(b, ifd, i, le) {
      SameSearch(b, c, ifd, n, le, i + 1);
    }
  }

  lemma SameLocate(b: bytes, c: bytes, ifd: nat, le: bool)
    requires SameBytes(b, c, ifd, DirectoryStop(b, ifd, le))
    ensures Locate(c, ifd, le) == Locate(b, ifd, le)
  {
    if U16(b, ifd, le).Some? {
      IndexGrows(b, ifd, U16(b, ifd, le).value, le, 0);
      SameSearch(b, c, ifd, U16(b, ifd, le).value, le, 0);
    }
  }

  /** The header bytes decide where the Exif directory is. */
  lemma SameExif(b: bytes, c: bytes)
    requires ExifOf(b).Directory? && SameBytes(b, c, 0, ExifOf(b).header)
    ensures U32(c, 0, false) == U32(b, 0, false) && ExifOf(c) == ExifOf(b)
  {
    var header := ExifOf(b).header;
    forall o: nat, le: bool | o + 4 <= header ensures U32(c, o, le) == U32(b, o, le) {
    }
    forall o: nat, le: bool | o + 2 <= header ensures U16(c, o, le) == U16(b, o, le) {
    }
  }

  /** The erased entries overlap neither the header nor the Exif directory up to its GPS pointer. */
  ghost predicate Apart(b: bytes, e: Exif, v: nat, n: nat)
    requires e.Directory?
  {
    var from, count := e.base + v + 2, 12 * n;
    && (from >= e.header || count == 0)
    && (from >= DirectoryStop(b, e.ifd, e.le) || from + count <= e.ifd || count == 0)
  }

  lemma ErasedTwice(b: bytes, dir: nat, le: bool, n: nat)
    requires U16(b, dir, le) == Some(n)
    ensures var z := ZeroRange(b, dir + 2, 12 * n); Erased(z, dir, le) == (Removed(true), z)
  {
    var z := ZeroRange(b, dir + 2, 12 * n);
    assert U16(z, dir, le) == U16(b, dir, le);
    assert ZeroRange(z, dir + 2, 12 * n) == z;
  }

  /** In a JPEG or TIFF file: when the erased entries overlap nothing that was read to find them,
      erasing again changes nothing. */
  lemma ErasingTwice(b: bytes, v: nat, n: nat)
    requires U32(b, 0, false) != Some(PNG_TAG)
    requires ExifOf(b).Directory? && IsDirectory(b, ExifOf(b), v, n) && Apart(b, ExifOf(b), v, n)
    ensures var after := GpsRemoved(b).1; GpsRemoved(after) == (Removed(true), after)
  {
    var e := ExifOf(b);
    var after := ZeroRange(b, v + e.base + 2, 12 * n);
    assert GpsRemoved(b) == (Removed(true), after);
    SameExif(b, after);
    SameDirectory(b, after, e, v, n);
    ErasedTwice(b, v + e.base, e.le, n);
  }

  lemma SameDirectory(b: bytes, after: bytes, e: Exif, v: nat, n: nat)
    requires e.Directory? && IsDirectory(b, e, v, n) && Apart(b, e, v, n)
    requires after == ZeroRange(b, v + e.base + 2, 12 * n)
    ensures Locate(after, e.ifd, e.le) == Locate(b, e.ifd, e.le)
  {
    SameLocate(b, after, e.ifd, e.le);
  }

  /** The bytes read to pass chunk x of a PNG file. */
  ghost predicate Reads(b: bytes, x: Visit, k: nat) {
    || x.offset <= k < x.offset + 8
    || (!x.Plain? && ChunkExif(b, x.offset).Directory?
        && (x.offset + 8 <= k < x.offset + 12
            || x.offset + 16 <= k < DirectoryStop(b, x.offset + 16, ChunkExif(b, x.offset).le)))
    || (x.Gps? && x.offset + 8 + x.v <= k < x.offset + 8 + x.v + 2)
  }

  lemma VisitStays(b: bytes, c: bytes, x: Visit)
    requires |b| == |c| && forall k: nat | k < |b| && Reads(b, x, k) :: c[k] == b[k]
    ensures IsVisit(c, x) <==> IsVisit(b, x)
    ensures U32(c, x.offset, false) == U32(b, x.offset, false)
  {
    HeaderStays(b, c, x);
    if !x.Plain? && ChunkExif(b, x.offset).Directory? {
      DirectoryStays(b, c, x);
    }
  }

  lemma HeaderStays(b: bytes, c: bytes, x: Visit)
    requires |b| == |c| && forall k: nat | k < |b| && Reads(b, x, k) :: c[k] == b[k]
    ensures U32(c, x.offset, false) == U32(b, x.offset, false)
    ensures U32(c, x.offset + 4, false) == U32(b, x.offset + 4, false)
    ensures ChunkExif(b, x.offset).Directory? <==> ChunkExif(c, x.offset).Directory?
  {
    assert forall k: nat | x.offset <= k < x.offset + 8 :: Reads(b, x, k);
  }

  lemma DirectoryStays(b: bytes, c: bytes, x: Visit)
    requires |b| == |c| && forall k: nat | k < |b| && Reads(b, x, k) :: c[k] == b[k]
    requires !x.Plain? && ChunkExif(b, x.offset).Directory?
    ensures ChunkExif(c, x.offset) == ChunkExif(b, x.offset)
    ensures var e := ChunkExif(b, x.offset); Locate(c, e.ifd, e.le) == Locate(b, e.ifd, e.le)
    ensures var e := ChunkExif(b, x.offset); x.Gps? ==> U16(c, x.v + e.base, e.le) == U16(b, x.v + e.base, e.le)
  {
    var e := ChunkExif(b, x.offset);
    assert forall k: nat | x.offset + 8 <= k < x.offset + 12 :: Reads(b, x, k);
    assert forall k: nat | e.ifd <= k < DirectoryStop(b, e.ifd, e.le) :: Reads(b, x, k);
    SameLocate(b, c, e.ifd, e.le);
    if x.Gps? {
      assert forall k: nat | x.v + e.base <= k < x.v + e.base + 2 :: Reads(b, x, k);
    }
  }

  ghost predicate InErased(visits: seq<Visit>, k: nat) {
    exists x | x in visits :: Covers(x, k)
  }

  /** No chunk's reading touches an entry erased for any of them. */
  ghost predicate AllApart(b: bytes, visits: seq<Visit>, all: seq<Visit>) {
    forall x, k: nat | x in visits && Reads(b, x, k) :: !InErased(all, k)
  }

  ghost predicate SameOutside(b: bytes, c: bytes, all: seq<Visit>) {
    |b| == |c| && forall k: nat | k < |b| && !InErased(all, k) :: c[k] == b[k]
  }

  /** A walk over b with some of the entries erased is one over b with all of them erased. */
  lemma {:induction false} WalkStays(b: bytes, c: bytes, offset: nat, visits: seq<Visit>, all: seq<Visit>)
    requires IsWalk(c, offset, visits) && SameOutside(b, c, all)
    requires AllApart(b, visits, all) && forall x | x in visits :: x in all
    ensures IsWalk(Zeroed(b, all), offset, visits)
    ensures WalkEnd(Zeroed(b, all), offset, visits) == WalkEnd(c, offset, visits)
    decreases |visits|
  {
    if visits != [] {
      var x, after := visits[0], Zeroed(b, all);
      VisitStays(b, c, x);
      VisitStays(b, after, x);
      ZeroedAgain(b, x, all);
      WalkStays(b, Zeroed(c, [x]), NextOffset(c, x), visits[1..], all);
    }
  }

  lemma ZeroedAgain(b: bytes, x: Visit, all: seq<Visit>)
    requires x in all
    ensures Zeroed(Zeroed(b, all), [x]) == Zeroed(b, all)
  {
  }

  lemma ZeroedTwice(b: bytes, visits: seq<Visit>)
    ensures Zeroed(Zeroed(b, visits), visits) == Zeroed(b, visits)
    ensures U32(Zeroed(b, visits), 0, false) == U32(b, 0, false)
  {
  }

  /** The chunks passed and the final bytes determine the outcome. */
  lemma SameOutcome(b: bytes, c: bytes, visits: seq<Visit>, r: (Outcome, bytes), q: (Outcome, bytes))
    requires WalkOutcome(b, 8, false, visits, r) && WalkOutcome(c, 8, false, visits, q)
    requires Zeroed(b, visits) == Zeroed(c, visits) && WalkEnd(b, 8, visits) == WalkEnd(c, 8, visits)
    ensures r == q
  {
  }

  /** In a PNG file: when the erased entries overlap nothing that was read on the walk, erasing again
      changes nothing and has the same outcome. */
  lemma PngErasingTwice(b: bytes, visits: seq<Visit>)
    requires U32(b, 0, false) == Some(PNG_TAG) && IsFullWalk(b, 8, visits) && AllApart(b, visits, visits)
    ensures var (r, after) := GpsRemoved(b); GpsRemoved(after) == (r, after)
  {
    var after := Zeroed(b, visits);
    WalkStays(b, b, 8, visits, visits);
    ZeroedTwice(b, visits);
    PngErasesExactly(b);
    PngErasesExactly(after);
    SameOutcome(b, after, visits, GpsRemoved(b), GpsRemoved(after));
  }

  // ---- TIFF and JPEG files, in bytes ----

  ghost predicate BytesAt(b: bytes, o: nat, w: bytes) {
    o + |w| <= |b| && forall k | 0 <= k < |w| :: b[o + k] == w[k]
  }

  /** Two bytes in the order of the file. */
  function Two(n: nat, le: bool): bytes
    requires n < 0x1_0000
  {
    if le then [n % 256, n / 256] else [n / 256, n % 256]
  }

  function Four(n: nat, le: bool): bytes
    requires n < 0x1_0000_0000
  {
    if le then Two(n % 0x1_0000, le) + Two(n / 0x1_0000, le) else Two(n / 0x1_0000, le) + Two(n % 0x1_0000, le)
  }

  lemma TwoRead(b: bytes, o: nat, n: nat, le: bool)
    requires n < 0x1_0000 && BytesAt(b, o, Two(n, le))
    ensures U16(b, o, le) == Some(n)
  {
    var w := Two(n, le);
    assert b[o] == w[0] && b[o + 1] == w[1];
  }

  lemma FourRead(b: bytes, o: nat, n: nat, le: bool)
    requires n < 0x1_0000_0000 && BytesAt(b, o, Four(n, le))
    ensures U32(b, o, le) == Some(n)
  {
    var w := Four(n, le);
    assert b[o] == w[0] && b[o + 1] == w[1] && b[o + 2] == w[2] && b[o + 3] == w[3];
    assert n == (n / 0x1_0000) * 0x1_0000 + n % 0x1_0000;
  }

  /** A directory at ifd whose first entry is a GPS pointer that holds v: tag 8825, type 4, count 1. */
  ghost predicate PointsTo(b: bytes, ifd: nat, entries: nat, v: nat, le: bool)
    requires entries < 0x1_0000 && v < 0x1_0000_0000
  {
    && BytesAt(b, ifd, Two(entries, le)) && BytesAt(b, ifd + 2, Two(0x8825, le)) && BytesAt(b, ifd + 4, Two(4, le))
    && BytesAt(b, ifd + 6, Four(1, le)) && BytesAt(b, ifd + 10, Four(v, le))
  }

  lemma PointerFound(b: bytes, ifd: nat, entries: nat, v: nat, le: bool)
    requires 0 < entries < 0x1_0000 && v < 0x1_0000_0000 && PointsTo(b, ifd, entries, v, le)
    ensures Locate(b, ifd, le) == Found(v)
  {
    TwoRead(b, ifd, entries, le);
    TwoRead(b, ifd + 2, 0x8825, le);
    TwoRead(b, ifd + 4, 4, le);
    FourRead(b, ifd + 6, 1, le);
    FourRead(b, ifd + 10, v, le);
    assert IsGpsEntry(b, ifd, 0, le);
  }

  /** The first GPS pointer of a TIFF file in either byte order: the n entries at v + 2 become zero and
      nothing else changes. */
  lemma TiffErased(b: bytes, le: bool, ifd: nat, entries: nat, v: nat, n: nat)
    requires 0 < entries < 0x1_0000 && ifd < 0x1_0000_0000 && v < 0x1_0000_0000 && n < 0x1_0000
    requires BytesAt(b, 0, if le then [0x49, 0x49, 0x2A, 0x00] else [0x4D, 0x4D, 0x00, 0x2A])
    requires BytesAt(b, 4, Four(ifd, le)) && PointsTo(b, ifd, entries, v, le) && BytesAt(b, v, Two(n, le))
    ensures GpsRemoved(b).0 == Removed(true) && IsErased(b, v + 2, 12 * n, GpsRemoved(b).1)
  {
    HeaderRead(b, 0, le);
    FourRead(b, 4, ifd, le);
    PointerFound(b, ifd, entries, v, le);
    TwoRead(b, v, n, le);
    assert ExifOf(b) == Directory(ifd, 0, le, 8);
  }

  lemma HeaderRead(b: bytes, o: nat, le: bool)
    requires BytesAt(b, o, if le then [0x49, 0x49, 0x2A, 0x00] else [0x4D, 0x4D, 0x00, 0x2A])
    ensures U32(b, o, false) == Some(if le then TIFF_LE else TIFF_BE)
  {
    var w: bytes := if le then [0x49, 0x49, 0x2A, 0x00] else [0x4D, 0x4D, 0x00, 0x2A];
    assert b[o] == w[0] && b[o + 1] == w[1] && b[o + 2] == w[2] && b[o + 3] == w[3];
  }

  /** The Exif block at t of a JPEG file: a TIFF header, and the directory right behind it. */
  ghost predicate ExifAt(b: bytes, t: nat, le: bool, entries: nat, v: nat, n: nat)
    requires 0 < entries < 0x1_0000 && v < 0x1_0000_0000 && n < 0x1_0000
  {
    && BytesAt(b, t, if le then [0x49, 0x49, 0x2A, 0x00] else [0x4D, 0x4D, 0x00, 0x2A])
    && PointsTo(b, t + 8, entries, v, le) && BytesAt(b, t + v, Two(n, le))
  }

  /** A JPEG file whose Exif segment is named at offset o: the segment is the first one, or the file
      begins with a JFIF segment of the given size that ends right before it. */
  ghost predicate IsJpeg(b: bytes, jfif: bool, size: nat, o: nat)
    requires size < 0x1_0000
  {
    && BytesAt(b, 0, [0xFF, 0xD8, 0xFF, if jfif then 0xE0 else 0xE1])
    && o == (if jfif then 6 + size else 4)
    && (jfif ==> BytesAt(b, 4, Two(size, false)) && BytesAt(b, 4 + size, [0xFF, 0xE1]))
    && BytesAt(b, o + 2, [0x45, 0x78, 0x69, 0x66])
  }

  /** Its offsets are counted from the TIFF header at o + 8: the n entries of the directory that the
      first GPS pointer names become zero, and nothing else changes. */
  lemma JpegErased(b: bytes, jfif: bool, size: nat, o: nat, le: bool, entries: nat, v: nat, n: nat)
    requires 0 < entries < 0x1_0000 && v < 0x1_0000_0000 && n < 0x1_0000 && size < 0x1_0000
    requires IsJpeg(b, jfif, size, o) && ExifAt(b, o + 8, le, entries, v, n)
    ensures GpsRemoved(b).0 == Removed(true) && IsErased(b, o + 8 + v + 2, 12 * n, GpsRemoved(b).1)
  {
    JpegLocated(b, jfif, size, o, le);
    ExifFound(b, o + 8, le, entries, v, n);
    LocatedErased(b, v, n);
  }

  lemma ExifFound(b: bytes, t: nat, le: bool, entries: nat, v: nat, n: nat)
    requires 0 < entries < 0x1_0000 && v < 0x1_0000_0000 && n < 0x1_0000 && ExifAt(b, t, le, entries, v, n)
    ensures Locate(b, t + 8, le) == Found(v) && U16(b, v + t, le) == Some(n)
  {
    PointerFound(b, t + 8, entries, v, le);
    TwoRead(b, t + v, n, le);
  }

  lemma LocatedErased(b: bytes, v: nat, n: nat)
    requires U32(b, 0, false) != Some(PNG_TAG) && ExifOf(b).Directory? && IsDirectory(b, ExifOf(b), v, n)
    ensures GpsRemoved(b).0 == Removed(true) && IsErased(b, ExifOf(b).base + v + 2, 12 * n, GpsRemoved(b).1)
  {
  }

  lemma JpegLocated(b: bytes, jfif: bool, size: nat, o: nat, le: bool)
    requires size < 0x1_0000 && IsJpeg(b, jfif, size, o)
    requires BytesAt(b, o + 8, if le then [0x49, 0x49, 0x2A, 0x00] else [0x4D, 0x4D, 0x00, 0x2A])
    ensures ExifOf(b) == Directory(o + 16, o + 8, le, o + 12) && U32(b, 0, false) != Some(PNG_TAG)
  {
    HeaderRead(b, o + 8, le);
    NameRead(b, o + 2);
    SignatureRead(b, jfif);
    if jfif {
      TwoRead(b, 4, size, false);
      MarkerRead(b, 4 + size);
    }
  }

  lemma MarkerRead(b: bytes, o: nat)
    requires BytesAt(b, o, [0xFF, 0xE1])
    ensures U16(b, o, false) == Some(JPEG_APP1_TAG)
  {
    var w: bytes := [0xFF, 0xE1];
    assert b[o] == w[0] && b[o + 1] == w[1];
  }

  lemma NameRead(b: bytes, o: nat)
    requires BytesAt(b, o, [0x45, 0x78, 0x69, 0x66])
    ensures U32(b, o, false) == Some(EXIF_JPEG_TAG)
  {
    var w: bytes := [0x45, 0x78, 0x69, 0x66];
    assert b[o] == w[0] && b[o + 1] == w[1] && b[o + 2] == w[2] && b[o + 3] == w[3];
  }

  lemma SignatureRead(b: bytes, jfif: bool)
    requires BytesAt(b, 0, [0xFF, 0xD8, 0xFF, if jfif then 0xE0 else 0xE1])
    ensures U32(b, 0, false) == Some(if jfif then JPEG_JFIF_TAG else JPEG_EXIF_TAG)
  {
    var w: bytes := [0xFF, 0xD8, 0xFF, if jfif then 0xE0 else 0xE1];
    assert b[0] == w[0] && b[1] == w[1] && b[2] == w[2] && b[3] == w[3];
  }
}
