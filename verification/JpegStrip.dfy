/** Dropping the Exif segments of a JPEG (ITU-T T.81, section B.1.1): the marker walk, against
    a grammar of the bytes before the scan. */
module JpegStrip {
  import opened Bytes
  import opened Sequences

  const PREFIX: byte := 0xFF
  const SOI: byte := 0xD8
  const EOI: byte := 0xD9
  const SOS: byte := 0xDA
  const APP1: byte := 0xE1
  const TEM: byte := 0x01
  const RST0: byte := 0xD0
  const RST7: byte := 0xD7
  const EXIF: bytes := [0x45, 0x78, 0x69, 0x66, 0, 0]
  const START: bytes := [0xFF, 0xD8]

  predicate IsStandalone(marker: byte) {
    marker == TEM || RST0 <= marker <= RST7
  }

  predicate EndsWalk(marker: byte) {
    marker == SOS || marker == EOI
  }

  /** A segment body carries its two length bytes followed by the payload. */
  predicate IsExifAPP1(body: bytes) {
    |body| >= 8 && body[2..8] == EXIF
  }

  /** A segment's length field: two bytes, the high one first, counting themselves. */
  function Length(high: byte, low: byte): nat {
    (high as int) * 256 + low as int
  }

  // ---- the grammar ----

  datatype Item =
    | Fill
    | Standalone(marker: byte)
    | Segment(marker: byte, body: bytes)
  {
    /** Bodies are as long as their own first two bytes say, and markers are of their kind. */
    predicate WellFormed() {
      match this
      case Fill => true
      case Standalone(m) => IsStandalone(m)
      case Segment(m, body) =>
        && m != PREFIX && !EndsWalk(m) && !IsStandalone(m)
        && |body| >= 2 && |body| == Length(body[0], body[1])
    }

    predicate IsExif() {
      Segment? && marker == APP1 && IsExifAPP1(body)
    }

    function Bytes(): bytes {
      match this
      case Fill => [PREFIX]
      case Standalone(m) => [PREFIX, m]
      case Segment(m, body) => [PREFIX, m] + body
    }
  }

  function Print(items: seq<Item>): bytes {
    if items == [] then [] else items[0].Bytes() + Print(items[1..])
  }

  function WithoutExif(items: seq<Item>): seq<Item> {
    if items == [] then []
    else (if items[0].IsExif() then [] else [items[0]]) + WithoutExif(items[1..])
  }

  /** How many bytes the Exif segments take. */
  function ExifLength(items: seq<Item>): nat {
    if items == [] then 0
    else (if items[0].IsExif() then |items[0].Bytes()| else 0) + ExifLength(items[1..])
  }

  /** The outcome of reading the bytes after the start marker: malformed, or items followed by
      what the walk does not look into. scan says that the rest starts with SOS or EOI. */
  datatype Parsed = Malformed | Parsed(items: seq<Item>, rest: bytes, scan: bool) {
    function Prepend(i: Item): Parsed {
      if Malformed? then this else this.(items := [i] + items)
    }
  }

  /** A run of fill bytes must be followed by a marker; afterFill says we are inside one. */
  function Parse(d: bytes, afterFill: bool): Parsed {
    if |d| < 2 then
      if afterFill then Malformed else Parsed([], d, false)
    else if d[0] != PREFIX then Malformed
    else if d[1] == PREFIX then Parse(d[1..], true).Prepend(Fill)
    else if EndsWalk(d[1]) then Parsed([], d, true)
    else if IsStandalone(d[1]) then Parse(d[2..], false).Prepend(Standalone(d[1]))
    else if |d| < 4 then Malformed
    else
      var len := Length(d[2], d[3]);
      if len < 2 || 2 + len > |d| then Malformed
      else Parse(d[2 + len..], false).Prepend(Segment(d[1], d[2..2 + len]))
  }

  ghost predicate WellFormedAll(items: seq<Item>) {
    forall i | 0 <= i < |items| :: items[i].WellFormed()
  }

  predicate StartsScan(d: bytes) {
    |d| >= 2 && d[0] == PREFIX && EndsWalk(d[1])
  }

  /** p accounts for every byte of d. */
  ghost predicate Accounts(d: bytes, p: Parsed) {
    p.Parsed? ==>
      && d == Print(p.items) + p.rest
      && WellFormedAll(p.items)
      && (p.scan <==> StartsScan(p.rest))
      && (!p.scan ==> |p.rest| < 2)
  }

  lemma AccountsPrepend(i: Item, d: bytes, p: Parsed)
    requires i.WellFormed() && Accounts(d, p)
    ensures Accounts(i.Bytes() + d, p.Prepend(i))
  {
    if p.Parsed? {
      assert i.Bytes() + d == Print([i] + p.items) + p.rest;
    }
  }

  lemma AccountsFill(d: bytes, afterFill: bool)
    requires |d| >= 2 && d[0] == PREFIX && d[1] == PREFIX && Accounts(d[1..], Parse(d[1..], true))
    ensures Accounts(d, Parse(d, afterFill))
  {
    AccountsPrepend(Fill, d[1..], Parse(d[1..], true));
    assert d == Fill.Bytes() + d[1..];
  }

  lemma AccountsStandalone(d: bytes, afterFill: bool)
    requires |d| >= 2 && d[0] == PREFIX && d[1] != PREFIX && !EndsWalk(d[1]) && IsStandalone(d[1])
    requires Accounts(d[2..], Parse(d[2..], false))
    ensures Accounts(d, Parse(d, afterFill))
  {
    AccountsPrepend(Standalone(d[1]), d[2..], Parse(d[2..], false));
    assert d == Standalone(d[1]).Bytes() + d[2..];
  }

  lemma AccountsSegment(d: bytes, afterFill: bool, len: nat)
    requires |d| >= 4 && d[0] == PREFIX && d[1] != PREFIX && !EndsWalk(d[1]) && !IsStandalone(d[1])
    requires len == Length(d[2], d[3]) && len >= 2 && 2 + len <= |d|
             && Accounts(d[2 + len..], Parse(d[2 + len..], false))
    ensures Accounts(d, Parse(d, afterFill))
  {
    AccountsPrepend(Segment(d[1], d[2..2 + len]), d[2 + len..], Parse(d[2 + len..], false));
    SegmentSplits(d, len);
  }

  lemma SegmentSplits(d: bytes, len: nat)
    requires 4 <= 2 + len <= |d| && d[0] == PREFIX
    ensures d == Segment(d[1], d[2..2 + len]).Bytes() + d[2 + len..]
  {
  }

  /** Parsing loses nothing: the items and the rest print back to the input. */
  lemma {:induction false} PrintOfParse(d: bytes, afterFill: bool)
    ensures Accounts(d, Parse(d, afterFill))
    decreases |d|
  {
    if |d| >= 2 && d[0] == PREFIX && !EndsWalk(d[1]) {
      if d[1] == PREFIX {
        PrintOfParse(d[1..], true);
        AccountsFill(d, afterFill);
      } else if IsStandalone(d[1]) {
        PrintOfParse(d[2..], false);
        AccountsStandalone(d, afterFill);
      } else if |d| >= 4 {
        var len := Length(d[2], d[3]);
        if len >= 2 && 2 + len <= |d| {
          PrintOfParse(d[2 + len..], false);
          AccountsSegment(d, afterFill, len);
        }
      }
    } else {
      assert d == [] + d;
    }
  }

  /** The reading of one printed item. Only a fill byte needs to know what follows. */
  lemma ParseItem(i: Item, d: bytes, afterFill: bool)
    requires i.WellFormed() && (i.Fill? ==> d != [] && d[0] == PREFIX)
    ensures Parse(i.Bytes() + d, afterFill) == Parse(d, i.Fill?).Prepend(i)
  {
    var t := i.Bytes() + d;
    match i
    case Fill => assert t[1..] == d;
    case Standalone(m) => assert t[2..] == d;
    case Segment(m, body) =>
      assert t[1] == m && t[2] == body[0] && t[3] == body[1];
      assert t[2..2 + |body|] == body && t[2 + |body|..] == d;
  }

  /** Printing loses nothing either: well-formed items before a scan are read back as they are. */
  lemma {:induction false} ParseOfPrint(items: seq<Item>, rest: bytes, afterFill: bool)
    requires WellFormedAll(items) && StartsScan(rest)
    ensures Parse(Print(items) + rest, afterFill) == Parsed(items, rest, true)
  {
    if items == [] {
      assert Print(items) + rest == rest;
    } else {
      var d := Print(items[1..]) + rest;
      assert Print(items) + rest == items[0].Bytes() + d;
      assert d[0] == PREFIX;
      ParseItem(items[0], d, afterFill);
      ParseOfPrint(items[1..], rest, items[0].Fill?);
    }
  }

  ghost predicate HasExif(items: seq<Item>) {
    exists i :: 0 <= i < |items| && items[i].IsExif()
  }

  /** Without a scan to end it, printed text may be read differently at its end, but never as
      more Exif segments. */
  lemma {:induction false} ReparseFindsNoExif(items: seq<Item>, afterFill: bool)
    requires WellFormedAll(items) && !HasExif(items)
    ensures Parse(Print(items), afterFill).Malformed? || !HasExif(Parse(Print(items), afterFill).items)
  {
    if items != [] {
      var d := Print(items[1..]);
      assert !HasExif(items[1..]) by {
        assert forall i | 0 <= i < |items[1..]| :: items[1..][i] == items[i + 1];
      }
      ReparseFindsNoExif(items[1..], items[0].Fill?);
      if items[0].Fill? && d == [] {
        assert Print(items) == [PREFIX];
      } else {
        ParseItem(items[0], d, afterFill);
      }
    }
  }

  lemma {:induction false} WithoutExifIsClean(items: seq<Item>)
    requires WellFormedAll(items)
    ensures WellFormedAll(WithoutExif(items)) && !HasExif(WithoutExif(items))
  {
    if items != [] {
      WithoutExifIsClean(items[1..]);
    }
  }

  lemma {:induction false} WithoutExifKeeps(items: seq<Item>)
    requires !HasExif(items)
    ensures WithoutExif(items) == items
  {
    if items != [] {
      assert !HasExif(items[1..]) by {
        assert forall i | 0 <= i < |items[1..]| :: items[1..][i] == items[i + 1];
      }
      assert !items[0].IsExif();
      WithoutExifKeeps(items[1..]);
    }
  }

  lemma {:induction false} LengthsAddUp(items: seq<Item>)
    ensures |Print(WithoutExif(items))| + ExifLength(items) == |Print(items)|
    ensures HasExif(items) <==> ExifLength(items) > 0
  {
    if items != [] {
      LengthsAddUp(items[1..]);
      assert WithoutExif(items)
          == if items[0].IsExif() then WithoutExif(items[1..]) else [items[0]] + WithoutExif(items[1..]);
      assert HasExif(items) <==> items[0].IsExif() || HasExif(items[1..]) by {
        assert forall i | 0 <= i < |items[1..]| :: items[1..][i] == items[i + 1];
      }
    }
  }

  // ---- the walk ----

  /** What stripExifAPP1 returns: the rewritten bytes, whether something was dropped, and
      whether the input was understood. */
  datatype Outcome = Outcome(out: bytes, removed: bool, ok: bool)

  const REFUSED := Outcome([], false, false)

  ghost function Strip(data: bytes): Outcome {
    if !(START <= data) then REFUSED
    else
      match Parse(data[2..], false)
      case Malformed => REFUSED
      case Parsed(items, rest, scan) =>
        var kept := START + Print(WithoutExif(items));
        if scan then Outcome(kept + rest, HasExif(items), true)
        else if HasExif(items) then Outcome(kept, true, true)
        else Outcome([], false, true)
  }

  function PrependAll(items: seq<Item>, p: Parsed): Parsed {
    if p.Malformed? then p else p.(items := items + p.items)
  }

  lemma {:induction false} PrintAppend(items: seq<Item>, i: Item)
    ensures Print(items + [i]) == Print(items) + i.Bytes()
  {
    if items == [] {
      assert items + [i] == [i];
    } else {
      PrintAppend(items[1..], i);
      assert items == [items[0]] + items[1..];
      Associates([items[0]], items[1..], [i]);
      Associates(items[0].Bytes(), Print(items[1..]), i.Bytes());
    }
  }

  lemma {:induction false} WithoutExifAppend(items: seq<Item>, i: Item)
    ensures WithoutExif(items + [i]) == WithoutExif(items) + (if i.IsExif() then [] else [i])
  {
    if items == [] {
      assert items + [i] == [i];
    } else {
      WithoutExifAppend(items[1..], i);
      assert (items + [i])[1..] == items[1..] + [i];
    }
  }

  lemma HasExifAppend(items: seq<Item>, i: Item)
    ensures HasExif(items + [i]) <==> HasExif(items) || i.IsExif()
  {
    var all := items + [i];
    assert all[|items|] == i && forall k | 0 <= k < |items| :: all[k] == items[k];
  }

  /** buf holds what the walk kept of items, and removed tells whether it dropped any. */
  ghost predicate Keeps(items: seq<Item>, buf: bytes, removed: bool) {
    buf == START + Print(WithoutExif(items)) && (removed <==> HasExif(items))
  }

  lemma KeepDropped(items: seq<Item>, item: Item, buf: bytes, removed: bool)
    requires Keeps(items, buf, removed) && item.IsExif()
    ensures Keeps(items + [item], buf, true)
  {
    WithoutExifAppend(items, item);
    HasExifAppend(items, item);
    assert WithoutExif(items) + [] == WithoutExif(items);
  }

  lemma KeepCopied(items: seq<Item>, item: Item, buf: bytes, removed: bool)
    requires Keeps(items, buf, removed) && !item.IsExif()
    ensures Keeps(items + [item], buf + item.Bytes(), removed)
  {
    WithoutExifAppend(items, item);
    HasExifAppend(items, item);
    PrintAppend(WithoutExif(items), item);
    var kept, more := Print(WithoutExif(items)), item.Bytes();
    assert START + (kept + more) == START + kept + more;
  }

  /** The result the walk owes once its reading is known. */
  lemma StripIs(data: bytes, items: seq<Item>, p: Parsed, buf: bytes, removed: bool)
    requires START <= data && Parse(data[2..], false) == PrependAll(items, p) && Keeps(items, buf, removed)
    requires p.Parsed? ==> p.items == []
    ensures Strip(data) ==
            if p.Malformed? then REFUSED
            else if p.scan then Outcome(buf + p.rest, removed, true)
            else if removed then Outcome(buf, true, true)
            else Outcome([], false, true)
  {
    assert items + [] == items;
  }

  lemma PrependOne(items: seq<Item>, item: Item, p: Parsed)
    ensures PrependAll(items, p.Prepend(item)) == PrependAll(items + [item], p)
  {
    if p.Parsed? {
      assert items + ([item] + p.items) == items + [item] + p.items;
    }
  }

  /** One step of the reading, in terms of offsets into the whole input. */
  lemma ParseAt(data: bytes, i: nat, afterFill: bool)
    requires i <= |data|
    ensures Parse(data[i..], afterFill) ==
            if i + 1 >= |data| then
              if afterFill then Malformed else Parsed([], data[i..], false)
            else if data[i] != PREFIX then Malformed
            else if data[i + 1] == PREFIX then Parse(data[i + 1..], true).Prepend(Fill)
            else if EndsWalk(data[i + 1]) then Parsed([], data[i..], true)
            else if IsStandalone(data[i + 1]) then Parse(data[i + 2..], false).Prepend(Standalone(data[i + 1]))
            else if i + 3 >= |data| then Malformed
            else
              var len := Length(data[i + 2], data[i + 3]);
              if len < 2 || i + 2 + len > |data| then Malformed
              else Parse(data[i + 2 + len..], false).Prepend(Segment(data[i + 1], data[i + 2..i + 2 + len]))
  {
    var d := data[i..];
    if |d| >= 2 {
      assert d[1..] == data[i + 1..] && d[2..] == data[i + 2..];
      if |d| >= 4 && 2 + Length(d[2], d[3]) <= |d| {
        var len := Length(d[2], d[3]);
        assert d[2 + len..] == data[i + 2 + len..] && d[2..2 + len] == data[i + 2..i + 2 + len];
      }
    }
  }

  /** Reading one item that starts at i and is data[i..end]. */
  lemma StepOver(data: bytes, i: nat, end: nat, afterFill: bool, items: seq<Item>, item: Item, buf: bytes,
                 removed: bool)
    requires i <= end <= |data| && data[i..end] == item.Bytes()
    requires Parse(data[i..], afterFill) == Parse(data[end..], item.Fill?).Prepend(item)
    requires Keeps(items, buf, removed)
    ensures Keeps(items + [item], if item.IsExif() then buf else buf + data[i..end], removed || item.IsExif())
    ensures PrependAll(items, Parse(data[i..], afterFill)) == PrependAll(items + [item], Parse(data[end..], item.Fill?))
  {
    PrependOne(items, item, Parse(data[end..], item.Fill?));
    if item.IsExif() {
      KeepDropped(items, item, buf, removed);
    } else {
      KeepCopied(items, item, buf, removed);
    }
  }

  lemma FillStep(data: bytes, i: nat, afterFill: bool, items: seq<Item>, buf: bytes, removed: bool)
    requires i + 1 < |data| && data[i] == PREFIX && data[i + 1] == PREFIX && Keeps(items, buf, removed)
    ensures Keeps(items + [Fill], buf + data[i..i + 1], removed)
    ensures PrependAll(items, Parse(data[i..], afterFill)) == PrependAll(items + [Fill], Parse(data[i + 1..], true))
  {
    ParseAt(data, i, afterFill);
    StepOver(data, i, i + 1, afterFill, items, Fill, buf, removed);
  }

  /** Copies a run of fill bytes through; the walk is then past them, or at the end of the data. */
  method CopyFill(data: bytes, start: nat, ghost items0: seq<Item>, buf0: bytes, ghost removed: bool)
    returns (i: nat, buf: bytes, ghost items: seq<Item>, ghost afterFill: bool)
    requires start + 1 < |data| && data[start] == PREFIX && Keeps(items0, buf0, removed)
    ensures start <= i < |data| && data[i] == PREFIX
    ensures i + 1 < |data| ==> data[i + 1] != PREFIX
    ensures i + 1 >= |data| ==> afterFill
    ensures Keeps(items, buf, removed)
    ensures PrependAll(items0, Parse(data[start..], false)) == PrependAll(items, Parse(data[i..], afterFill))
  {
    i, buf, items, afterFill := start, buf0, items0, false;
    while i + 1 < |data| && data[i] == PREFIX && data[i + 1] == PREFIX
      invariant start <= i < |data| && data[i] == PREFIX && (afterFill || i + 1 < |data|)
      invariant Keeps(items, buf, removed)
      invariant PrependAll(items0, Parse(data[start..], false)) == PrependAll(items, Parse(data[i..], afterFill))
      decreases |data| - i
    {
      FillStep(data, i, afterFill, items, buf, removed);
      buf := buf + data[i..i + 1];
      items, afterFill := items + [Fill], true;
      i := i + 1;
    }
  }

  /** Hops over a segment with a length field, copying it unless it is an Exif segment. */
  method CopySegment(data: bytes, start: nat, ghost afterFill: bool, ghost items0: seq<Item>, buf0: bytes,
                     removed0: bool)
    returns (ok: bool, i: nat, buf: bytes, removed: bool, ghost items: seq<Item>)
    requires start + 1 < |data| && data[start] == PREFIX && data[start + 1] != PREFIX
    requires !EndsWalk(data[start + 1]) && !IsStandalone(data[start + 1])
    requires Keeps(items0, buf0, removed0)
    ensures !ok ==> Parse(data[start..], afterFill) == Malformed && items == items0 && Keeps(items, buf, removed)
    ensures ok ==>
              && start < i <= |data| && Keeps(items, buf, removed)
              && PrependAll(items0, Parse(data[start..], afterFill)) == PrependAll(items, Parse(data[i..], false))
  {
    i, buf, removed, items := start, buf0, removed0, items0;
    ParseAt(data, start, afterFill);
    if start + 3 >= |data| {
      return false, i, buf, removed, items;
    }
    var segLen := Length(data[start + 2], data[start + 3]);
    if segLen < 2 {
      return false, i, buf, removed, items;
    }
    var segStart := start + 2;
    var segEnd := segStart + segLen;
    if segEnd > |data| {
      return false, i, buf, removed, items;
    }
    ghost var item := Segment(data[start + 1], data[segStart..segEnd]);
    StepOver(data, start, segEnd, afterFill, items, item, buf, removed);
    if data[start + 1] == APP1 && IsExifAPP1(data[segStart..segEnd]) {
      removed := true;
    } else {
      buf := buf + data[start..segEnd];
    }
    return true, segEnd, buf, removed, items + [item];
  }

  /** Copies a marker that has no length field. */
  method CopyStandalone(data: bytes, start: nat, ghost afterFill: bool, ghost items0: seq<Item>, buf0: bytes,
                        ghost removed: bool)
    returns (i: nat, buf: bytes, ghost items: seq<Item>)
    requires start + 1 < |data| && data[start] == PREFIX && IsStandalone(data[start + 1])
    requires Keeps(items0, buf0, removed)
    ensures start < i <= |data| && Keeps(items, buf, removed)
    ensures PrependAll(items0, Parse(data[start..], afterFill)) == PrependAll(items, Parse(data[i..], false))
  {
    ghost var item := Standalone(data[start + 1]);
    ParseAt(data, start, afterFill);
    StepOver(data, start, start + 2, afterFill, items0, item, buf0, removed);
    return start + 2, buf0 + data[start..start + 2], items0 + [item];
  }

  method StripExifAPP1(data: bytes) returns (r: Outcome)
    ensures r == Strip(data)
  {
    if |data| < 2 || data[0] != PREFIX || data[1] != SOI {
      return REFUSED;
    }
    assert START <= data;
    var buf := data[..2];
    var removed := false;
    var i := 2;
    ghost var items: seq<Item> := [];
    ghost var all := Parse(data[2..], false);
    while i + 1 < |data|
      invariant 2 <= i <= |data|
      invariant Keeps(items, buf, removed)
      invariant all == PrependAll(items, Parse(data[i..], false))
      decreases |data| - i
    {
      if data[i] != PREFIX {
        ParseAt(data, i, false);
        StripIs(data, items, Malformed, buf, removed);
        return REFUSED;
      }
      ghost var afterFill;
      i, buf, items, afterFill := CopyFill(data, i, items, buf, removed);
      ghost var p := Parse(data[i..], afterFill);
      if i + 1 >= |data| {
        ParseAt(data, i, afterFill);
        StripIs(data, items, p, buf, removed);
        return REFUSED;
      }
      var marker := data[i + 1];
      if marker == SOS || marker == EOI {
        ParseAt(data, i, afterFill);
        StripIs(data, items, p, buf, removed);
        return Outcome(buf + data[i..], removed, true);
      }
      if IsStandalone(marker) {
        i, buf, items := CopyStandalone(data, i, afterFill, items, buf, removed);
        continue;
      }
      var ok;
      ok, i, buf, removed, items := CopySegment(data, i, afterFill, items, buf, removed);
      if !ok {
        StripIs(data, items, Malformed, buf, removed);
        return REFUSED;
      }
    }
    ParseAt(data, i, false);
    StripIs(data, items, Parse(data[i..], false), buf, removed);
    if !removed {
      return Outcome([], false, true);
    }
    return Outcome(buf, removed, true);
  }

  // ---- what the rewrite promises ----

  ghost predicate ReachesScan(data: bytes) {
    START <= data && Parse(data[2..], false).Parsed? && Parse(data[2..], false).scan
  }

  ghost function ItemsOf(data: bytes): seq<Item>
    requires START <= data && Parse(data[2..], false).Parsed?
  {
    Parse(data[2..], false).items
  }

  /** For a picture that reaches its scan, everything but the Exif segments survives, in order
      and byte for byte: the output reads as the input's items without them, before the same
      scan. */
  lemma SurvivorsInOrder(data: bytes)
    requires ReachesScan(data)
    ensures Strip(data).ok && START <= Strip(data).out
    ensures Parse(Strip(data).out[2..], false) ==
            Parsed(WithoutExif(ItemsOf(data)), Parse(data[2..], false).rest, true)
    ensures data == START + Print(ItemsOf(data)) + Parse(data[2..], false).rest
    ensures Strip(data).removed <==> HasExif(ItemsOf(data))
  {
    var p := Parse(data[2..], false);
    PrintOfParse(data[2..], false);
    WithoutExifIsClean(p.items);
    ParseOfPrint(WithoutExif(p.items), p.rest, false);
    var out := Strip(data).out;
    assert out == START + (Print(WithoutExif(p.items)) + p.rest);
    assert out[2..] == Print(WithoutExif(p.items)) + p.rest;
    assert data == START + data[2..];
  }

  /** When something was removed, the lengths add up exactly if the walk reached a scan or left
      no stray last byte: that byte is the only one ever lost. */
  lemma Conservation(data: bytes)
    requires Strip(data).ok && Strip(data).removed
    ensures START <= data && Parse(data[2..], false).Parsed?
    ensures |Strip(data).out| + ExifLength(ItemsOf(data)) == |data| <==>
            ReachesScan(data) || Parse(data[2..], false).rest == []
    ensures |Strip(data).out| + ExifLength(ItemsOf(data)) >= |data| - 1
    ensures ExifLength(ItemsOf(data)) > 0
  {
    var p := Parse(data[2..], false);
    PrintOfParse(data[2..], false);
    LengthsAddUp(p.items);
  }

  /** Stripping the output again removes nothing, and for a picture that reaches its scan it
      returns the very same bytes. */
  lemma StripTwice(data: bytes)
    requires Strip(data).ok && (Strip(data).removed || ReachesScan(data))
    ensures !Strip(Strip(data).out).removed
    ensures ReachesScan(data) ==> Strip(Strip(data).out) == Outcome(Strip(data).out, false, true)
  {
    var p := Parse(data[2..], false);
    PrintOfParse(data[2..], false);
    var kept := WithoutExif(p.items);
    WithoutExifIsClean(p.items);
    var out := Strip(data).out;
    if p.scan {
      SurvivorsInOrder(data);
      WithoutExifKeeps(kept);
      assert out == START + Print(kept) + p.rest;
    } else {
      assert out[2..] == Print(kept);
      ReparseFindsNoExif(kept, false);
    }
  }

  /** The stray byte: an Exif segment followed by one more byte and no scan loses that byte. */
  lemma StrayByteIsLost(stray: byte)
    ensures var exif := [0xFF, 0xE1, 0, 8] + EXIF;
            Strip(START + exif + [stray]) == Outcome(START, true, true)
  {
    var item := Segment(APP1, [0, 8] + EXIF);
    var d := item.Bytes() + [stray];
    assert START + ([0xFF, 0xE1, 0, 8] + EXIF) + [stray] == START + d;
    ParseItem(item, [stray], false);
    assert Parse([stray], false) == Parsed([], [stray], false);
    assert Parse(d, false).items == [item];
    assert [item][0].IsExif();
    assert WithoutExif([item]) == [];
    assert (START + d)[2..] == d;
  }

  // ---- the same, in bytes ----

  /** The length field of a segment with that many bytes of payload. */
  function LengthField(payload: nat): (b: bytes)
    requires payload + 2 < 0x1_0000
  {
    [(payload + 2) / 256, (payload + 2) % 256]
  }

  function RawSegment(marker: byte, payload: bytes): bytes
    requires |payload| + 2 < 0x1_0000
  {
    [0xFF, marker] + LengthField(|payload|) + payload
  }

  ghost predicate BeginsScan(rest: bytes) {
    [0xFF, 0xDA] <= rest || [0xFF, 0xD9] <= rest
  }

  lemma RawIsItem(marker: byte, payload: bytes)
    requires |payload| + 2 < 0x1_0000
    ensures var body := LengthField(|payload|) + payload;
            RawSegment(marker, payload) == Segment(marker, body).Bytes() && |body| == Length(body[0], body[1])
  {
    var body := LengthField(|payload|) + payload;
    assert Segment(marker, body).Bytes() == [0xFF, marker] + body;
  }

  /** What stripping does to a picture that begins with one given item. */
  lemma StripFirst(item: Item, rest: bytes)
    requires item.WellFormed() && BeginsScan(rest)
    ensures Strip(START + item.Bytes() + rest) ==
            if item.IsExif() then Outcome(START + rest, true, true)
            else Outcome(START + item.Bytes() + rest, false, true)
  {
    var d := item.Bytes() + rest;
    assert START + item.Bytes() + rest == START + d && (START + d)[2..] == d;
    assert rest[0] == 0xFF && (rest[1] == 0xDA || rest[1] == 0xD9);
    ParseItem(item, rest, false);
    assert Parse(rest, item.Fill?) == Parsed([], rest, true);
    assert [item] + [] == [item];
    assert Parse(d, false) == Parsed([item], rest, true);
    OneItem(item);
    assert START + [] + rest == START + rest;
    assert START <= START + d;
  }

  lemma OneItem(item: Item)
    ensures Print(WithoutExif([item])) == if item.IsExif() then [] else item.Bytes()
    ensures HasExif([item]) <==> item.IsExif()
  {
    assert [item][1..] == [] && WithoutExif([]) == [];
    assert WithoutExif([item]) == if item.IsExif() then [] else [item];
    assert [item][0] == item;
  }

  /** An APP1 segment whose payload begins with "Exif" and two zeros goes, whatever follows them. */
  lemma ExifSegmentGoes(payload: bytes, rest: bytes)
    requires |payload| + 8 < 0x1_0000 && BeginsScan(rest)
    ensures var exif := RawSegment(0xE1, [0x45, 0x78, 0x69, 0x66, 0, 0] + payload);
            Strip([0xFF, 0xD8] + exif + rest) == Outcome([0xFF, 0xD8] + rest, true, true)
  {
    var data: bytes := [0x45, 0x78, 0x69, 0x66, 0, 0] + payload;
    var body := LengthField(|data|) + data;
    RawIsItem(0xE1, data);
    assert body[2..8] == data[..6] == EXIF;
    StripFirst(Segment(0xE1, body), rest);
  }

  /** A segment with another marker, or another beginning, stays. */
  lemma OtherSegmentStays(marker: byte, payload: bytes, rest: bytes)
    requires |payload| + 2 < 0x1_0000 && BeginsScan(rest)
    requires marker !in {0x01, 0xD0, 0xD1, 0xD2, 0xD3, 0xD4, 0xD5, 0xD6, 0xD7, 0xD9, 0xDA, 0xFF}
    requires marker == 0xE1 ==> !([0x45, 0x78, 0x69, 0x66, 0, 0] <= payload)
    ensures var data := [0xFF, 0xD8] + RawSegment(marker, payload) + rest;
            Strip(data) == Outcome(data, false, true)
  {
    var body := LengthField(|payload|) + payload;
    RawIsItem(marker, payload);
    if |body| >= 8 {
      assert body[2..8] == payload[..6];
    }
    StripFirst(Segment(marker, body), rest);
  }

  /** TEM and RST0 to RST7 have no length field, and a fill byte is one byte. */
  lemma ShortMarkersStay(marker: byte, rest: bytes)
    requires marker in {0x01, 0xD0, 0xD1, 0xD2, 0xD3, 0xD4, 0xD5, 0xD6, 0xD7} && BeginsScan(rest)
    ensures var data := [0xFF, 0xD8] + [0xFF, marker] + rest; Strip(data) == Outcome(data, false, true)
    ensures var data := [0xFF, 0xD8] + [0xFF] + rest; Strip(data) == Outcome(data, false, true)
  {
    StripFirst(Standalone(marker), rest);
    StripFirst(Fill, rest);
  }

  /** Nothing read in the output is an Exif segment. */
  lemma NoExifLeft(data: bytes)
    requires Strip(data).ok && (Strip(data).removed || ReachesScan(data))
    ensures var left := Parse(Strip(data).out[2..], false);
            left.Parsed? ==> forall i | i in left.items ::
              !(i.Segment? && i.marker == 0xE1 && |i.body| >= 8 && i.body[2..8] == [0x45, 0x78, 0x69, 0x66, 0, 0])
  {
    StripTwice(data);
    var left := Parse(Strip(data).out[2..], false);
    if left.Parsed? {
      assert !HasExif(left.items);
      forall i | i in left.items ensures !i.IsExif() {
        var k :| 0 <= k < |left.items| && left.items[k] == i;
      }
    }
  }

  lemma RefusedIff(d: bytes)
    ensures Strip(START + d).ok <==> Parse(d, false).Parsed?
  {
    assert (START + d)[2..] == d && START <= START + d;
  }

  /** Refused are: no start marker, a byte other than FF where a marker should be, fill bytes at the
      end, and a segment whose length field is missing, too small or too large. */
  lemma Refusals(data: bytes, c: byte, marker: byte, high: byte, low: byte, rest: bytes)
    requires marker !in {0x01, 0xD0, 0xD1, 0xD2, 0xD3, 0xD4, 0xD5, 0xD6, 0xD7, 0xD9, 0xDA, 0xFF}
    ensures !([0xFF, 0xD8] <= data) ==> !Strip(data).ok
    ensures c != 0xFF ==> !Strip([0xFF, 0xD8] + [c, marker] + rest).ok
    ensures !Strip([0xFF, 0xD8] + [0xFF, 0xFF]).ok
    ensures !Strip([0xFF, 0xD8] + [0xFF, marker]).ok && !Strip([0xFF, 0xD8] + [0xFF, marker, high]).ok
    ensures var length := 256 * (high as int) + low as int;
            length < 2 || length > |rest| + 2 ==> !Strip([0xFF, 0xD8] + [0xFF, marker, high, low] + rest).ok
  {
    RefusedIff([c, marker] + rest);
    assert [0xFF, 0xD8] + [c, marker] + rest == START + ([c, marker] + rest);
    RefusedIff([0xFF, 0xFF]);
    assert [0xFF as byte, 0xFF][1..] == [0xFF];
    RefusedIff([0xFF, marker]);
    RefusedIff([0xFF, marker, high]);
    RefusedIff([0xFF, marker, high, low] + rest);
    assert [0xFF, 0xD8] + [0xFF, marker, high, low] + rest == START + ([0xFF, marker, high, low] + rest);
  }
}
