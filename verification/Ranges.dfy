/** Byte ranges in HTTP headers: the Content-Range a client labels a chunk with, and the Range a
    reader asks for. */
module Ranges {
  import opened Decimal
  import opened GoText
  import opened Wrappers

  // ---- Content-Range of an uploaded chunk ----

  datatype ContentRange = ContentRange(start: nat, end: nat, total: nat)

  /** "bytes start-end/total": None is an error. */
  function ParseContentRange(s: string): (r: Option<ContentRange>)
    ensures r.Some? ==> r.value.start <= r.value.end <= MAX_INT64 && r.value.total <= MAX_INT64
  {
    var v := TrimSpace(s);
    if |v| < 6 || Lower(v[..6]) != "bytes " then None
    else match Cut(TrimSpace(v[6..]), '/')
      case None => None
      case Some((range, total)) =>
        match Cut(range, '-')
        case None => None
        case Some((start, end)) =>
          match (ParseInt64(TrimSpace(start)), ParseInt64(TrimSpace(end)), ParseInt64(TrimSpace(total)))
          case (Some(s), Some(e), Some(t)) => if s < 0 || e < s || t < 0 then None else Some(ContentRange(s, e, t))
          case _ => None
  }

  /** What the browser's uploader sends for a chunk. */
  function ContentRangeText(start: nat, end: nat, total: nat): string {
    "bytes " + (Show(start) + "-" + Show(end) + "/" + Show(total))
  }

  lemma NumberReadsBack(n: nat)
    requires n <= MAX_INT64
    ensures ParseInt64(TrimSpace(Show(n))) == Some(n)
  {
    assert IsDigit(Show(n)[0]) && IsDigit(Show(n)[|Show(n)| - 1]);
    TrimSpaceKeeps(Show(n));
    ParseShow(n);
  }

  /** Every chunk range a client can send is read back as it was meant. */
  lemma ContentRangeReadsBack(start: nat, end: nat, total: nat)
    requires start <= end <= MAX_INT64 && total <= MAX_INT64
    ensures ParseContentRange(ContentRangeText(start, end, total)) == Some(ContentRange(start, end, total))
  {
    CutRest(start, end, total);
    NumberReadsBack(start);
    NumberReadsBack(end);
    NumberReadsBack(total);
    PartsReadBack(Show(start), Show(end), Show(total));
  }

  /** The parser in terms of the three numbers' texts. */
  lemma PartsReadBack(a: string, c: string, e: string)
    requires a != "" && e != "" && !IsSpace(a[0]) && !IsSpace(e[|e| - 1])
    ensures var rest := a + "-" + c + "/" + e;
            && TrimSpace("bytes " + rest) == "bytes " + rest && TrimSpace(rest) == rest
            && ("bytes " + rest)[6..] == rest && Lower(("bytes " + rest)[..6]) == "bytes "
  {
    var rest := a + "-" + c + "/" + e;
    assert "bytes " + rest[..|rest| - 1] + [e[|e| - 1]] == "bytes " + rest;
    LowerBytes();
    assert ("bytes " + rest)[..6] == "bytes ";
  }

  lemma LowerBytes()
    ensures Lower("bytes ") == "bytes "
  {
    assert "bytes "[1..] == "ytes " && "ytes "[1..] == "tes " && "tes "[1..] == "es ";
    assert "es "[1..] == "s " && "s "[1..] == " " && " "[1..] == "";
  }

  lemma CutRest(start: nat, end: nat, total: nat)
    ensures var range := Show(start) + "-" + Show(end);
            Cut(range + "/" + Show(total), '/') == Some((range, Show(total)))
            && Cut(range, '-') == Some((Show(start), Show(end)))
  {
    var range := Show(start) + "-" + Show(end);
    CutOf(range, '/', Show(total));
    CutOf(Show(start), '-', Show(end));
  }

  // ---- Range of a download ----

  datatype Range = Range(start: int, end: int)

  const BYTES := "bytes="

  /** A single inclusive range of an object of the given size: None when it is malformed. */
  function ServeParseRange(header: string, size: int): Option<Range> {
    if !(BYTES <= header) then None
    else
      var spec := TrimSpace(header[|BYTES|..]);
      if spec == "" || ',' in spec then None
      else match Cut(spec, '-')
        case None => None
        case Some((before, after)) => RangeOf(TrimSpace(before), TrimSpace(after), size)
  }

  function RangeOf(start: string, end: string, size: int): Option<Range> {
    if start == "" && end == "" then None
    else if start == "" then
      match ParseInt64(end)
      case None => None
      case Some(n) => if n <= 0 then None else Some(Range(size - (if n > size then size else n), size - 1))
    else if end == "" then
      match ParseInt64(start)
      case None => None
      case Some(s) => if s < 0 then None else Some(Range(s, size - 1))
    else
      match (ParseInt64(start), ParseInt64(end))
      case (Some(s), Some(e)) => if s < 0 || e < s then None else Some(Range(s, if e > size - 1 then size - 1 else e))
      case _ => None
  }

  /** What is sent: the object as for a request without a range, the object with status 416, or a
      part of it. */
  datatype Response = Full | Unsatisfiable | Partial(range: Range)

  /** serveRawByFile, once it is going to send something. */
  function Served(header: string, size: int): Response {
    if header == "" || size <= 0 then Full
    else match ServeParseRange(header, size)
      case None => Unsatisfiable
      case Some(r) => if r.start >= size || r.end >= size then Unsatisfiable else Partial(r)
  }

  /** A part that is sent lies in the object and is not empty. */
  lemma PartialRangeIsInside(header: string, size: int)
    requires Served(header, size).Partial?
    ensures var r := Served(header, size).range; 0 <= r.start <= r.end < size
  {
  }

  function ClosedRange(start: nat, end: nat): string {
    BYTES + (Show(start) + "-" + Show(end))
  }

  function OpenRange(start: nat): string {
    BYTES + (Show(start) + "-")
  }

  function SuffixRange(n: nat): string {
    BYTES + ("-" + Show(n))
  }

  /** serveCountView: whether a request with this header counts as a view. */
  predicate CountsAsView(header: string) {
    header == "" || BYTES + "0" <= header
  }

  predicate Trimmed(s: string) {
    s != "" ==> !IsSpace(s[0]) && !IsSpace(s[|s| - 1])
  }

  lemma TrimmedSpecReadsBack(before: string, after: string, size: int)
    requires Trimmed(before) && Trimmed(after)
    requires '-' !in before && ',' !in before && ',' !in after
    ensures ServeParseRange(BYTES + (before + "-" + after), size) == RangeOf(before, after, size)
  {
    var spec := before + "-" + after;
    assert (BYTES + spec)[|BYTES|..] == spec;
    assert spec[0] == (if before == "" then '-' else before[0]);
    assert spec[|spec| - 1] == (if after == "" then '-' else after[|after| - 1]);
    TrimSpaceKeeps(spec);
    assert ',' !in spec;
    CutOf(before, '-', after);
    TrimSpaceKeeps(before);
    TrimSpaceKeeps(after);
  }

  lemma SpecReadsBack(before: string, after: string, size: int)
    requires AllDigits(before) && AllDigits(after)
    ensures ServeParseRange(BYTES + (before + "-" + after), size) == RangeOf(before, after, size)
  {
    TrimmedSpecReadsBack(before, after, size);
  }

  /** first-last: from first to last, or to the end of the object if that comes sooner. */
  lemma ClosedRangeReadsBack(start: nat, end: nat, size: int)
    requires start <= end <= MAX_INT64
    ensures ServeParseRange(ClosedRange(start, end), size)
            == Some(Range(start, if end > size - 1 then size - 1 else end))
  {
    SpecReadsBack(Show(start), Show(end), size);
    ParseShow(start);
    ParseShow(end);
  }

  /** first-: from first to the end. */
  lemma OpenRangeReadsBack(start: nat, size: int)
    requires start <= MAX_INT64
    ensures ServeParseRange(OpenRange(start), size) == Some(Range(start, size - 1))
  {
    SpecReadsBack(Show(start), "", size);
    assert Show(start) + "-" + "" == Show(start) + "-";
    ParseShow(start);
  }

  /** -n: the last n bytes, or all of them. */
  lemma SuffixRangeReadsBack(n: nat, size: nat)
    requires 0 < n <= MAX_INT64
    ensures ServeParseRange(SuffixRange(n), size) == Some(Range(if n > size then 0 else size - n, size - 1))
  {
    SpecReadsBack("", Show(n), size);
    assert "" + "-" + Show(n) == "-" + Show(n);
    ParseShow(n);
  }

  lemma {:induction false} FirstDigit(n: nat)
    ensures Show(n)[0] == '0' <==> n == 0
  {
    if n >= 10 {
      FirstDigit(n / 10);
      assert Show(n)[0] == Show(n / 10)[0];
    }
  }

  // ---- Which accepted ranges count as a view ----

  /** The two numbers' texts, on either side of the first '-'. */
  function Fields(header: string): (string, string)
    requires BYTES <= header
  {
    match Cut(TrimSpace(header[|BYTES|..]), '-')
    case None => ("", "")
    case Some((before, after)) => (TrimSpace(before), TrimSpace(after))
  }

  predicate AllZeros(s: string) {
    forall i | 0 <= i < |s| :: s[i] == '0'
  }

  function WithoutPlus(s: string): string {
    if s != "" && s[0] == '+' then s[1..] else s
  }

  /** The last n bytes of an object that has no more than n: starts at byte 0, is not counted. */
  predicate SuffixOfAll(header: string, size: int)
    requires BYTES <= header
  {
    var (first, last) := Fields(header);
    first == "" && ParseInt64(last).Some? && ParseInt64(last).value >= size
  }

  /** A first byte other than 0 written with a leading zero: is counted. */
  predicate PaddedNumber(header: string)
    requires BYTES <= header
  {
    BYTES + "0" <= header && !AllZeros(Fields(header).0)
  }

  /** Byte 0 written with white space or a plus sign in front: is not counted. */
  predicate HiddenZero(header: string)
    requires BYTES <= header
  {
    var zeros := WithoutPlus(Fields(header).0);
    !(BYTES + "0" <= header) && zeros != "" && AllZeros(zeros)
  }

  /** For every header that is accepted, counting a view differs from starting at byte 0 exactly in
      these three cases. */
  lemma ViewCountsFromByteZero(header: string, size: int)
    requires ServeParseRange(header, size).Some?
    ensures var start := ServeParseRange(header, size).value.start;
            (CountsAsView(header) <==> start == 0)
            <==> !(SuffixOfAll(header, size) || PaddedNumber(header) || HiddenZero(header))
  {
    var rest := header[|BYTES|..];
    var (first, last) := Fields(header);
    SeventhChar(rest);
    assert header == BYTES + rest;
    FieldsOf(header, size);
    if first != "" {
      NumberIsZero(first);
    }
  }

  predicate StartsAtZero(r: Response) {
    r.Partial? ==> r.range.start == 0
  }

  /** When what is counted differs from what is sent from its beginning. Where the whole object is
      sent in spite of a Range header, this is every header that does not begin with "bytes=0". */
  predicate Miscounted(header: string, size: int) {
    match Served(header, size)
    case Partial(_) => SuffixOfAll(header, size) || PaddedNumber(header) || HiddenZero(header)
    case _ => header != "" && !(BYTES + "0" <= header)
  }

  /** For every header and every size: a response counts as a view if and only if it sends the
      object from byte 0, except where it is miscounted. */
  lemma ViewCountsIff(header: string, size: int)
    ensures (CountsAsView(header) <==> StartsAtZero(Served(header, size))) <==> !Miscounted(header, size)
  {
    if Served(header, size).Partial? {
      ViewCountsFromByteZero(header, size);
    }
  }

  /** A range in another unit brings the whole object, uncounted. */
  lemma OtherUnitsUncounted(header: string, size: int)
    requires header != "" && !(BYTES <= header)
    ensures !Served(header, size).Partial? && !CountsAsView(header)
  {
    LongerPrefix(BYTES, "0", header);
  }

  lemma LongerPrefix(a: string, b: string, s: string)
    ensures a + b <= s ==> a <= s
  {
    assert (a + b)[..|a|] == a;
  }

  lemma OtherUnitsExample(size: int)
    requires size > 0
    ensures Served("items=0-5", size) == Unsatisfiable && !CountsAsView("items=0-5")
  {
    assert "items=0-5"[0] != BYTES[0];
    OtherUnitsUncounted("items=0-5", size);
  }

  /** An object without a positive size is sent as it is, whatever the range; a range from a later
      byte is not counted then. */
  lemma EmptyObjectUncounted(start: nat, size: int)
    requires 0 < start && size <= 0
    ensures Served(OpenRange(start), size) == Full && !CountsAsView(OpenRange(start))
  {
    CanonicalRangesCount(start, start, 0);
  }

  lemma FieldsOf(header: string, size: int)
    requires ServeParseRange(header, size).Some?
    ensures var (first, last) := Fields(header);
            && header[|BYTES|..] != ""
            && ServeParseRange(header, size) == RangeOf(first, last, size)
            && '-' !in first
            && (header[|BYTES|] == '0' ==> first != "" && first[0] == '0')
  {
    var rest := header[|BYTES|..];
    var (before, after) := Cut(TrimSpace(rest), '-').value;
    CutLacks(TrimSpace(rest), '-');
    TrimSpaceLacks(before, '-');
    if rest[0] == '0' {
      TrimSpaceHead(rest);
      assert before != "" && before[0] == '0';
      TrimSpaceHead(before);
    }
  }

  lemma {:induction false} ValueIsZero(s: string)
    requires AllDigits(s)
    ensures Value(s) == 0 <==> AllZeros(s)
  {
    if s != "" {
      var init := s[..|s| - 1];
      ValueIsZero(init);
      assert s == init + [s[|s| - 1]];
      if AllZeros(init) && s[|s| - 1] == '0' {
        assert AllZeros(s);
      }
    }
  }

  lemma NumberIsZero(s: string)
    requires ParseInt64(s).Some? && '-' !in s
    ensures WithoutPlus(s) != ""
    ensures ParseInt64(s).value == 0 <==> AllZeros(WithoutPlus(s))
  {
    ValueIsZero(WithoutPlus(s));
  }

  /** For headers in canonical decimal the first number decides, and the last-n-bytes form never
      counts. */
  lemma CanonicalRangesCount(start: nat, end: nat, n: nat)
    ensures CountsAsView(ClosedRange(start, end)) <==> start == 0
    ensures CountsAsView(OpenRange(start)) <==> start == 0
    ensures !CountsAsView(SuffixRange(n))
  {
    FirstDigit(start);
    SeventhChar(Show(start) + "-" + Show(end));
    SeventhChar(Show(start) + "-");
    SeventhChar("-" + Show(n));
  }

  /** All of a three-byte object, asked for as its last five bytes, is not counted. */
  lemma SuffixOfAllExample()
    ensures ServeParseRange("bytes=-5", 3) == Some(Range(0, 2)) && !CountsAsView("bytes=-5")
  {
    SuffixRangeReadsBack(5, 3);
    CanonicalRangesCount(0, 0, 5);
    assert SuffixRange(5) == "bytes=-5";
  }

  /** Bytes 7 to 10 are counted when 7 is written 07. */
  lemma PaddedNumberExample()
    ensures ServeParseRange("bytes=07-10", 100) == Some(Range(7, 10)) && CountsAsView("bytes=07-10")
  {
    SpecReadsBack("07", "10", 100);
    assert BYTES + ("07" + "-" + "10") == "bytes=07-10";
    assert Value("07") == 7 && Value("10") == 10 by {
      assert "07"[..1] == "0" && "0"[..0] == "" && "10"[..1] == "1" && "1"[..0] == "";
    }
    SeventhChar("07-10");
    assert BYTES + "07-10" == "bytes=07-10";
  }

  /** With white space in front of its zero a range is served the same, and never counted. */
  lemma HiddenByBlank(blank: char, spec: string, size: int)
    requires IsSpace(blank) && spec != "" && spec[0] == '0'
    ensures Served(BYTES + ([blank] + spec), size) == Served(BYTES + spec, size)
    ensures !CountsAsView(BYTES + ([blank] + spec))
  {
    var padded := [blank] + spec;
    assert padded[1..] == spec;
    assert TrimSpace(padded) == TrimSpace(spec);
    assert (BYTES + padded)[|BYTES|..] == padded && (BYTES + spec)[|BYTES|..] == spec;
    SeventhChar(padded);
  }

  lemma PlusReadsBack(digits: string)
    requires AllDigits(digits) && digits != ""
    ensures ParseInt64("+" + digits) == ParseInt64(digits)
  {
    assert ("+" + digits)[1..] == digits;
    assert IsDigit(digits[0]);
  }

  /** With a plus sign in front of its zero a range, open or closed, is served the same, and never
      counted. */
  lemma HiddenByPlus(zeros: string, end: string, size: int)
    requires zeros != "" && AllZeros(zeros) && AllDigits(end)
    ensures Served(BYTES + ("+" + zeros + "-" + end), size) == Served(BYTES + (zeros + "-" + end), size)
    ensures !CountsAsView(BYTES + ("+" + zeros + "-" + end))
  {
    TrimmedSpecReadsBack("+" + zeros, end, size);
    TrimmedSpecReadsBack(zeros, end, size);
    PlusReadsBack(zeros);
    SeventhChar("+" + zeros + "-" + end);
  }

  lemma SeventhChar(spec: string)
    requires spec != ""
    ensures CountsAsView(BYTES + spec) <==> spec[0] == '0'
  {
    var header := BYTES + spec;
    assert header[|BYTES|] == spec[0];
    assert header[..|BYTES| + 1] == BYTES + [spec[0]];
    if BYTES + "0" <= header {
      assert header[|BYTES|] == '0';
    }
  }
}
