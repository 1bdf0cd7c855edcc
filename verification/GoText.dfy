/** The string functions of Go's library that several parts use. */
module GoText {
  import opened Wrappers

  /** unicode.IsSpace. */
  predicate IsSpace(c: char) {
    || '\t' <= c <= '\r' || c == ' ' || c == '\U{85}' || c == '\U{A0}' || c == '\U{1680}'
    || '\U{2000}' <= c <= '\U{200A}' || c == '\U{2028}' || c == '\U{2029}' || c == '\U{202F}'
    || c == '\U{205F}' || c == '\U{3000}'
  }

  function DropLeading(s: string): string {
    if s != "" && IsSpace(s[0]) then DropLeading(s[1..]) else s
  }

  function DropTrailing(s: string): string {
    if s != "" && IsSpace(s[|s| - 1]) then DropTrailing(s[..|s| - 1]) else s
  }

  /** strings.TrimSpace. */
  function TrimSpace(s: string): string {
    DropTrailing(DropLeading(s))
  }

  /** Text without white space at either end stays as it is. */
  lemma TrimSpaceKeeps(s: string)
    requires s != "" ==> !IsSpace(s[0]) && !IsSpace(s[|s| - 1])
    ensures TrimSpace(s) == s
  {
    assert DropLeading(s) == s;
  }

  /** Text that does not begin with white space still begins the same. */
  lemma TrimSpaceHead(s: string)
    requires s != "" && !IsSpace(s[0])
    ensures TrimSpace(s) != "" && TrimSpace(s)[0] == s[0]
  {
    DropTrailingHead(s);
  }

  lemma {:induction false} DropTrailingHead(s: string)
    requires s != "" && !IsSpace(s[0])
    ensures DropTrailing(s) != "" && DropTrailing(s)[0] == s[0]
  {
    if IsSpace(s[|s| - 1]) {
      DropTrailingHead(s[..|s| - 1]);
    }
  }

  lemma TrimSpaceLacks(s: string, c: char)
    requires c !in s
    ensures c !in TrimSpace(s)
  {
    DropLeadingLacks(s, c);
    DropTrailingLacks(DropLeading(s), c);
  }

  lemma {:induction false} DropLeadingLacks(s: string, c: char)
    requires c !in s
    ensures c !in DropLeading(s)
  {
    if s != "" && IsSpace(s[0]) {
      DropLeadingLacks(s[1..], c);
    }
  }

  lemma {:induction false} DropTrailingLacks(s: string, c: char)
    requires c !in s
    ensures c !in DropTrailing(s)
  {
    if s != "" && IsSpace(s[|s| - 1]) {
      DropTrailingLacks(s[..|s| - 1], c);
    }
  }

  /** Nothing is left exactly of text that is white space throughout. */
  lemma TrimSpaceBlank(s: string)
    ensures TrimSpace(s) == "" <==> forall i | 0 <= i < |s| :: IsSpace(s[i])
  {
    DropLeadingBlank(s);
    if DropLeading(s) != "" {
      TrimSpaceHead(DropLeading(s));
      DropTrailingHead(DropLeading(s));
    }
  }

  lemma {:induction false} DropLeadingBlank(s: string)
    ensures DropLeading(s) == "" <==> forall i | 0 <= i < |s| :: IsSpace(s[i])
    ensures DropLeading(s) != "" ==> !IsSpace(DropLeading(s)[0])
  {
    if s != "" && IsSpace(s[0]) {
      DropLeadingBlank(s[1..]);
      assert forall i | 0 <= i < |s[1..]| :: s[1..][i] == s[i + 1];
      assert forall i | 0 < i < |s| :: s[i] == s[1..][i - 1];
    }
  }

  /** strings.ToLower, as far as words of ASCII letters are concerned. */
  function Lower(s: string): string {
    if s == "" then ""
    else [if 'A' <= s[0] <= 'Z' then s[0] - 'A' + 'a' else s[0]] + Lower(s[1..])
  }

  /** strings.Cut at the first separator. */
  function Cut(s: string, separator: char): Option<(string, string)> {
    if s == "" then None
    else if s[0] == separator then Some(("", s[1..]))
    else match Cut(s[1..], separator)
      case None => None
      case Some((before, after)) => Some(([s[0]] + before, after))
  }

  lemma {:induction false} CutLacks(s: string, separator: char)
    requires Cut(s, separator).Some?
    ensures separator !in Cut(s, separator).value.0
  {
    if s[0] != separator {
      CutLacks(s[1..], separator);
    }
  }

  lemma {:induction false} CutOf(before: string, separator: char, after: string)
    requires separator !in before
    ensures Cut(before + [separator] + after, separator) == Some((before, after))
  {
    var s := before + [separator] + after;
    if before == "" {
      assert s[1..] == after;
    } else {
      CutOf(before[1..], separator, after);
      assert s[0] == before[0] && s[1..] == before[1..] + [separator] + after;
      assert [before[0]] + before[1..] == before;
    }
  }

  /** Lower case, letter by letter. */
  lemma {:induction false} LowerIs(s: string)
    ensures |Lower(s)| == |s|
    ensures forall i | 0 <= i < |s| :: Lower(s)[i] == if 'A' <= s[i] <= 'Z' then s[i] + ' ' else s[i]
  {
    if s != "" {
      LowerIs(s[1..]);
      assert forall i | 0 < i < |s| :: s[i] == s[1..][i - 1];
    }
  }

  /** Text in lower case is its own lower case. */
  lemma LowerKeeps(s: string)
    requires forall i | 0 <= i < |s| :: !('A' <= s[i] <= 'Z')
    ensures Lower(s) == s
  {
    LowerIs(s);
  }
}
