/** Sanitising file names (and chunk identifiers, which become file names). */
module FileNames {
  import opened GoText

  /** unicode.IsControl: the two Latin-1 control blocks. */
  predicate IsControl(c: char) {
    c <= '\U{1F}' || '\U{7F}' <= c <= '\U{9F}'
  }

  predicate IsSeparator(c: char) {
    c == '/' || c == '\\'
  }

  predicate IsTrimmed(c: char) {
    c == ' ' || c == '.'
  }

  /** What follows the last path separator. */
  function BaseName(name: string): string {
    if name == [] then []
    else if IsSeparator(name[|name| - 1]) then []
    else BaseName(name[..|name| - 1]) + [name[|name| - 1]]
  }

  /** Separators and control characters dropped, each run of white space replaced by one blank. */
  function Squeeze(s: string, lastWasSpace: bool): string {
    if s == [] then []
    else if IsSeparator(s[0]) || IsControl(s[0]) then Squeeze(s[1..], lastWasSpace)
    else if IsSpace(s[0]) then (if lastWasSpace then [] else [' ']) + Squeeze(s[1..], true)
    else [s[0]] + Squeeze(s[1..], false)
  }

  function TrimLeft(s: string): string {
    if s != [] && IsTrimmed(s[0]) then TrimLeft(s[1..]) else s
  }

  function TrimRight(s: string): string {
    if s != [] && IsTrimmed(s[|s| - 1]) then TrimRight(s[..|s| - 1]) else s
  }

  function Sanitized(name: string): string {
    TrimRight(TrimLeft(Squeeze(BaseName(name), false)))
  }

  /** A single clean path segment: no separators or control characters, white space only as
      single blanks, and no blank or dot at either end. */
  predicate IsClean(s: string) {
    && IsSqueezed(s)
    && (s != [] ==> !IsTrimmed(s[0]) && !IsTrimmed(s[|s| - 1]))
  }

  predicate IsSqueezed(s: string) {
    && (forall i | 0 <= i < |s| :: !IsSeparator(s[i]) && !IsControl(s[i]) && (IsSpace(s[i]) ==> s[i] == ' '))
    && (forall i | 0 < i < |s| :: s[i] == ' ' ==> s[i - 1] != ' ')
  }

  method DropDirectory(name: string) returns (base: string)
    ensures base == BaseName(name)
  {
    var at := |name|;
    assert name[..at] == name;
    while at > 0 && !IsSeparator(name[at - 1])
      invariant 0 <= at <= |name|
      invariant BaseName(name) == BaseName(name[..at]) + name[at..]
    {
      at := at - 1;
      assert name[..at + 1][..at] == name[..at];
      assert [name[at]] + name[at + 1..] == name[at..];
    }
    assert BaseName(name[..at]) == [];
    base := name[at..];
  }

  method SqueezeLoop(base: string) returns (out: string)
    ensures out == Squeeze(base, false)
  {
    out := "";
    var lastWasSpace := false;
    for i := 0 to |base|
      invariant Squeeze(base, false) == out + Squeeze(base[i..], lastWasSpace)
    {
      var c := base[i];
      assert base[i..][1..] == base[i + 1..];
      if IsSeparator(c) || IsControl(c) {
        continue;
      } else if IsSpace(c) {
        if !lastWasSpace {
          out := out + " ";
          lastWasSpace := true;
        }
      } else {
        out := out + [c];
        lastWasSpace := false;
      }
    }
  }

  method SanitizeFilename(name: string) returns (r: string)
    ensures r == Sanitized(name)
  {
    var base := DropDirectory(name);
    r := SqueezeLoop(base);
    while r != [] && IsTrimmed(r[0])
      invariant TrimLeft(Squeeze(base, false)) == TrimLeft(r)
    {
      r := r[1..];
    }
    while r != [] && IsTrimmed(r[|r| - 1])
      invariant TrimRight(TrimLeft(Squeeze(base, false))) == TrimRight(r)
    {
      r := r[..|r| - 1];
    }
  }

  lemma {:induction false} SqueezeIsSqueezed(s: string, lastWasSpace: bool)
    ensures IsSqueezed(Squeeze(s, lastWasSpace))
    ensures lastWasSpace && Squeeze(s, lastWasSpace) != [] ==> Squeeze(s, lastWasSpace)[0] != ' '
  {
    if s != [] {
      SqueezeIsSqueezed(s[1..], lastWasSpace);
      SqueezeIsSqueezed(s[1..], true);
      SqueezeIsSqueezed(s[1..], false);
    }
  }

  lemma {:induction false} SqueezeKeeps(s: string, lastWasSpace: bool)
    requires IsSqueezed(s)
    requires lastWasSpace && s != [] ==> s[0] != ' '
    ensures Squeeze(s, lastWasSpace) == s
  {
    if s != [] {
      assert s == [s[0]] + s[1..];
      assert |s| > 1 && s[0] == ' ' ==> s[1] != ' ';
      SqueezeKeeps(s[1..], IsSpace(s[0]));
    }
  }

  lemma {:induction false} TrimsAreClean(s: string)
    requires IsSqueezed(s)
    ensures IsSqueezed(TrimLeft(s))
    ensures TrimLeft(s) != [] ==> !IsTrimmed(TrimLeft(s)[0])
  {
    if s != [] && IsTrimmed(s[0]) {
      TrimsAreClean(s[1..]);
    }
  }

  lemma {:induction false} TrimRightIsClean(s: string)
    requires IsSqueezed(s) && (s != [] ==> !IsTrimmed(s[0]))
    ensures IsClean(TrimRight(s))
  {
    if s != [] && IsTrimmed(s[|s| - 1]) {
      TrimRightIsClean(s[..|s| - 1]);
    }
  }

  lemma {:induction false} BaseNameKeeps(s: string)
    requires forall i | 0 <= i < |s| :: !IsSeparator(s[i])
    ensures BaseName(s) == s
  {
    if s != [] {
      BaseNameKeeps(s[..|s| - 1]);
    }
  }

  /** The sanitiser returns clean names only, and its fixpoints are exactly the clean names; so
      sanitising twice changes nothing more. */
  lemma SanitizedFixpoints(name: string)
    ensures IsClean(Sanitized(name))
    ensures Sanitized(name) == name <==> IsClean(name)
    ensures Sanitized(Sanitized(name)) == Sanitized(name)
  {
    CleanIsFixed(name);
    CleanIsFixed(Sanitized(name));
  }

  lemma CleanIsFixed(name: string)
    ensures IsClean(Sanitized(name))
    ensures IsClean(name) ==> Sanitized(name) == name
  {
    var squeezed := Squeeze(BaseName(name), false);
    SqueezeIsSqueezed(BaseName(name), false);
    TrimsAreClean(squeezed);
    TrimRightIsClean(TrimLeft(squeezed));
    if IsClean(name) {
      BaseNameKeeps(name);
      SqueezeKeeps(name, false);
    }
  }

  /** Clean names, character by character. */
  lemma CleanIs(s: string)
    ensures IsClean(s) <==>
            && (forall i | 0 <= i < |s| :: s[i] != '/' && s[i] != '\\')
            && (forall i | 0 <= i < |s| :: (s[i] as int) >= 32 && !(127 <= s[i] as int < 160))
            && (forall i | 0 <= i < |s| && IsSpace(s[i]) :: s[i] == ' ' && (i > 0 ==> s[i - 1] != ' '))
            && (s != "" ==> s[0] !in " ." && s[|s| - 1] !in " .")
  {
  }

  /** A path whose last segment is clean becomes that segment. */
  lemma LastSegmentStays(directory: string, name: string)
    requires directory != "" && IsSeparator(directory[|directory| - 1]) && IsClean(name)
    ensures Sanitized(directory + name) == name
  {
    AfterSeparator(directory, name);
    BaseNameKeeps(name);
    CleanIsFixed(name);
  }

  lemma {:induction false} AfterSeparator(directory: string, name: string)
    requires directory != "" && IsSeparator(directory[|directory| - 1])
    requires forall i | 0 <= i < |name| :: !IsSeparator(name[i])
    ensures BaseName(directory + name) == name
  {
    if name == "" {
      assert directory + name == directory;
    } else {
      AfterSeparator(directory, name[..|name| - 1]);
      assert (directory + name)[..|directory + name| - 1] == directory + name[..|name| - 1];
    }
  }

  /** The characters that are no separators, no control characters and no white space. */
  function Letters(s: string): string {
    if s == "" then ""
    else (if s[0] in "/\\" || IsControl(s[0]) || IsSpace(s[0]) then "" else [s[0]]) + Letters(s[1..])
  }

  lemma LettersOne(c: char, s: string)
    ensures Letters([c] + s) == (if c in "/\\" || IsControl(c) || IsSpace(c) then "" else [c]) + Letters(s)
  {
    assert ([c] + s)[1..] == s;
  }

  /** Squeezing keeps all of these, in order. */
  lemma {:induction false} SqueezeKeepsLetters(s: string, lastWasSpace: bool)
    ensures Letters(Squeeze(s, lastWasSpace)) == Letters(s)
  {
    if s != "" {
      var c := s[0];
      assert s == [c] + s[1..];
      if IsSeparator(c) || IsControl(c) {
        SqueezeKeepsLetters(s[1..], lastWasSpace);
      } else if IsSpace(c) {
        SqueezeKeepsLetters(s[1..], true);
        LettersOne(' ', Squeeze(s[1..], true));
        assert [] + Squeeze(s[1..], true) == Squeeze(s[1..], true);
      } else {
        SqueezeKeepsLetters(s[1..], false);
        LettersOne(c, Squeeze(s[1..], false));
      }
    }
  }
}
