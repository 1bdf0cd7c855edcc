/** Partial UPDATE statements: column assignments with numbered placeholders, and the arguments
    bound to them. */
module SetBuilder {
  import opened Decimal
  import opened Sequences

  datatype SqlValue<V> = Now | Bound(value: V)

  // ---- reading a statement ----

  /** A statement as the database reads it: characters, and numbered parameters. */
  datatype Token = Chr(c: char) | Param(n: nat)

  /** The same with the arguments in place; a number without an argument is Unbound. */
  datatype Piece<V> = Text(c: char) | Value(v: V) | Unbound

  /** How many of the first characters are digits. */
  function DigitRun(s: string): (n: nat)
    ensures n <= |s| && AllDigits(s[..n])
  {
    if s == [] || !IsDigit(s[0]) then 0
    else
      assert forall i | 0 < i < 1 + DigitRun(s[1..]) :: s[i] == s[1..][..DigitRun(s[1..])][i - 1];
      1 + DigitRun(s[1..])
  }

  function Tokens(s: string): seq<Token> {
    if s == [] then []
    else if s[0] == '$' && DigitRun(s[1..]) > 0 then
      var n := DigitRun(s[1..]);
      [Param(Decimal.Value(s[1..][..n]))] + Tokens(s[1 + n..])
    else [Chr(s[0])] + Tokens(s[1..])
  }

  function Bind<V>(tokens: seq<Token>, args: seq<V>): seq<Piece<V>> {
    if tokens == [] then []
    else
      [match tokens[0]
       case Chr(c) => Text(c)
       case Param(n) => if 1 <= n <= |args| then Value(args[n - 1]) else Unbound]
      + Bind(tokens[1..], args)
  }

  /** The numbers of the parameters in the order of the text. */
  function ParamsOf(tokens: seq<Token>): seq<nat> {
    if tokens == [] then []
    else (if tokens[0].Param? then [tokens[0].n] else []) + ParamsOf(tokens[1..])
  }

  function Chars(s: string): seq<Token> {
    if s == [] then [] else [Chr(s[0])] + Chars(s[1..])
  }

  function Texts<V>(s: string): seq<Piece<V>> {
    if s == [] then [] else [Text(s[0])] + Texts(s[1..])
  }

  lemma {:induction false} TokensOfText(a: string, b: string)
    requires '$' !in a
    ensures Tokens(a + b) == Chars(a) + Tokens(b)
  {
    if a == [] {
      assert a + b == b;
    } else {
      TokensOfText(a[1..], b);
      Associates([a[0]], a[1..], b);
      assert a == [a[0]] + a[1..];
      Associates([Chr(a[0])], Chars(a[1..]), Tokens(b));
    }
  }

  predicate StartsWithDigit(s: string) {
    s != [] && IsDigit(s[0])
  }

  lemma {:induction false} DigitRunOf(a: string, b: string)
    requires AllDigits(a) && !StartsWithDigit(b)
    ensures DigitRun(a + b) == |a|
  {
    if a == [] {
      assert a + b == b;
    } else {
      DigitRunOf(a[1..], b);
      assert (a + b)[1..] == a[1..] + b;
    }
  }

  lemma TokensOfParam(n: nat, b: string)
    requires !StartsWithDigit(b)
    ensures Tokens("$" + Show(n) + b) == [Param(n)] + Tokens(b)
  {
    var s := "$" + Show(n) + b;
    assert s[1..] == Show(n) + b;
    DigitRunOf(Show(n), b);
    assert s[1..][..|Show(n)|] == Show(n);
    assert s[1 + |Show(n)|..] == b;
    ValueOfShow(n);
  }

  lemma {:induction false} BindJoins<V>(a: seq<Token>, b: seq<Token>, args: seq<V>)
    ensures Bind(a + b, args) == Bind(a, args) + Bind(b, args)
  {
    if a == [] {
      assert a + b == b;
    } else {
      BindJoins(a[1..], b, args);
      assert (a + b)[1..] == a[1..] + b;
      Associates(Bind(a, args)[..1], Bind(a[1..], args), Bind(b, args));
    }
  }

  lemma {:induction false} BindText<V>(s: string, args: seq<V>)
    ensures Bind(Chars(s), args) == Texts(s)
  {
    if s != [] {
      BindText(s[1..], args);
      assert Chars(s)[1..] == Chars(s[1..]);
    }
  }

  lemma {:induction false} ParamsJoin(a: seq<Token>, b: seq<Token>)
    ensures ParamsOf(a + b) == ParamsOf(a) + ParamsOf(b)
  {
    if a == [] {
      assert a + b == b;
    } else {
      ParamsJoin(a[1..], b);
      ParamsFirst(a[0], a[1..] + b);
      Associates([a[0]], a[1..], b);
      assert a == [a[0]] + a[1..];
      Associates(if a[0].Param? then [a[0].n] else [], ParamsOf(a[1..]), ParamsOf(b));
    }
  }

  lemma ParamsFirst(t: Token, rest: seq<Token>)
    ensures ParamsOf([t] + rest) == (if t.Param? then [t.n] else []) + ParamsOf(rest)
  {
    assert ([t] + rest)[1..] == rest;
  }

  lemma {:induction false} NoParams(s: string)
    ensures ParamsOf(Chars(s)) == []
  {
    if s != [] {
      NoParams(s[1..]);
      assert Chars(s)[1..] == Chars(s[1..]);
    }
  }

  // ---- templates ----

  /** A statement with values still in place of numbers: literal text, or the next value. */
  datatype Slot<V> = Lit(s: string) | Arg(v: V)

  /** The text of a template whose first value gets number idx. */
  function Render<V>(t: seq<Slot<V>>, idx: nat): string {
    if t == [] then ""
    else match t[0]
      case Lit(s) => s + Render(t[1..], idx)
      case Arg(_) => "$" + Show(idx) + Render(t[1..], idx + 1)
  }

  function ArgsOf<V>(t: seq<Slot<V>>): seq<V> {
    if t == [] then [] else (if t[0].Arg? then [t[0].v] else []) + ArgsOf(t[1..])
  }

  function Meaning<V>(t: seq<Slot<V>>): seq<Piece<V>> {
    if t == [] then []
    else (match t[0] case Lit(s) => Texts(s) case Arg(v) => [Value(v)]) + Meaning(t[1..])
  }

  /** Text that cannot be read as part of a parameter. */
  predicate IsPlain(s: string) {
    '$' !in s && !StartsWithDigit(s)
  }

  ghost predicate Clean<V>(t: seq<Slot<V>>) {
    forall i | 0 <= i < |t| && t[i].Lit? :: t[i].s != "" && IsPlain(t[i].s)
  }

  lemma RenderStart<V>(t: seq<Slot<V>>, idx: nat)
    requires Clean(t)
    ensures !StartsWithDigit(Render(t, idx))
  {
  }

  /** first, first + 1, … */
  function Count(first: nat, n: nat): (s: seq<nat>)
    ensures |s| == n && forall i | 0 <= i < n :: s[i] == first + i
    decreases n
  {
    if n == 0 then [] else [first] + Count(first + 1, n - 1)
  }

  /** Reading a rendered template finds the parameters numbered in the order of the text from the
      first number on, and gives every value its place. */
  lemma {:induction false} ReadsBack<V>(t: seq<Slot<V>>, before: seq<V>, args: seq<V>)
    requires Clean(t) && args == before + ArgsOf(t)
    ensures Bind(Tokens(Render(t, |before| + 1)), args) == Meaning(t)
    ensures ParamsOf(Tokens(Render(t, |before| + 1))) == Count(|before| + 1, |ArgsOf(t)|)
  {
    if t != [] {
      var rest := t[1..];
      assert Clean(rest);
      match t[0]
      case Lit(s) =>
        assert args == before + ArgsOf(rest);
        ReadsBack(rest, before, args);
        LiteralReadsBack(s, Render(rest, |before| + 1), args);
      case Arg(v) =>
        assert args == (before + [v]) + ArgsOf(rest);
        ReadsBack(rest, before + [v], args);
        RenderStart(rest, |before| + 2);
        ArgReadsBack(|before| + 1, Render(rest, |before| + 2), args);
        assert args[|before|] == v;
    }
  }

  lemma LiteralReadsBack<V>(s: string, rest: string, args: seq<V>)
    requires '$' !in s
    ensures Bind(Tokens(s + rest), args) == Texts(s) + Bind(Tokens(rest), args)
    ensures ParamsOf(Tokens(s + rest)) == ParamsOf(Tokens(rest))
  {
    TokensOfText(s, rest);
    BindJoins(Chars(s), Tokens(rest), args);
    BindText(s, args);
    ParamsJoin(Chars(s), Tokens(rest));
    NoParams(s);
  }

  lemma ArgReadsBack<V>(n: nat, rest: string, args: seq<V>)
    requires !StartsWithDigit(rest) && 1 <= n <= |args|
    ensures Bind(Tokens("$" + Show(n) + rest), args) == [Value(args[n - 1])] + Bind(Tokens(rest), args)
    ensures ParamsOf(Tokens("$" + Show(n) + rest)) == [n] + ParamsOf(Tokens(rest))
  {
    TokensOfParam(n, rest);
    assert ([Param(n)] + Tokens(rest))[1..] == Tokens(rest);
  }

  lemma RenderText<V>(s: string, rest: seq<Slot<V>>, idx: nat)
    ensures Render([Lit(s)] + rest, idx) == s + Render(rest, idx)
    ensures ArgsOf([Lit(s)] + rest) == ArgsOf(rest)
  {
    assert ([Lit(s)] + rest)[1..] == rest;
  }

  lemma RenderArg<V>(v: V, rest: seq<Slot<V>>, idx: nat)
    ensures Render([Arg(v)] + rest, idx) == "$" + Show(idx) + Render(rest, idx + 1)
    ensures ArgsOf([Arg(v)] + rest) == [v] + ArgsOf(rest)
  {
    assert ([Arg(v)] + rest)[1..] == rest;
  }

  lemma ArgsFirst<V>(t: Slot<V>, rest: seq<Slot<V>>)
    ensures ArgsOf([t] + rest) == (if t.Arg? then [t.v] else []) + ArgsOf(rest)
  {
    assert ([t] + rest)[1..] == rest;
  }

  lemma {:induction false} ArgsJoin<V>(a: seq<Slot<V>>, b: seq<Slot<V>>)
    ensures ArgsOf(a + b) == ArgsOf(a) + ArgsOf(b)
  {
    if a == [] {
      assert a + b == b;
    } else {
      ArgsJoin(a[1..], b);
      ArgsFirst(a[0], a[1..] + b);
      Associates([a[0]], a[1..], b);
      assert a == [a[0]] + a[1..];
      Associates(if a[0].Arg? then [a[0].v] else [], ArgsOf(a[1..]), ArgsOf(b));
    }
  }

  lemma {:induction false} RenderJoins<V>(a: seq<Slot<V>>, b: seq<Slot<V>>, idx: nat)
    ensures Render(a + b, idx) == Render(a, idx) + Render(b, idx + |ArgsOf(a)|)
  {
    if a == [] {
      assert a + b == b;
    } else {
      RenderFirst(a[0], a[1..], b, idx);
      RenderJoins(a[1..], b, if a[0].Arg? then idx + 1 else idx);
      assert [a[0]] + a[1..] == a;
    }
  }

  lemma RenderFirst<V>(first: Slot<V>, rest: seq<Slot<V>>, b: seq<Slot<V>>, idx: nat)
    ensures var next := if first.Arg? then idx + 1 else idx;
            var text := match first case Lit(s) => s case Arg(_) => "$" + Show(idx);
            && Render([first] + rest, idx) == text + Render(rest, next)
            && Render([first] + rest + b, idx) == text + Render(rest + b, next)
            && |ArgsOf([first] + rest)| == |ArgsOf(rest)| + (next - idx)
  {
    assert [first] + rest + b == [first] + (rest + b);
    match first {
      case Lit(s) =>
        RenderText(s, rest, idx);
        RenderText(s, rest + b, idx);
      case Arg(v) =>
        RenderArg(v, rest, idx);
        RenderArg(v, rest + b, idx);
    }
  }

  // ---- the builder's template ----

  function LitOf<V>(s: string): seq<Slot<V>> {
    if s == "" then [] else [Lit(s)]
  }

  function Column<V>(separator: string, col: string, val: SqlValue<V>): seq<Slot<V>> {
    match val
    case Now => [Lit(separator + col + "=now()")]
    case Bound(v) => [Lit(separator + col + "="), Arg(v)]
  }

  function SetTemplate<V>(cols: seq<string>, vals: seq<SqlValue<V>>): seq<Slot<V>>
    requires |cols| == |vals|
  {
    if cols == [] then []
    else
      var n := |cols| - 1;
      SetTemplate(cols[..n], vals[..n]) + Column(if n > 0 then ", " else "", cols[n], vals[n])
  }

  /** A suffix format: the parts with "$%d" between them. */
  function SuffixFormat(parts: seq<string>): string
    requires parts != []
  {
    if |parts| == 1 then parts[0] else parts[0] + "$%d" + SuffixFormat(parts[1..])
  }

  function SuffixTemplate<V>(parts: seq<string>, trailing: seq<V>): seq<Slot<V>>
    requires |parts| == |trailing| + 1
  {
    LitOf(parts[0]) + if trailing == [] then [] else [Arg(trailing[0])] + SuffixTemplate(parts[1..], trailing[1..])
  }

  /** The statement as it is meant: the assignments in the order they were added, then the
      conditions with the trailing values. */
  function StatementTemplate<V>(prefix: string, cols: seq<string>, vals: seq<SqlValue<V>>, parts: seq<string>,
                                trailing: seq<V>)
    : seq<Slot<V>>
    requires |cols| == |vals| && |parts| == |trailing| + 1
  {
    LitOf(prefix) + SetTemplate(cols, vals) + SuffixTemplate(parts, trailing)
  }

  predicate PlainColumns(cols: seq<string>) {
    forall i | 0 <= i < |cols| :: IsPlain(cols[i])
  }

  predicate HasNoPlaceholder(s: string) {
    forall i | 0 <= i < |s| - 1 :: !(s[i] == '%' && s[i + 1] == 'd')
  }

  /** Every "%d" that is to be filled comes before any other: the last part may hold more of them. */
  predicate FillsInOrder(parts: seq<string>) {
    forall i | 0 <= i < |parts| - 1 :: HasNoPlaceholder(parts[i])
  }

  predicate PlainParts(parts: seq<string>) {
    FillsInOrder(parts) && forall i | 0 <= i < |parts| :: IsPlain(parts[i])
  }

  lemma CleanJoins<V>(a: seq<Slot<V>>, b: seq<Slot<V>>)
    requires Clean(a) && Clean(b)
    ensures Clean(a + b)
  {
  }

  lemma {:induction false} SetIsClean<V>(cols: seq<string>, vals: seq<SqlValue<V>>)
    requires |cols| == |vals| && PlainColumns(cols)
    ensures Clean(SetTemplate(cols, vals))
  {
    if cols != [] {
      var n := |cols| - 1;
      SetIsClean(cols[..n], vals[..n]);
      ColumnIsClean(if n > 0 then ", " else "", cols[n], vals[n]);
      CleanJoins(SetTemplate(cols[..n], vals[..n]), Column(if n > 0 then ", " else "", cols[n], vals[n]));
    }
  }

  lemma ColumnIsClean<V>(separator: string, col: string, val: SqlValue<V>)
    requires IsPlain(col) && separator in {"", ", "}
    ensures Clean(Column(separator, col, val))
  {
    assert '$' !in separator + col;
    assert (separator + col + "=")[0] == if separator == "" && col == "" then '=' else (separator + col)[0];
  }

  lemma {:induction false} SuffixIsClean<V>(parts: seq<string>, trailing: seq<V>)
    requires |parts| == |trailing| + 1 && PlainParts(parts)
    ensures Clean(SuffixTemplate(parts, trailing))
  {
    if trailing != [] {
      SuffixIsClean(parts[1..], trailing[1..]);
    }
  }

  // ---- filling the suffix ----

  predicate OccursAt(s: string, pattern: string, p: nat) {
    p + |pattern| <= |s| && s[p..p + |pattern|] == pattern
  }

  ghost predicate FirstAt(s: string, pattern: string, p: nat) {
    OccursAt(s, pattern, p) && forall q: nat | q < p :: !OccursAt(s, pattern, q)
  }

  method ReplaceFirst(s: string, pattern: string, replacement: string) returns (r: string)
    ensures forall p: nat :: FirstAt(s, pattern, p) ==> r == s[..p] + replacement + s[p + |pattern|..]
    ensures (forall p: nat :: !OccursAt(s, pattern, p)) ==> r == s
  {
    var i := 0;
    while i + |pattern| <= |s|
      invariant forall q: nat | q < i :: !OccursAt(s, pattern, q)
    {
      if s[i..i + |pattern|] == pattern {
        assert OccursAt(s, pattern, i);
        return s[..i] + replacement + s[i + |pattern|..];
      }
      i := i + 1;
    }
    return s;
  }

  /** The suffix with its first j numbers filled in, from idx on. */
  function Filled(parts: seq<string>, idx: nat, j: nat): string
    requires j < |parts|
  {
    if j == 0 then SuffixFormat(parts) else parts[0] + "$" + Show(idx) + Filled(parts[1..], idx + 1, j - 1)
  }

  /** No "%d" in s, nor one that begins in it. */
  predicate PassedOver(s: string) {
    HasNoPlaceholder(s) && (s != "" ==> s[|s| - 1] != '%')
  }

  lemma PassedPart(part: string, idx: nat)
    requires HasNoPlaceholder(part)
    ensures PassedOver(part + "$") && PassedOver(part + "$" + Show(idx))
  {
    var number := part + "$" + Show(idx);
    NoPercentInDigits(idx);
    forall i | 0 <= i < |number| - 1 ensures !(number[i] == '%' && number[i + 1] == 'd') {
      assert i >= |part| + 1 ==> number[i] == Show(idx)[i - |part| - 1];
      assert i + 1 < |part| ==> number[i] == part[i] && number[i + 1] == part[i + 1];
    }
    assert number[|number| - 1] == Show(idx)[|Show(idx)| - 1];
  }

  lemma ShiftFirst(a: string, s: string, p: nat)
    requires PassedOver(a) && FirstAt(s, "%d", p)
    ensures FirstAt(a + s, "%d", |a| + p)
  {
    var w := a + s;
    assert w[|a| + p..|a| + p + 2] == s[p..p + 2];
    forall q: nat | q < |a| + p ensures !OccursAt(w, "%d", q) {
      if q >= |a| {
        assert !OccursAt(s, "%d", q - |a|);
        assert q + 2 <= |w| ==> w[q..q + 2] == s[q - |a|..q - |a| + 2];
      } else {
        assert w[q] == a[q] && (q + 1 < |a| ==> w[q + 1] == a[q + 1]);
        assert q + 2 <= |w| ==> w[q..q + 2][0] == w[q] && w[q..q + 2][1] == w[q + 1];
      }
    }
  }

  lemma NoPercentInDigits(n: nat)
    ensures '%' !in Show(n)
  {
  }

  /** At p stands the first "%d" of s, and s with number there is t. */
  ghost predicate FillsTo(s: string, p: nat, number: nat, t: string) {
    FirstAt(s, "%d", p) && s[..p] + Show(number) + s[p + 2..] == t
  }

  ghost predicate Fills(s: string, number: nat, t: string) {
    exists p: nat :: FillsTo(s, p, number, t)
  }

  lemma FillsShifted(before: string, s: string, p: nat, number: nat, t: string)
    requires PassedOver(before) && FillsTo(s, p, number, t)
    ensures FillsTo(before + s, |before| + p, number, before + t)
  {
    ShiftFirst(before, s, p);
    assert (before + s)[..|before| + p] == before + s[..p] && (before + s)[|before| + p + 2..] == s[p + 2..];
  }

  lemma FillFirst(parts: seq<string>, idx: nat)
    requires 1 < |parts| && FillsInOrder(parts)
    ensures FillsTo(Filled(parts, idx, 0), |parts[0]| + 1, idx, Filled(parts, idx, 1))
  {
    var rest := SuffixFormat(parts[1..]);
    assert FillsTo("%d" + rest, 0, idx, Show(idx) + rest);
    PassedPart(parts[0], idx);
    FillsShifted(parts[0] + "$", "%d" + rest, 0, idx, Show(idx) + rest);
    assert parts[0] + "$%d" + rest == parts[0] + "$" + ("%d" + rest);
    assert parts[0] + "$" + Show(idx) + rest == parts[0] + "$" + (Show(idx) + rest);
  }

  /** Replacing the first "%d" fills in the next number. */
  lemma {:induction false} FillNext(parts: seq<string>, idx: nat, j: nat)
    requires j + 1 < |parts| && FillsInOrder(parts)
    ensures Fills(Filled(parts, idx, j), idx + j, Filled(parts, idx, j + 1))
  {
    if j == 0 {
      FillFirst(parts, idx);
    } else {
      FillNext(parts[1..], idx + 1, j - 1);
      PassedPart(parts[0], idx);
      FillsBehind(parts[0] + "$" + Show(idx), Filled(parts[1..], idx + 1, j - 1),
                  idx + j, Filled(parts[1..], idx + 1, j));
    }
  }

  lemma FillsBehind(before: string, s: string, number: nat, t: string)
    requires PassedOver(before) && Fills(s, number, t)
    ensures Fills(before + s, number, before + t)
  {
    var p: nat :| FillsTo(s, p, number, t);
    FillsShifted(before, s, p, number, t);
  }

  lemma {:induction false} FilledIsRendered<V>(parts: seq<string>, trailing: seq<V>, idx: nat)
    requires |parts| == |trailing| + 1
    ensures Filled(parts, idx, |trailing|) == Render(SuffixTemplate(parts, trailing), idx)
    ensures ArgsOf(SuffixTemplate(parts, trailing)) == trailing
  {
    if trailing == [] {
      RenderLit<V>(parts[0], [], idx);
      assert LitOf<V>(parts[0]) + [] == LitOf<V>(parts[0]);
    } else {
      var rest := SuffixTemplate(parts[1..], trailing[1..]);
      FilledIsRendered(parts[1..], trailing[1..], idx + 1);
      RenderArg(trailing[0], rest, idx);
      RenderLit(parts[0], [Arg(trailing[0])] + rest, idx);
      assert trailing == [trailing[0]] + trailing[1..];
    }
  }

  lemma RenderLit<V>(s: string, rest: seq<Slot<V>>, idx: nat)
    ensures Render(LitOf(s) + rest, idx) == s + Render(rest, idx)
    ensures ArgsOf(LitOf(s) + rest) == ArgsOf(rest)
  {
    if s == "" {
      assert LitOf<V>(s) + rest == rest;
    } else {
      assert ([Lit(s)] + rest)[1..] == rest;
    }
  }

  method FillSuffix<V>(parts: seq<string>, trailing: seq<V>, idx: nat) returns (suffix: string)
    requires |parts| == |trailing| + 1 && FillsInOrder(parts)
    ensures suffix == Render(SuffixTemplate(parts, trailing), idx)
  {
    suffix := SuffixFormat(parts);
    for j := 0 to |trailing|
      invariant suffix == Filled(parts, idx, j)
    {
      FillNext(parts, idx, j);
      suffix := ReplaceFirst(suffix, "%d", Show(idx + j));
    }
    FilledIsRendered(parts, trailing, idx);
  }

  class UserSetBuilder<V> {
    var cols: seq<string>
    var vals: seq<SqlValue<V>>

    ghost predicate Valid()
      reads this
    {
      |cols| == |vals|
    }

    constructor ()
      ensures Valid() && cols == []
    {
      cols, vals := [], [];
    }

    method Add(col: string, val: SqlValue<V>)
      requires Valid()
      modifies this
      ensures Valid() && cols == old(cols) + [col] && vals == old(vals) + [val]
    {
      cols, vals := cols + [col], vals + [val];
    }

    /** No column but those set to the current time. */
    method IsEmpty() returns (r: bool)
      requires Valid()
      ensures r <==> ArgsOf(SetTemplate(cols, vals)) == []
    {
      for i := 0 to |vals|
        invariant ArgsOf(SetTemplate(cols[..i], vals[..i])) == []
      {
        SetNext(cols, vals, i);
        if vals[i].Bound? {
          SomeArgStays(cols, vals, i + 1);
          return false;
        }
      }
      assert cols[..|vals|] == cols && vals[..|vals|] == vals;
      return true;
    }

    method Build(prefix: string, parts: seq<string>, trailing: seq<V>) returns (statement: string, args: seq<V>)
      requires Valid() && |parts| == |trailing| + 1
      requires IsPlain(prefix) && PlainColumns(cols) && PlainParts(parts)
      ensures var t := StatementTemplate(prefix, cols, vals, parts, trailing);
              && Bind(Tokens(statement), args) == Meaning(t) && args == ArgsOf(t)
              && ParamsOf(Tokens(statement)) == Count(1, |args|)
    {
      var q, bound := BuildSet(prefix);
      var suffix := FillSuffix(parts, trailing, |bound| + 1);
      StatementIs(prefix, cols, vals, parts, trailing);
      args := bound + trailing;
      statement := q + suffix;
    }

    method BuildSet(prefix: string) returns (q: string, args: seq<V>)
      requires Valid()
      ensures q == prefix + Render(SetTemplate(cols, vals), 1) && args == ArgsOf(SetTemplate(cols, vals))
    {
      q, args := prefix, [];
      var idx := 1;
      for i := 0 to |cols|
        invariant q == prefix + Render(SetTemplate(cols[..i], vals[..i]), 1)
        invariant args == ArgsOf(SetTemplate(cols[..i], vals[..i])) && idx == |args| + 1
      {
        SetNext(cols, vals, i);
        TextNext(prefix, cols, vals, i);
        if i > 0 {
          q := q + ", ";
        }
        if vals[i].Now? {
          q := q + cols[i] + "=now()";
        } else {
          q := q + cols[i] + "=$" + Show(idx);
          args := args + [vals[i].value];
          idx := idx + 1;
        }
      }
      assert cols[..|cols|] == cols && vals[..|cols|] == vals;
    }
  }

  lemma SetNext<V>(cols: seq<string>, vals: seq<SqlValue<V>>, i: nat)
    requires |cols| == |vals| && i < |cols|
    ensures var before, after := SetTemplate(cols[..i], vals[..i]), SetTemplate(cols[..i + 1], vals[..i + 1]);
            var separator := if i > 0 then ", " else "";
            && Render(after, 1) == Render(before, 1)
                 + (separator + cols[i] + if vals[i].Now? then "=now()" else "=$" + Show(|ArgsOf(before)| + 1))
            && ArgsOf(after) == ArgsOf(before) + if vals[i].Now? then [] else [vals[i].value]
  {
    var before := SetTemplate(cols[..i], vals[..i]);
    var separator := if i > 0 then ", " else "";
    assert cols[..i + 1][..i] == cols[..i] && vals[..i + 1][..i] == vals[..i];
    RenderJoins(before, Column(separator, cols[i], vals[i]), 1);
    ArgsJoin(before, Column(separator, cols[i], vals[i]));
    RenderColumn(separator, cols[i], vals[i], 1 + |ArgsOf(before)|);
  }

  lemma TextNext<V>(prefix: string, cols: seq<string>, vals: seq<SqlValue<V>>, i: nat)
    requires |cols| == |vals| && i < |cols|
    ensures var before, after := SetTemplate(cols[..i], vals[..i]), SetTemplate(cols[..i + 1], vals[..i + 1]);
            var q := prefix + Render(before, 1) + if i > 0 then ", " else "";
            && (i == 0 ==> q == prefix + Render(before, 1))
            && (vals[i].Now? ==> prefix + Render(after, 1) == q + cols[i] + "=now()")
            && (vals[i].Bound? ==> prefix + Render(after, 1) == q + cols[i] + "=$" + Show(|ArgsOf(before)| + 1))
  {
    SetNext(cols, vals, i);
    var before := SetTemplate(cols[..i], vals[..i]);
    var separator := if i > 0 then ", " else "";
    var number := Show(|ArgsOf(before)| + 1);
    Regroup(prefix, Render(before, 1), separator, cols[i], "=now()", "");
    Regroup(prefix, Render(before, 1), separator, cols[i], "=$", number);
  }

  lemma Regroup(a: string, b: string, c: string, d: string, e: string, f: string)
    ensures a + (b + (c + d + (e + f))) == a + b + c + d + e + f
    ensures a + (b + (c + d + e)) == a + b + c + d + e
    ensures a + b + "" == a + b
  {
  }

  lemma RenderColumn<V>(separator: string, col: string, val: SqlValue<V>, idx: nat)
    ensures Render(Column(separator, col, val), idx)
            == separator + col + if val.Now? then "=now()" else "=$" + Show(idx)
    ensures ArgsOf(Column(separator, col, val)) == if val.Now? then [] else [val.value]
  {
    match val
    case Now =>
      RenderText<V>(separator + col + "=now()", [], idx);
      assert Column(separator, col, val) == [Lit(separator + col + "=now()")] + [];
    case Bound(v) =>
      RenderText(separator + col + "=", [Arg(v)], idx);
      RenderArg(v, [], idx);
      assert [Arg(v)] == [Arg(v)] + [];
      assert Column(separator, col, val) == [Lit(separator + col + "=")] + [Arg(v)];
  }

  lemma {:induction false} SomeArgStays<V>(cols: seq<string>, vals: seq<SqlValue<V>>, i: nat)
    requires |cols| == |vals| && i <= |cols| && ArgsOf(SetTemplate(cols[..i], vals[..i])) != []
    ensures ArgsOf(SetTemplate(cols, vals)) != []
    decreases |cols| - i
  {
    if i < |cols| {
      SetNext(cols, vals, i);
      SomeArgStays(cols, vals, i + 1);
    } else {
      assert cols[..i] == cols && vals[..i] == vals;
    }
  }

  /** Reading the built statement back with its arguments gives the assignments and conditions
      meant. */
  lemma StatementIs<V>(prefix: string, cols: seq<string>, vals: seq<SqlValue<V>>, parts: seq<string>, trailing: seq<V>)
    requires |cols| == |vals| && |parts| == |trailing| + 1
    requires IsPlain(prefix) && PlainColumns(cols) && PlainParts(parts)
    ensures var t := StatementTemplate(prefix, cols, vals, parts, trailing);
            var setArgs := ArgsOf(SetTemplate(cols, vals));
            var text := prefix + Render(SetTemplate(cols, vals), 1)
                        + Render(SuffixTemplate(parts, trailing), |setArgs| + 1);
            && ArgsOf(t) == setArgs + trailing
            && Bind(Tokens(text), ArgsOf(t)) == Meaning(t)
            && ParamsOf(Tokens(text)) == Count(1, |ArgsOf(t)|)
  {
    var t := StatementTemplate(prefix, cols, vals, parts, trailing);
    StatementIsClean(prefix, cols, vals, parts, trailing);
    StatementRenders(prefix, cols, vals, parts, trailing);
    ReadsBack(t, [], ArgsOf(t));
  }

  lemma StatementIsClean<V>(prefix: string, cols: seq<string>, vals: seq<SqlValue<V>>, parts: seq<string>,
                            trailing: seq<V>)
    requires |cols| == |vals| && |parts| == |trailing| + 1
    requires IsPlain(prefix) && PlainColumns(cols) && PlainParts(parts)
    ensures Clean(StatementTemplate(prefix, cols, vals, parts, trailing))
  {
    SetIsClean(cols, vals);
    SuffixIsClean(parts, trailing);
    CleanJoins(LitOf(prefix), SetTemplate(cols, vals));
    CleanJoins(LitOf(prefix) + SetTemplate(cols, vals), SuffixTemplate(parts, trailing));
  }

  lemma StatementRenders<V>(prefix: string, cols: seq<string>, vals: seq<SqlValue<V>>, parts: seq<string>,
                            trailing: seq<V>)
    requires |cols| == |vals| && |parts| == |trailing| + 1
    ensures var t := StatementTemplate(prefix, cols, vals, parts, trailing);
            var setArgs := ArgsOf(SetTemplate(cols, vals));
            && ArgsOf(t) == setArgs + trailing
            && Render(t, 1)
               == prefix + Render(SetTemplate(cols, vals), 1) + Render(SuffixTemplate(parts, trailing), |setArgs| + 1)
  {
    RenderLit(prefix, SetTemplate(cols, vals), 1);
    RenderJoins(LitOf(prefix) + SetTemplate(cols, vals), SuffixTemplate(parts, trailing), 1);
    ArgsJoin(LitOf(prefix) + SetTemplate(cols, vals), SuffixTemplate(parts, trailing));
    FilledIsRendered(parts, trailing, 1);
  }

  /** The text of an update of two columns, the second by the clock, with one condition. */
  lemma StatementExample<V>(prefix: string, first: string, second: string, condition: string, a: V, id: V)
    requires prefix != "" && condition != ""
    ensures var t := StatementTemplate(prefix, [first, second], [Bound(a), Now], [condition, ""], [id]);
            && Render(t, 1) == prefix + (first + "=") + "$1" + (", " + second + "=now()") + condition + "$2"
            && ArgsOf(t) == [a, id]
  {
    TwoColumns(first, second, a);
    OneCondition(condition, id);
    RenderSix(prefix, first + "=", a, ", " + second + "=now()", condition, id);
  }

  lemma TwoColumns<V>(first: string, second: string, a: V)
    ensures SetTemplate([first, second], [Bound(a), Now])
            == [Lit(first + "="), Arg(a), Lit(", " + second + "=now()")]
  {
    var cols, vals := [first, second], [Bound(a), Now];
    OneColumn(first, Bound(a));
    assert cols[..1] == [first] && vals[..1] == [Bound(a)];
    assert "" + first == first;
  }

  lemma OneColumn<V>(col: string, val: SqlValue<V>)
    ensures SetTemplate([col], [val]) == Column("", col, val)
  {
    assert [col][..0] == [] && [val][..0] == [];
    assert SetTemplate<V>([], []) == [];
  }

  lemma OneCondition<V>(condition: string, id: V)
    requires condition != ""
    ensures SuffixTemplate([condition, ""], [id]) == [Lit(condition), Arg(id)]
  {
    assert [condition, ""][1..] == [""] && [id][1..] == [];
    assert SuffixTemplate<V>([""], []) == [];
  }

  lemma RenderSix<V>(p: string, q: string, a: V, r: string, s: string, b: V)
    requires p != ""
    ensures var t := LitOf(p) + [Lit(q), Arg(a), Lit(r)] + [Lit(s), Arg(b)];
            Render(t, 1) == p + q + "$1" + r + s + "$2" && ArgsOf(t) == [a, b]
  {
    var t5: seq<Slot<V>> := [Arg(b)];
    var t4 := [Lit(s)] + t5;
    var t3 := [Lit(r)] + t4;
    var t2 := [Arg(a)] + t3;
    var t1 := [Lit(q)] + t2;
    assert LitOf(p) + [Lit(q), Arg(a), Lit(r)] + [Lit(s), Arg(b)] == [Lit(p)] + t1;
    RenderArg(b, [], 2);
    assert [Arg(b)] + [] == t5;
    RenderText(s, t5, 2);
    RenderText(r, t4, 2);
    RenderArg(a, t3, 1);
    RenderText(q, t2, 1);
    RenderText(p, t1, 1);
    assert Show(1) == "1" && Show(2) == "2";
    assert p + (q + ("$" + "1" + (r + (s + ("$" + "2" + ""))))) == p + q + "$1" + r + s + "$2";
  }
}
