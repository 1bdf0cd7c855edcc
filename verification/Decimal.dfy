/** Decimal text of integers, as strconv.Itoa, fmt's %d and strconv.ParseInt treat it. */
module Decimal {
  import opened Wrappers

  const MIN_INT64: int := -0x8000_0000_0000_0000
  const MAX_INT64: int := 0x7FFF_FFFF_FFFF_FFFF

  predicate IsDigit(c: char) {
    '0' <= c <= '9'
  }

  predicate AllDigits(s: string) {
    forall i | 0 <= i < |s| :: IsDigit(s[i])
  }

  function DigitValue(c: char): nat
    requires IsDigit(c)
  {
    (c as int) - ('0' as int)
  }

  /** The decimal digits of n, most significant first. */
  function Show(n: nat): (s: string)
    ensures s != [] && AllDigits(s)
  {
    if n < 10 then [n as char + '0'] else Show(n / 10) + [(n % 10) as char + '0']
  }

  /** The number a run of decimal digits denotes. */
  function Value(s: string): nat
    requires AllDigits(s)
  {
    if s == [] then 0 else 10 * Value(s[..|s| - 1]) + DigitValue(s[|s| - 1])
  }

  lemma {:induction false} ValueOfShow(n: nat)
    ensures Value(Show(n)) == n
  {
    if n >= 10 {
      ValueOfShow(n / 10);
      assert Show(n)[..|Show(n)| - 1] == Show(n / 10);
    }
  }

  lemma ShowInjective(m: nat, n: nat)
    requires Show(m) == Show(n)
    ensures m == n
  {
    ValueOfShow(m);
    ValueOfShow(n);
  }

  /** strconv.Itoa. */
  function Itoa(n: int): string {
    if n < 0 then "-" + Show(-n) else Show(n)
  }

  lemma ItoaInjective(m: int, n: int)
    requires Itoa(m) == Itoa(n)
    ensures m == n
  {
    assert (Itoa(m)[0] == '-') == (m < 0) by {
      assert m >= 0 ==> IsDigit(Show(m)[0]);
    }
    assert (Itoa(n)[0] == '-') == (n < 0) by {
      assert n >= 0 ==> IsDigit(Show(n)[0]);
    }
    if m < 0 {
      assert Itoa(m)[1..] == Show(-m) && Itoa(n)[1..] == Show(-n);
      ShowInjective(-m, -n);
    } else {
      ShowInjective(m, n);
    }
  }

  /** strconv.ParseInt(s, 10, 64): an optional sign, at least one digit, and a value in range. */
  function ParseInt64(s: string): Option<int> {
    if s == [] then None
    else
      var signed := s[0] == '+' || s[0] == '-';
      var digits := if signed then s[1..] else s;
      if digits == [] || !AllDigits(digits) then None
      else
        var magnitude: int := Value(digits);
        var n := if s[0] == '-' then -magnitude else magnitude;
        if MIN_INT64 <= n <= MAX_INT64 then Some(n) else None
  }

  /** Every non-negative 64-bit integer is read back from its own decimal text. */
  lemma ParseShow(n: nat)
    requires n <= MAX_INT64
    ensures ParseInt64(Show(n)) == Some(n)
  {
    ValueOfShow(n);
    assert IsDigit(Show(n)[0]);
  }
}
