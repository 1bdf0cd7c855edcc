/** Durations as settings text: "30m", "1d" and the like. */
module Durations {
  import opened Arithmetic
  import opened Decimal
  import opened Wrappers

  /** Nanoseconds, as time.Duration counts them. */
  const SECOND: int := 1_000_000_000
  const MINUTE: int := 60_000_000_000
  const HOUR: int := 3_600_000_000_000
  const DAY: int := 86_400_000_000_000
  const WEEK: int := 604_800_000_000_000

  /** Go's integer division, which truncates. */
  function Quot(d: int, unit: int): int
    requires unit > 0
  {
    if d >= 0 then d / unit else -((-d) / unit)
  }

  function Text(d: int): string {
    if d == 0 then "0"
    else if d % DAY == 0 then Itoa(Quot(d, DAY)) + "d"
    else if d % HOUR == 0 then Itoa(Quot(d, HOUR)) + "h"
    else if d % MINUTE == 0 then Itoa(Quot(d, MINUTE)) + "m"
    else Itoa(Quot(d, SECOND)) + "s"
  }

  function Unit(c: char): Option<int> {
    match c
    case 'w' => Some(WEEK)
    case 'd' => Some(DAY)
    case 'h' => Some(HOUR)
    case 'm' => Some(MINUTE)
    case 's' => Some(SECOND)
    case _ => None
  }

  /** A whole number of one unit: an optional minus sign, digits, and a letter; or "0". */
  function ParseWhole(s: string): Option<int> {
    if s == "0" then Some(0)
    else if s == "" then None
    else
      var number, unit := s[..|s| - 1], Unit(s[|s| - 1]);
      var digits := if number != "" && number[0] == '-' then number[1..] else number;
      if unit == None || digits == "" || !AllDigits(digits) then None
      else
        var magnitude: int := Value(digits);
        var n := (if number[0] == '-' then -magnitude else magnitude) * unit.value;
        if MIN_INT64 <= n <= MAX_INT64 then Some(n) else None
  }

  /** Parsing a duration. Everything that is not a whole number of one unit (fractions, compound
      forms such as "1h30m", other units) is left to the library: other. */
  function Parse(other: string -> Option<int>, s: string): Option<int> {
    if s == "" then None
    else match ParseWhole(s) case Some(d) => Some(d) case None => other(s)
  }

  lemma DigitsOfItoa(n: int)
    ensures var number := Itoa(n);
            && number != "" && (number[0] == '-' <==> n < 0)
            && (n >= 0 ==> AllDigits(number) && Value(number) == n)
            && (n < 0 ==> AllDigits(number[1..]) && number[1..] != "" && Value(number[1..]) == -n)
  {
    if n < 0 {
      assert Itoa(n)[1..] == Show(-n);
      ValueOfShow(-n);
    } else {
      assert IsDigit(Show(n)[0]);
      ValueOfShow(n);
    }
  }

  /** Reading a printed number of some unit. */
  lemma WholeReadsBack(n: int, c: char)
    requires Unit(c).Some? && MIN_INT64 <= n * Unit(c).value <= MAX_INT64
    ensures ParseWhole(Itoa(n) + [c]) == Some(n * Unit(c).value)
  {
    var s := Itoa(n) + [c];
    DigitsOfItoa(n);
    assert s[..|s| - 1] == Itoa(n) && s[|s| - 1] == c;
  }

  lemma QuotExact(d: int, unit: int)
    requires unit > 0
    ensures d % unit == 0 <==> Quot(d, unit) * unit == d
  {
    if d >= 0 {
      assert d == (d / unit) * unit + d % unit;
    } else {
      var e := -d;
      assert e == (e / unit) * unit + e % unit;
      assert Quot(d, unit) * unit == -((e / unit) * unit);
      NegatedRemainder(d, unit);
    }
  }

  lemma NegatedRemainder(d: int, unit: int)
    requires unit > 0
    ensures d % unit == 0 <==> (-d) % unit == 0
  {
    MultipleIff(d, unit);
    MultipleIff(-d, unit);
    if k :| d == k * unit {
      assert -d == (-k) * unit;
    }
    if k :| -d == k * unit {
      assert d == (-k) * unit;
    }
  }

  lemma MultipleIff(d: int, unit: int)
    requires unit > 0
    ensures d % unit == 0 <==> exists k :: d == k * unit
  {
    assert d == (d / unit) * unit + d % unit;
    if k :| d == k * unit {
      var r := (k - d / unit);
      assert r * unit == k * unit - (d / unit) * unit;
    }
  }

  /** The printed unit: how many nanoseconds its number is multiplied with. */
  function PrintedUnit(d: int): int {
    if d % DAY == 0 then DAY else if d % HOUR == 0 then HOUR else if d % MINUTE == 0 then MINUTE else SECOND
  }

  lemma TextReads(d: int)
    requires MIN_INT64 <= d <= MAX_INT64
    ensures ParseWhole(Text(d)) == Some(Quot(d, PrintedUnit(d)) * PrintedUnit(d))
  {
    var unit := PrintedUnit(d);
    if d != 0 {
      WholeReadsBack(Quot(d, unit),
                     if unit == DAY then 'd' else if unit == HOUR then 'h' else if unit == MINUTE then 'm' else 's');
    }
  }

  /** Printing and parsing a duration gives it back exactly when it is a whole number of seconds. */
  lemma PrintParse(other: string -> Option<int>, d: int)
    requires MIN_INT64 <= d <= MAX_INT64
    ensures Parse(other, Text(d)) == Some(d) <==> d % SECOND == 0
  {
    TextReads(d);
    QuotExact(d, PrintedUnit(d));
    assert Text(d) != "";
  }

  /** The units a text may name, in seconds. */
  lemma UnitsAre(n: int)
    requires MIN_INT64 <= n * 604_800_000_000_000 <= MAX_INT64
    ensures ParseWhole(Itoa(n) + "s") == Some(n * 1_000_000_000)
    ensures ParseWhole(Itoa(n) + "m") == ParseWhole(Itoa(60 * n) + "s")
    ensures ParseWhole(Itoa(n) + "h") == ParseWhole(Itoa(60 * n) + "m")
    ensures ParseWhole(Itoa(n) + "d") == ParseWhole(Itoa(24 * n) + "h")
    ensures ParseWhole(Itoa(n) + "w") == ParseWhole(Itoa(7 * n) + "d")
  {
    WholeReadsBack(n, 's');
    assert Itoa(n) + "s" == Itoa(n) + ['s'];
    SameReading(n, 'm', 60 * n, 's');
    SameReading(n, 'h', 60 * n, 'm');
    SameReading(n, 'd', 24 * n, 'h');
    SameReading(n, 'w', 7 * n, 'd');
  }

  lemma SameReading(m: int, c: char, n: int, d: char)
    requires Unit(c).Some? && Unit(d).Some? && m * Unit(c).value == n * Unit(d).value
    requires MIN_INT64 <= m * Unit(c).value <= MAX_INT64
    ensures ParseWhole(Itoa(m) + [c]) == ParseWhole(Itoa(n) + [d])
  {
    WholeReadsBack(m, c);
    WholeReadsBack(n, d);
  }

  /** The largest unit that fits is printed, days at most. */
  lemma TextsAre()
    ensures Text(0) == "0" && Text(45 * SECOND) == "45s" && Text(90 * MINUTE) == "90m" && Text(36 * HOUR) == "36h"
    ensures Text(WEEK) == "7d" && Text(-2 * HOUR) == "-2h"
  {
    ShowTwo(4, 5);
    ShowTwo(9, 0);
    ShowTwo(3, 6);
    assert Show(7) == "7" && Show(2) == "2";
  }

  lemma ShowTwo(a: nat, b: nat)
    requires 0 < a < 10 && b < 10
    ensures Show(10 * a + b) == [a as char + '0', b as char + '0']
  {
  }
}
