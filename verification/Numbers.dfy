/** Powers of two, and decimal numerals as the program prints and parses them. */
module Numbers {
  import opened Collections

  const U64_LIMIT: nat := 0x1_0000_0000_0000_0000

  function Pow2(n: nat): (p: nat)
    ensures p >= 1
  {
    if n == 0 then 1 else 2 * Pow2(n - 1)
  }

  predicate IsDigit(c: char) {
    '0' <= c <= '9'
  }

  ghost predicate AllDigits(s: string) {
    forall i :: 0 <= i < |s| ==> IsDigit(s[i])
  }

  function DigitValue(c: char): (d: nat)
    requires IsDigit(c)
    ensures d < 10 && "0123456789"[d] == c
  {
    (c - '0') as int
  }

  function DigitChar(d: nat): (c: char)
    requires d < 10
    ensures IsDigit(c) && DigitValue(c) == d
  {
    '0' + d as char
  }

  function ToDecimal(n: nat): string {
    if n < 10 then [DigitChar(n)] else ToDecimal(n / 10) + [DigitChar(n % 10)]
  }

  function FormatInt(i: int): string {
    if i < 0 then "-" + ToDecimal(-i) else ToDecimal(i)
  }

  /** The value of a digit string; None if some character is not a digit. */
  function DigitsValue(s: string): Option<nat> {
    if s == "" then Some(0)
    else if !IsDigit(Last(s)) then None
    else match DigitsValue(Front(s))
      case None => None
      case Some(v) => Some(10 * v + DigitValue(Last(s)))
  }

  /** Parsing an unsigned 64-bit integer: an optional plus sign, at least one digit, in range. */
  function ParseU64(s: string): Option<nat> {
    var digits := if s != "" && s[0] == '+' then s[1..] else s;
    if digits == "" then None
    else match DigitsValue(digits)
      case None => None
      case Some(v) => if v < U64_LIMIT then Some(v) else None
  }

  lemma {:induction false} DecimalRoundTrip(n: nat)
    ensures ToDecimal(n) != "" && AllDigits(ToDecimal(n))
    ensures DigitsValue(ToDecimal(n)) == Some(n)
  {
    if n < 10 {
      assert Front(ToDecimal(n)) == "";
    } else {
      DecimalRoundTrip(n / 10);
      assert Front(ToDecimal(n)) == ToDecimal(n / 10);
    }
  }

  /** Parsing undoes printing for every number that fits. */
  lemma ParseU64OfDecimal(n: nat)
    ensures ParseU64(ToDecimal(n)) == if n < U64_LIMIT then Some(n) else None
  {
    DecimalRoundTrip(n);
    assert IsDigit(ToDecimal(n)[0]);
  }

  function Zeros(n: nat): string {
    seq(n, _ => '0')
  }

  /** A decimal numeral for `v`: its printed form, possibly after leading zeros. */
  ghost predicate Numeral(s: string, v: nat) {
    exists n: nat :: s == Zeros(n) + ToDecimal(v)
  }

  /** What denotes `v` as an unsigned 64-bit integer: a numeral, possibly after a plus sign. */
  ghost predicate DenotesU64(s: string, v: nat) {
    && v < U64_LIMIT
    && (Numeral(s, v) || (s != "" && s[0] == '+' && Numeral(s[1..], v)))
  }

  lemma {:induction false} LeadingZeros(n: nat, d: string)
    requires AllDigits(d)
    ensures DigitsValue(Zeros(n) + d) == DigitsValue(d)
    decreases |d|, n
  {
    var s := Zeros(n) + d;
    if d != "" {
      assert Front(s) == Zeros(n) + Front(d) && Last(s) == Last(d);
      LeadingZeros(n, Front(d));
    } else if n > 0 {
      assert Front(s) == Zeros(n - 1) + "" && Last(s) == '0';
      LeadingZeros(n - 1, "");
    }
  }

  lemma ToDecimalAppend(u: nat, d: nat)
    requires d < 10
    ensures ToDecimal(10 * u + d) == if u == 0 then [DigitChar(d)] else ToDecimal(u) + [DigitChar(d)]
  {
  }

  lemma NumeralAppend(s: string, u: nat, d: nat)
    requires d < 10 && Numeral(s, u)
    ensures Numeral(s + [DigitChar(d)], 10 * u + d)
  {
    ToDecimalAppend(u, d);
    var n: nat :| s == Zeros(n) + ToDecimal(u);
    if u == 0 {
      assert s + [DigitChar(d)] == Zeros(n + 1) + ToDecimal(10 * u + d);
    } else {
      assert s + [DigitChar(d)] == Zeros(n) + ToDecimal(10 * u + d);
    }
  }

  lemma {:induction false} DigitsAreNumeral(s: string)
    requires s != "" && DigitsValue(s).Some?
    ensures Numeral(s, DigitsValue(s).value)
  {
    var f, c := Front(s), Last(s);
    assert s == f + [c] && DigitChar(DigitValue(c)) == c;
    if f == "" {
      assert s == Zeros(0) + ToDecimal(DigitsValue(s).value);
    } else {
      DigitsAreNumeral(f);
      hide Numeral;
      NumeralAppend(f, DigitsValue(f).value, DigitValue(c));
    }
  }

  lemma NumeralDigits(s: string, v: nat)
    ensures Numeral(s, v) <==> s != "" && DigitsValue(s) == Some(v)
    ensures Numeral(s, v) ==> s[0] != '+'
  {
    if n: nat :| s == Zeros(n) + ToDecimal(v) {
      DecimalRoundTrip(v);
      LeadingZeros(n, ToDecimal(v));
      assert s[0] == if n > 0 then '0' else ToDecimal(v)[0];
    }
    if s != "" && DigitsValue(s) == Some(v) {
      DigitsAreNumeral(s);
    }
  }

  /** Parsing accepts exactly the texts that denote a 64-bit integer, with the value denoted. */
  lemma ParseU64Exact(s: string, v: nat)
    ensures ParseU64(s) == Some(v) <==> DenotesU64(s, v)
  {
    hide DigitsValue, Numeral;
    NumeralDigits(s, v);
    if s != "" && s[0] == '+' {
      NumeralDigits(s[1..], v);
    }
  }

  function Pow10(n: nat): nat {
    if n == 0 then 1 else 10 * Pow10(n - 1)
  }

  /** The value of a digit string by the place of each digit, from the left. */
  ghost function PlaceValue(s: string): nat
    requires AllDigits(s)
  {
    if s == "" then 0 else DigitValue(s[0]) * Pow10(|s| - 1) + PlaceValue(s[1..])
  }

  lemma {:induction false} PlaceValueAppend(s: string, c: char)
    requires AllDigits(s) && IsDigit(c)
    ensures AllDigits(s + [c]) && PlaceValue(s + [c]) == 10 * PlaceValue(s) + DigitValue(c)
  {
    var t := s + [c];
    if s == "" {
      assert t[1..] == "" && Pow10(0) == 1;
    } else {
      assert t[1..] == s[1..] + [c];
      PlaceValueAppend(s[1..], c);
      TenTimes(DigitValue(s[0]), |s| - 1);
      hide Pow10, IsDigit;
    }
  }

  lemma TenTimes(d: nat, n: nat)
    ensures d * Pow10(n + 1) == 10 * (d * Pow10(n))
  {
    assert d * (10 * Pow10(n)) == 10 * (d * Pow10(n));
  }

  lemma {:induction false} DigitsArePlaces(s: string)
    ensures DigitsValue(s).Some? <==> AllDigits(s)
    ensures AllDigits(s) ==> DigitsValue(s) == Some(PlaceValue(s))
  {
    if s != "" {
      DigitsArePlaces(Front(s));
      assert s == Front(s) + [Last(s)];
      if AllDigits(Front(s)) && IsDigit(Last(s)) {
        PlaceValueAppend(Front(s), Last(s));
      }
    }
  }

  /** The printed form of a number: decimal digits with that value, and no leading zero. */
  lemma {:induction false} DecimalExact(n: nat)
    ensures var s := ToDecimal(n);
            && s != "" && AllDigits(s) && PlaceValue(s) == n
            && (|s| > 1 ==> s[0] != '0')
  {
    DecimalRoundTrip(n);
    DigitsArePlaces(ToDecimal(n));
    if n >= 10 {
      DecimalExact(n / 10);
    }
  }

  /** Printed integers: only negative ones start with a minus sign, the rest is the printed size. */
  lemma FormatIntExact(i: int)
    ensures FormatInt(i)[0] == '-' <==> i < 0
    ensures i >= 0 ==> FormatInt(i) == ToDecimal(i)
    ensures i < 0 ==> FormatInt(i)[1..] == ToDecimal(-i)
  {
    DecimalRoundTrip(if i < 0 then -i else i);
    assert IsDigit(ToDecimal(if i < 0 then -i else i)[0]);
  }

  lemma FormatIntInjective(i: int, j: int)
    ensures FormatInt(i) == FormatInt(j) <==> i == j
    ensures '.' !in FormatInt(i)
  {
    var m, n := if i < 0 then -i else i, if j < 0 then -j else j;
    DecimalRoundTrip(m);
    DecimalRoundTrip(n);
    assert IsDigit(ToDecimal(m)[0]) && IsDigit(ToDecimal(n)[0]);
    if i < 0 && j < 0 {
      assert FormatInt(i)[1..] == ToDecimal(m) && FormatInt(j)[1..] == ToDecimal(n);
    }
  }
}
