/**
 * Number handling: JavaScript's `parseFloat` and `parseInt` over strings,
 * the parser's `parseNumber`, decimal rendering of counts, and the two
 * rounding rules the code relies on (SQLite `ROUND` and JavaScript
 * `Math.round`). Numbers are exact reals; binary floating point is not modelled.
 */
module Numbers {
  import opened Wrappers
  import opened Text

  predicate IsDigit(c: char)
  {
    '0' <= c <= '9'
  }

  predicate AllDigits(s: string)
  {
    forall i :: 0 <= i < |s| ==> IsDigit(s[i])
  }

  function DigitValue(c: char): nat
    requires IsDigit(c)
  {
    c as int - '0' as int
  }

  function DigitChar(d: nat): (c: char)
    requires d < 10
    ensures IsDigit(c) && DigitValue(c) == d
  {
    ('0' as int + d) as char
  }

  function Pow10(n: nat): (p: nat)
    ensures p >= 1
  {
    if n == 0 then 1 else 10 * Pow10(n - 1)
  }

  /** Length of the longest prefix of `s` made of decimal digits. */
  function DigitRun(s: string): (n: nat)
    ensures n <= |s|
    ensures AllDigits(s[..n])
    ensures n < |s| ==> !IsDigit(s[n])
  {
    if s == [] || !IsDigit(s[0]) then 0
    else
      var k := DigitRun(s[1..]);
      assert s[..k + 1] == [s[0]] + s[1..][..k];
      k + 1
  }

  /** The value of a string of decimal digits, read most significant first. */
  function DigitsValue(s: string): nat
    requires AllDigits(s)
  {
    if s == [] then 0 else 10 * DigitsValue(s[..|s| - 1]) + DigitValue(s[|s| - 1])
  }

  /** The scale an exponent part (`e`, optional sign, at least one digit) at the head of `s` applies; 1 when there is none. */
  function ExponentScale(s: string): real
  {
    if |s| >= 2 && (s[0] == 'e' || s[0] == 'E') then
      var signed := s[1] == '+' || s[1] == '-';
      var digits := if signed then s[2..] else s[1..];
      var n := DigitRun(digits);
      if n == 0 then 1.0
      else
        var e := DigitsValue(digits[..n]);
        if signed && s[1] == '-' then 1.0 / (Pow10(e) as real) else Pow10(e) as real
    else 1.0
  }

  /** The longest unsigned decimal literal at the head of `u` (digits, optional fraction, optional exponent). */
  function UnsignedDecimal(u: string): Option<real>
  {
    var n := DigitRun(u);
    var rest := u[n..];
    var hasDot := rest != [] && rest[0] == '.';
    var f := if hasDot then DigitRun(rest[1..]) else 0;
    if n == 0 && f == 0 then None
    else
      var frac := if hasDot then rest[1..][..f] else "";
      var after := if hasDot then rest[1 + f..] else rest;
      Some(Scaled(Mantissa(u[..n], frac), after))
  }

  /** The value of the digits before and after a decimal point. */
  function Mantissa(whole: string, frac: string): real
    requires AllDigits(whole) && AllDigits(frac)
  {
    DigitsValue(whole) as real + DigitsValue(frac) as real / (Pow10(|frac|) as real)
  }

  /** A mantissa with its exponent part applied. */
  function Scaled(mantissa: real, exponent: string): real
  {
    mantissa * ExponentScale(exponent)
  }

  /** JavaScript's `parseFloat`; `None` stands for `NaN`. */
  function ParseFloat(s: string): Option<real>
  {
    var t := TrimStart(s);
    var signed := t != [] && (t[0] == '+' || t[0] == '-');
    var u := if signed then t[1..] else t;
    match UnsignedDecimal(u)
    case None => None
    case Some(v) => Some(if signed && t[0] == '-' then -v else v)
  }

  /**
   * The parser's `parseNumber`: blank input is 0, commas are dropped, and
   * anything `parseFloat` cannot read is 0; any other result is what
   * `parseFloat` reads from the text without its commas.
   */
  function ParseNumber(value: string): (r: real)
    ensures IsBlank(value) || ParseFloat(RemoveCommas(value)).None? ==> r == 0.0
    ensures !IsBlank(value) && ParseFloat(RemoveCommas(value)).Some? ==> r == ParseFloat(RemoveCommas(value)).value
    ensures r != 0.0 ==> !IsBlank(value) && ParseFloat(RemoveCommas(value)) == Some(r)
  {
    if value == "" || IsBlank(value) then 0.0
    else ParseFloat(RemoveCommas(value)).GetOr(0.0)
  }

  predicate IsHexDigit(c: char)
  {
    IsDigit(c) || 'a' <= c <= 'f' || 'A' <= c <= 'F'
  }

  function HexDigitValue(c: char): nat
    requires IsHexDigit(c)
  {
    if IsDigit(c) then DigitValue(c)
    else if 'a' <= c <= 'f' then c as int - 'a' as int + 10
    else c as int - 'A' as int + 10
  }

  function HexRun(s: string): (n: nat)
    ensures n <= |s|
    ensures forall i :: 0 <= i < n ==> IsHexDigit(s[i])
  {
    if s == [] || !IsHexDigit(s[0]) then 0 else HexRun(s[1..]) + 1
  }

  function HexValue(s: string): nat
    requires forall i :: 0 <= i < |s| ==> IsHexDigit(s[i])
  {
    if s == [] then 0 else 16 * HexValue(s[..|s| - 1]) + HexDigitValue(s[|s| - 1])
  }

  /** JavaScript's `parseInt` without a radix (a `0x` prefix selects base 16); `None` stands for `NaN`. */
  function ParseInt(s: string): Option<int>
  {
    var t := TrimStart(s);
    var signed := t != [] && (t[0] == '+' || t[0] == '-');
    var u := if signed then t[1..] else t;
    var magnitude :=
      if |u| >= 2 && u[0] == '0' && (u[1] == 'x' || u[1] == 'X') then
        var n := HexRun(u[2..]);
        if n == 0 then None else Some(HexValue(u[2..][..n]))
      else
        var n := DigitRun(u);
        if n == 0 then None else Some(DigitsValue(u[..n]));
    match magnitude
    case None => None
    case Some(m) =>
      var v: int := m;
      Some(if signed && t[0] == '-' then -v else v)
  }

  /** Decimal rendering of a count, as template literals print it: no sign, no leading zeros. */
  function NatToString(n: nat): (s: string)
    ensures s != [] && AllDigits(s)
    ensures |s| > 1 ==> s[0] != '0'
  {
    if n < 10 then [DigitChar(n)] else NatToString(n / 10) + [DigitChar(n % 10)]
  }

  /** Reading back the rendering gives the number again. */
  lemma {:induction false} NatToStringValue(n: nat)
    ensures DigitsValue(NatToString(n)) == n
  {
    if n >= 10 {
      NatToStringValue(n / 10);
      var s := NatToString(n);
      assert s[..|s| - 1] == NatToString(n / 10);
    }
  }

  lemma DigitRunOfDigits(s: string)
    requires AllDigits(s)
    ensures DigitRun(s) == |s|
  {
  }

  /** A whole string of digits is read as an unsigned decimal with no fraction and no exponent. */
  lemma UnsignedDecimalOfDigits(s: string)
    requires s != [] && AllDigits(s)
    ensures UnsignedDecimal(s) == Some(DigitsValue(s) as real)
  {
    DigitRunOfDigits(s);
    var n := DigitRun(s);
    assert s[..n] == s;
    assert s[n..] == [];
    assert Mantissa(s, "") == DigitsValue(s) as real by {
      assert DigitsValue("") == 0 && Pow10(0) == 1;
    }
    assert Scaled(Mantissa(s, ""), []) == DigitsValue(s) as real;
  }

  /** Text that starts with a digit has no leading white space and no sign. */
  lemma DigitLed(s: string)
    requires s != [] && IsDigit(s[0])
    ensures TrimStart(s) == s
    ensures ParseFloat(s) == UnsignedDecimal(s)
  {
    assert !IsJsSpace(s[0]);
  }

  /** `parseFloat` reads a rendered count back exactly. */
  lemma ParseFloatOfNatToString(n: nat)
    ensures ParseFloat(NatToString(n)) == Some(n as real)
  {
    var s := NatToString(n);
    DigitLed(s);
    UnsignedDecimalOfDigits(s);
    NatToStringValue(n);
  }

  /** `parseInt` reads a rendered count back exactly. */
  lemma ParseIntOfNatToString(n: nat)
    ensures ParseInt(NatToString(n)) == Some(n)
  {
    var s := NatToString(n);
    DigitLed(s);
    DigitRunOfDigits(s);
    NatToStringValue(n);
    assert s[..|s|] == s;
    assert !(|s| >= 2 && s[0] == '0');
  }

  /** SQLite `ROUND(x, places)`: to `places` decimals, halves away from zero. */
  function SqlRound(x: real, places: nat): real
  {
    var p := Pow10(places) as real;
    if x >= 0.0 then HalfUp(x, p) else -HalfUp(-x, p)
  }

  /** `a` rounded to the nearest multiple of `1/p`, halves upward. */
  function HalfUp(a: real, p: real): real
    requires p > 0.0
  {
    ((a * p + 0.5).Floor as real) / p
  }

  /** JavaScript `Math.round`: the nearest integer, halves toward positive infinity. */
  function MathRound(x: real): int
  {
    (x + 0.5).Floor
  }

  /** `Math.round` moves its argument by at most one half. */
  lemma MathRoundBounds(x: real)
    ensures x - 0.5 < MathRound(x) as real <= x + 0.5
  {
  }

  lemma MathRoundMonotone(x: real, y: real)
    requires x <= y
    ensures MathRound(x) <= MathRound(y)
  {
  }

  /** A scaled rounding moves its argument by at most half a unit in the last place. */
  lemma SqlRoundError(x: real, places: nat)
    ensures x - 0.5 / (Pow10(places) as real) <= SqlRound(x, places) <= x + 0.5 / (Pow10(places) as real)
  {
    var p := Pow10(places) as real;
    if x >= 0.0 {
      HalfUpError(x, p);
    } else {
      HalfUpError(-x, p);
    }
  }

  /** The rounding error for the decimal places the queries use: at most half a unit in the last place. */
  lemma SqlRoundNear(x: real, places: nat)
    requires places <= 2
    ensures places == 0 ==> x - 0.5 <= SqlRound(x, places) <= x + 0.5
    ensures places == 1 ==> x - 0.05 <= SqlRound(x, places) <= x + 0.05
    ensures places == 2 ==> x - 0.005 <= SqlRound(x, places) <= x + 0.005
  {
    SqlRoundError(x, places);
    assert Pow10(0) == 1 && Pow10(1) == 10 && Pow10(2) == 100;
  }

  lemma HalfUpError(a: real, p: real)
    requires p > 0.0
    ensures a - 0.5 / p <= HalfUp(a, p) <= a + 0.5 / p
  {
    var q := a * p;
    var k := (q + 0.5).Floor as real;
    assert q - 0.5 <= k <= q + 0.5;
    DivMonotone(q - 0.5, k, p);
    DivMonotone(k, q + 0.5, p);
    DivSplit(q, 0.5, p);
    DivSplit(q, -0.5, p);
    MulDiv(a, p);
  }

  lemma DivMonotone(u: real, v: real, p: real)
    requires p > 0.0 && u <= v
    ensures u / p <= v / p
  {
    assert v / p - u / p == (v - u) / p;
  }

  lemma DivSplit(u: real, v: real, p: real)
    requires p != 0.0
    ensures (u + v) / p == u / p + v / p
  {
  }

  lemma MulDiv(a: real, p: real)
    requires p > 0.0
    ensures (a * p) / p == a
  {
  }

  lemma MulMonotone(u: real, v: real, p: real)
    requires p > 0.0 && u <= v
    ensures u * p <= v * p
  {
  }

  lemma FloorMonotone(u: real, v: real)
    requires u <= v
    ensures u.Floor <= v.Floor
  {
  }

  lemma HalfUpMonotone(a: real, b: real, p: real)
    requires p > 0.0 && a <= b
    ensures HalfUp(a, p) <= HalfUp(b, p)
  {
    MulMonotone(a, b, p);
    FloorMonotone(a * p + 0.5, b * p + 0.5);
    DivMonotone((a * p + 0.5).Floor as real, (b * p + 0.5).Floor as real, p);
  }

  /** Rounding never reorders values. */
  lemma SqlRoundMonotone(x: real, y: real, places: nat)
    requires x <= y
    ensures SqlRound(x, places) <= SqlRound(y, places)
  {
    var p := Pow10(places) as real;
    if 0.0 <= x {
      HalfUpMonotone(x, y, p);
    } else if y < 0.0 {
      HalfUpMonotone(-y, -x, p);
    } else {
      HalfUpMonotone(0.0, -x, p);
      HalfUpMonotone(0.0, y, p);
      assert HalfUp(0.0, p) == 0.0;
    }
  }

  /** Rounding to whole multiples of `1/p` leaves a whole number where it is. */
  lemma HalfUpOfWhole(n: nat, p: nat)
    requires p > 0
    ensures HalfUp(n as real, p as real) == n as real
  {
    WholeProduct(n, p);
    HalfUpOfMultiple(n as real, p as real, n * p);
  }

  /** A value that is already a whole multiple of `1/d` is left where it is. */
  lemma HalfUpOfMultiple(a: real, d: real, k: int)
    requires d > 0.0 && a * d == k as real
    ensures HalfUp(a, d) == a
  {
    assert (a * d + 0.5).Floor == k;
    MulDiv(a, d);
  }

  /** A product of whole numbers is whole. */
  lemma WholeProduct(n: nat, p: nat)
    ensures n as real * p as real == (n * p) as real
  {
  }

  /** Rounding keeps a non-negative value that lies between two whole numbers between them. */
  lemma SqlRoundWithin(x: real, places: nat, lo: nat, hi: nat)
    requires lo as real <= x <= hi as real
    ensures lo as real <= SqlRound(x, places) <= hi as real
  {
    var n := Pow10(places);
    HalfUpMonotone(lo as real, x, n as real);
    HalfUpMonotone(x, hi as real, n as real);
    HalfUpOfWhole(lo, n);
    HalfUpOfWhole(hi, n);
  }
}
