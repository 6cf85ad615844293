/**
 * Calendar dates as whole day numbers counted from 1970-01-01 (a Thursday),
 * in the proleptic Gregorian calendar: the day of the week, the Sunday that
 * starts a week, the civil (year, month, day) of a day number and back, and
 * the `yyyy-MM-dd` calendar-date form of ISO 8601 in which week starts are stored.
 */
module Calendar {
  import opened Wrappers
  import opened Numbers

  /** Days since 1970-01-01; negative before it. */
  type Day = int

  /** Day of the week as JavaScript's `getDay` numbers it: 0 is Sunday, 6 is Saturday. */
  function Weekday(d: Day): (w: nat)
    ensures w < 7
  {
    (d + 4) % 7
  }

  /** date-fns `startOfWeek(d, { weekStartsOn: 0 })`: the Sunday on or before `d`. */
  function WeekStart(d: Day): (s: Day)
    ensures Weekday(s) == 0
    ensures s <= d < s + 7
  {
    d - Weekday(d)
  }

  /** There is only one Sunday within the six days before a date. */
  lemma WeekStartUnique(d: Day, s: Day)
    requires Weekday(s) == 0 && s <= d < s + 7
    ensures s == WeekStart(d)
  {
    var t := WeekStart(d);
    assert (s + 4) % 7 == 0 && (t + 4) % 7 == 0;
    assert -7 < s - t < 7;
    assert (s - t) % 7 == 0 by {
      assert s + 4 == 7 * ((s + 4) / 7);
      assert t + 4 == 7 * ((t + 4) / 7);
      assert s - t == 7 * ((s + 4) / 7 - (t + 4) / 7);
    }
  }

  /** Normalising a week start again changes nothing. */
  lemma WeekStartIdempotent(d: Day)
    ensures WeekStart(WeekStart(d)) == WeekStart(d)
  {
    WeekStartUnique(WeekStart(d), WeekStart(d));
  }

  /** Two dates share a week start exactly when they fall in the same Sunday-to-Saturday week. */
  lemma SameWeek(d: Day, e: Day)
    ensures WeekStart(d) == WeekStart(e) <==> WeekStart(d) <= e < WeekStart(d) + 7
  {
    if WeekStart(d) <= e < WeekStart(d) + 7 {
      WeekStartUnique(e, WeekStart(d));
    }
  }

  datatype Civil = Civil(year: int, month: int, day: int)

  predicate IsLeapYear(y: int)
  {
    y % 4 == 0 && (y % 100 != 0 || y % 400 == 0)
  }

  function DaysInMonth(y: int, m: int): int
  {
    if m == 2 then (if IsLeapYear(y) then 29 else 28)
    else if m == 4 || m == 6 || m == 9 || m == 11 then 30
    else 31
  }

  predicate ValidCivil(c: Civil)
  {
    1 <= c.month <= 12 && 1 <= c.day <= DaysInMonth(c.year, c.month)
  }

  /** Days from 0000-03-01 to 1970-01-01. */
  const ShiftToMarchEpoch: int := 719468

  /** Position of a day inside its 400-year era, counted from the era's first March 1st. */
  datatype EraPosition = EraPosition(era: int, century: int, quad: int, yearInQuad: int, dayOfYear: int)

  /** Splits a day number into era, century (of 36524 days, the last one 36525), four-year block (1461 days, the last of a century 1460), year in block and day of the March-based year. */
  function Position(d: Day): (p: EraPosition)
    ensures 0 <= p.century <= 3 && 0 <= p.quad <= 24 && 0 <= p.yearInQuad <= 3 && 0 <= p.dayOfYear <= 365
    ensures p.dayOfYear == 365 ==> p.yearInQuad == 3 && (p.quad < 24 || p.century == 3)
    ensures d + ShiftToMarchEpoch
      == 146097 * p.era + 36524 * p.century + 1461 * p.quad + 365 * p.yearInQuad + p.dayOfYear
  {
    var z := d + ShiftToMarchEpoch;
    var era := z / 146097;
    var doe := z % 146097;
    var c := if doe == 146096 then 3 else doe / 36524;
    var dc := doe - 36524 * c;
    var q := dc / 1461;
    var dq := dc % 1461;
    var y4 := if dq == 1460 then 3 else dq / 365;
    EraPosition(era, c, q, y4, dq - 365 * y4)
  }

  /** Days from March 1st to the first day of March-based month `mp` (0 is March, 11 is February). */
  function MarchMonthStart(mp: int): int
  {
    (153 * mp + 2) / 5
  }

  /** The civil date of a day number (what `getFullYear`, `getMonth` and `getDate` report). */
  function CivilFromDays(d: Day): (c: Civil)
    ensures ValidCivil(c)
  {
    var p := Position(d);
    var doy := p.dayOfYear;
    var mp := (5 * doy + 2) / 153;
    MarchMonthFits(doy);
    var m := if mp < 10 then mp + 3 else mp - 9;
    var y := 400 * p.era + 100 * p.century + 4 * p.quad + p.yearInQuad + (if m <= 2 then 1 else 0);
    if doy == 365 then
      LeapDayYear(p.era, p.century, p.quad);
      Civil(y, m, doy - MarchMonthStart(mp) + 1)
    else
      Civil(y, m, doy - MarchMonthStart(mp) + 1)
  }

  /** A March-based year that reaches day 365 ends in a leap February. */
  lemma LeapDayYear(era: int, century: int, quad: int)
    requires 0 <= century <= 3 && 0 <= quad <= 24 && (quad < 24 || century == 3)
    ensures IsLeapYear(400 * era + 100 * century + 4 * quad + 4)
  {
    var y := 400 * era + 100 * century + 4 * quad + 4;
    DivMod(y, 4, 100 * era + 25 * century + quad + 1, 0);
    if quad < 24 {
      DivMod(y, 100, 4 * era + century, 4 * quad + 4);
    } else {
      DivMod(y, 400, era + 1, 0);
    }
  }

  /** Division by the calendar's cycle lengths is determined by quotient and remainder. */
  lemma DivMod(a: int, b: int, q: int, r: int)
    requires b == 4 || b == 100 || b == 400
    requires a == b * q + r && 0 <= r < b
    ensures a / b == q && a % b == r
  {
    if b == 4 {
      assert a == 4 * q + r;
    } else if b == 100 {
      assert a == 100 * q + r;
    } else {
      assert a == 400 * q + r;
    }
  }

  /** The March-based month a day of the year falls in, and its day within that month. */
  lemma MarchMonthFits(doy: int)
    requires 0 <= doy <= 365
    ensures var mp := (5 * doy + 2) / 153;
      0 <= mp <= 11 &&
      MarchMonthStart(mp) <= doy &&
      (mp < 11 ==> doy - MarchMonthStart(mp) < DaysInMonth(2001, if mp < 10 then mp + 3 else mp - 9)) &&
      (mp == 11 ==> doy - MarchMonthStart(mp) < 28 || doy == 365)
  {
  }

  function YearOf(d: Day): int
  {
    CivilFromDays(d).year
  }

  /** The day number of a civil date: the inverse of `CivilFromDays`. */
  function DaysFromCivil(c: Civil): Day
  {
    var y := c.year - (if c.month <= 2 then 1 else 0);
    var era := y / 400;
    var yoe := y - era * 400;
    var mp := if c.month > 2 then c.month - 3 else c.month + 9;
    var doy := MarchMonthStart(mp) + c.day - 1;
    era * 146097 + yoe * 365 + yoe / 4 - yoe / 100 + doy - ShiftToMarchEpoch
  }

  /** Converting a day number to a civil date and back gives the same day. */
  lemma CivilRoundTrip(d: Day)
    ensures DaysFromCivil(CivilFromDays(d)) == d
  {
    var p := Position(d);
    var doy := p.dayOfYear;
    var mp := (5 * doy + 2) / 153;
    MarchMonthFits(doy);
    var yoe := 100 * p.century + 4 * p.quad + p.yearInQuad;
    var c := CivilFromDays(d);
    assert c.year - (if c.month <= 2 then 1 else 0) == 400 * p.era + yoe;
    assert (if c.month > 2 then c.month - 3 else c.month + 9) == mp;
    assert MarchMonthStart(mp) + c.day - 1 == doy;
    DivMod(400 * p.era + yoe, 400, p.era, yoe);
    DivMod(yoe, 4, 25 * p.century + p.quad, p.yearInQuad);
    DivMod(yoe, 100, p.century, 4 * p.quad + p.yearInQuad);
    assert yoe * 365 + yoe / 4 - yoe / 100 == 36524 * p.century + 1461 * p.quad + 365 * p.yearInQuad;
    DaysFromCivilParts(c, p.era, yoe, doy);
  }

  /** `DaysFromCivil` in terms of the era, the year of the era and the day of the March-based year. */
  lemma DaysFromCivilParts(c: Civil, era: int, yoe: int, doy: int)
    requires c.year - (if c.month <= 2 then 1 else 0) == 400 * era + yoe && 0 <= yoe < 400
    requires MarchMonthStart(if c.month > 2 then c.month - 3 else c.month + 9) + c.day - 1 == doy
    ensures DaysFromCivil(c) == era * 146097 + yoe * 365 + yoe / 4 - yoe / 100 + doy - ShiftToMarchEpoch
  {
    DivMod(400 * era + yoe, 400, era, yoe);
  }

  /** `n` written with exactly `w` decimal digits, zero-padded (`n` is reduced modulo 10^w). */
  function Fixed(n: nat, w: nat): (s: string)
    ensures |s| == w && AllDigits(s)
  {
    if w == 0 then [] else Fixed(n / 10, w - 1) + [DigitChar(n % 10)]
  }

  /** A zero-padded rendering reads back as the number when the number fits. */
  lemma {:induction false} FixedValue(n: nat, w: nat)
    requires n < Pow10(w)
    ensures DigitsValue(Fixed(n, w)) == n
  {
    if w > 0 {
      FixedValue(n / 10, w - 1);
      var s := Fixed(n, w);
      assert s[..|s| - 1] == Fixed(n / 10, w - 1);
    }
  }

  /** date-fns `yyyy`: the year of the era, at least four digits. */
  function YearToken(y: int): string
  {
    var e: nat := if y > 0 then y else 1 - y;
    if e < 10000 then Fixed(e, 4) else NatToString(e)
  }

  /** date-fns `format(d, 'yyyy-MM-dd')`. */
  function FormatIso(d: Day): string
  {
    var c := CivilFromDays(d);
    YearToken(c.year) + "-" + Fixed(c.month as nat, 2) + "-" + Fixed(c.day as nat, 2)
  }

  /** Reads a `yyyy-MM-dd` string with a valid date back into a day number. */
  function ReadIso(s: string): Option<Day>
  {
    if |s| == 10 && s[4] == '-' && s[7] == '-' && AllDigits(s[..4]) && AllDigits(s[5..7]) && AllDigits(s[8..]) then
      var c := Civil(DigitsValue(s[..4]), DigitsValue(s[5..7]), DigitsValue(s[8..]));
      if ValidCivil(c) then Some(DaysFromCivil(c)) else None
    else None
  }

  /** For years 1 to 9999 the stored form is ten characters, dashes at positions 4 and 7, and reads back as the same day. */
  lemma FormatIsoRoundTrip(d: Day)
    requires 1 <= YearOf(d) <= 9999
    ensures |FormatIso(d)| == 10 && FormatIso(d)[4] == '-' && FormatIso(d)[7] == '-'
    ensures ReadIso(FormatIso(d)) == Some(d)
  {
    var c := CivilFromDays(d);
    var s := FormatIso(d);
    assert Pow10(4) == 10000 && Pow10(2) == 100;
    FixedValue(c.year, 4);
    FixedValue(c.month, 2);
    FixedValue(c.day, 2);
    assert s[..4] == Fixed(c.year, 4);
    assert s[5..7] == Fixed(c.month, 2);
    assert s[8..] == Fixed(c.day, 2);
    CivilRoundTrip(d);
  }
}
