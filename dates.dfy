/**
 * Calendar arithmetic as ECMAScript `Date` performs it (ECMA-262, section 21.4.1):
 * days are counted from 1970-01-01 in the proleptic Gregorian calendar, a time value is
 * a number of milliseconds, and the `YYYY-MM-DD` text form is read as midnight UTC.
 * Months are numbered 1..12 here; `MakeDay` takes the 0-based month of the JavaScript API.
 */
module Dates {

  import opened Wrappers
  import opened Text

  /** The calendar fields of a day: year, month 1..12, day of the month. */
  datatype Date = Date(year: int, month: int, day: int)

  const MsPerDay: int := 86400000

  /** The day number (days since 1970-01-01) a time value falls on: ECMA-262 `Day(t)`. */
  function DayOf(t: int): int
  {
    t / MsPerDay
  }

  /** The Gregorian leap rule. */
  predicate IsLeapYear(y: int)
  {
    y % 4 == 0 && (y % 100 != 0 || y % 400 == 0)
  }

  /** ECMA-262 `DaysInYear(y)`, case by case as the standard lists it. */
  function DaysInYear(y: int): int
  {
    if y % 4 != 0 then 365
    else if y % 100 != 0 then 366
    else if y % 400 != 0 then 365
    else 366
  }

  /** ECMA-262 `DayFromYear(y)`: the day number of January 1st of year `y`. */
  function DayFromYear(y: int): int
  {
    365 * (y - 1970) + (y - 1969) / 4 - (y - 1901) / 100 + (y - 1601) / 400
  }

  /**
   * The day within the year on which month `m` begins, from the table of ECMA-262
   * `MonthFromTime`; `m == 13` gives the length of the year.
   */
  function MonthStart(m: int, leap: bool): int
    requires 1 <= m <= 13
  {
    var l := if leap then 1 else 0;
    if m == 1 then 0
    else if m == 2 then 31
    else if m == 3 then 59 + l
    else if m == 4 then 90 + l
    else if m == 5 then 120 + l
    else if m == 6 then 151 + l
    else if m == 7 then 181 + l
    else if m == 8 then 212 + l
    else if m == 9 then 243 + l
    else if m == 10 then 273 + l
    else if m == 11 then 304 + l
    else if m == 12 then 334 + l
    else 365 + l
  }

  /**
   * ECMA-262 `MakeDay(year, month, date)` with a 0-based `month` that may lie outside
   * 0..11 (it carries into the year) and a `date` that may lie outside the month (it
   * carries into the neighbouring months).
   */
  function MakeDay(year: int, month: int, date: int): int
  {
    var ym := year + month / 12;
    var mn := month % 12;
    DayFromYear(ym) + MonthStart(mn + 1, IsLeapYear(ym)) + date - 1
  }

  /** ECMA-262 `WeekDay`: 0 is Sunday; day 0 (1970-01-01) was a Thursday. */
  function WeekDay(dayNumber: int): (w: int)
    ensures 0 <= w < 7
  {
    (dayNumber + 4) % 7
  }

  /** The number of days in month `m` of year `y`, by the Gregorian table. */
  function DaysInMonth(y: int, m: int): (n: int)
    requires 1 <= m <= 12
    ensures 28 <= n <= 31
    ensures n == 29 <==> m == 2 && IsLeapYear(y)
  {
    if m == 2 then (if IsLeapYear(y) then 29 else 28)
    else if m == 4 || m == 6 || m == 9 || m == 11 then 30
    else 31
  }

  /** The weekday of the first day of month `m` of year `y`, 0 being Sunday. */
  function FirstWeekday(y: int, m: int): (w: int)
    requires 1 <= m <= 12
    ensures 0 <= w < 7
  {
    WeekDay(MakeDay(y, m - 1, 1))
  }

  /** `DayFromYear` advances by the length of each year. */
  lemma DayFromYearStep(y: int)
    ensures DayFromYear(y + 1) - DayFromYear(y) == DaysInYear(y)
  {
    LeapDays(y);
    CenturyDays(y);
    QuadCenturyDays(y);
    MultiplesNest(y);
    var quads := (y - 1968) / 4 - (y - 1969) / 4;
    var centuries := (y - 1900) / 100 - (y - 1901) / 100;
    var quadCenturies := (y - 1600) / 400 - (y - 1601) / 400;
    assert DayFromYear(y + 1) - DayFromYear(y) == 365 + quads - centuries + quadCenturies;
    if y % 4 != 0 {
    } else if y % 100 != 0 {
    } else if y % 400 != 0 {
    } else {
    }
  }

  /** A multiple of 400 is one of 100, and a multiple of 100 is one of 4. */
  lemma MultiplesNest(y: int)
    ensures y % 400 == 0 ==> y % 100 == 0
    ensures y % 100 == 0 ==> y % 4 == 0
  {
    if y % 400 == 0 {
      Hundreds(y, 4 * (y / 400));
    }
    if y % 100 == 0 {
      Fours(y, 25 * (y / 100));
    }
  }

  lemma Hundreds(y: int, n: int)
    requires y == 100 * n
    ensures y % 100 == 0
  {
  }

  lemma Fours(y: int, n: int)
    requires y == 4 * n
    ensures y % 4 == 0
  {
  }

  lemma LeapDays(y: int)
    ensures (y - 1968) / 4 - (y - 1969) / 4 == if y % 4 == 0 then 1 else 0
  {
  }

  lemma CenturyDays(y: int)
    ensures (y - 1900) / 100 - (y - 1901) / 100 == if y % 100 == 0 then 1 else 0
  {
  }

  lemma QuadCenturyDays(y: int)
    ensures (y - 1600) / 400 - (y - 1601) / 400 == if y % 400 == 0 then 1 else 0
  {
  }

  /** The months' lengths add up to the year's. */
  lemma MonthsFillYear(y: int)
    ensures DaysInMonth(y, 1) + DaysInMonth(y, 2) + DaysInMonth(y, 3) + DaysInMonth(y, 4) +
            DaysInMonth(y, 5) + DaysInMonth(y, 6) + DaysInMonth(y, 7) + DaysInMonth(y, 8) +
            DaysInMonth(y, 9) + DaysInMonth(y, 10) + DaysInMonth(y, 11) + DaysInMonth(y, 12)
            == DaysInYear(y)
  {
  }

  /** `MakeDay` for a month index inside the year. */
  lemma MakeDayInYear(y: int, m0: int, d: int)
    requires 0 <= m0 < 12
    ensures MakeDay(y, m0, d) == DayFromYear(y) + MonthStart(m0 + 1, IsLeapYear(y)) + d - 1
  {
    assert m0 / 12 == 0 && m0 % 12 == m0;
  }

  /** `MakeDay` for month index 12 is January of the next year. */
  lemma MakeDayNextYear(y: int, d: int)
    ensures MakeDay(y, 12, d) == DayFromYear(y + 1) + d - 1
  {
    assert 12 / 12 == 1 && 12 % 12 == 0;
  }

  /** `MakeDay` for month index -1 is December of the previous year. */
  lemma MakeDayPrevYear(y: int, d: int)
    ensures MakeDay(y, -1, d) == MakeDay(y - 1, 11, d)
  {
    assert -1 / 12 == -1 && -1 % 12 == 11;
  }

  /** Consecutive dates are consecutive day numbers. */
  lemma MakeDaySucc(y: int, m0: int, d: int)
    ensures MakeDay(y, m0, d + 1) == MakeDay(y, m0, d) + 1
  {
  }

  /** A day of a month is that many days, less one, after its 1st. */
  lemma MakeDayOffset(y: int, m0: int, d: int)
    ensures MakeDay(y, m0, d) == MakeDay(y, m0, 1) + d - 1
  {
  }

  /** The table's consecutive entries differ by the month lengths. */
  lemma MonthLength(y: int, m: int)
    requires 1 <= m <= 12
    ensures MonthStart(m + 1, IsLeapYear(y)) - MonthStart(m, IsLeapYear(y)) == DaysInMonth(y, m)
  {
  }

  /**
   * `new Date(y, m, 0).getDate()`, with `m` the 0-based index of the month after month `m`:
   * day 0 of the next month is the last day of month `m`, and `getDate` of it, its distance
   * from the 1st of month `m` plus one, is `DaysInMonth(y, m)`.
   */
  lemma DayZeroOfNextMonth(y: int, m: int)
    requires 1 <= m <= 12
    ensures MakeDay(y, m - 1, 1) <= MakeDay(y, m, 0) < MakeDay(y, m, 1)
    ensures MakeDay(y, m, 0) - MakeDay(y, m - 1, 1) + 1 == DaysInMonth(y, m)
  {
    MonthLength(y, m);
    MakeDayInYear(y, m - 1, 1);
    MakeDaySucc(y, m, 0);
    if m == 12 {
      MakeDayNextYear(y, 0);
      DayFromYearStep(y);
    } else {
      MakeDayInYear(y, m, 0);
    }
  }

  /** Moving `n` days on moves the weekday `n` places round the week. */
  lemma WeekDayAdvance(dayNumber: int, n: int)
    ensures WeekDay(dayNumber + n) == (WeekDay(dayNumber) + n) % 7
  {
  }

  /** The first of the next month falls `DaysInMonth` weekdays after the first of this one. */
  lemma NextFirstWeekday(y: int, m: int)
    requires 1 <= m <= 12
    ensures WeekDay(MakeDay(y, m, 1)) == (FirstWeekday(y, m) + DaysInMonth(y, m)) % 7
  {
    var first := MakeDay(y, m - 1, 1);
    var n := DaysInMonth(y, m);
    DayZeroOfNextMonth(y, m);
    MakeDaySucc(y, m, 0);
    assert MakeDay(y, m, 1) == first + n;
    WeekDayAdvance(first, n);
  }

  /** January 2024 begins on a Monday. */
  lemma January2024()
    ensures FirstWeekday(2024, 1) == 1
  {
    assert DayFromYear(2024) == 19723;
    assert MakeDay(2024, 0, 1) == 19723;
    assert (19723 + 4) % 7 == 1;
  }

  /** February has 29 days in 2024 and 2000, 28 in 2023 and 1900. */
  lemma FebruaryExamples()
    ensures DaysInMonth(2024, 2) == 29 && DaysInMonth(2000, 2) == 29
    ensures DaysInMonth(2023, 2) == 28 && DaysInMonth(1900, 2) == 28
  {
  }

  /** The text `${y}-${pad(m)}-${pad(d)}` the calendar grid compares appointment dates with. */
  function IsoDate(y: int, m: int, d: int): string
  {
    IntToString(y) + "-" + TwoDigits(m) + "-" + TwoDigits(d)
  }

  lemma SplitAtDashes(yy: string, mm: string, dd: string)
    requires |mm| == 2 && |dd| == 2
    ensures var s := yy + "-" + mm + "-" + dd;
      |s| == |yy| + 6 && s[..|s| - 6] == yy && s[|s| - 5..|s| - 3] == mm && s[|s| - 2..] == dd
  {
  }

  lemma IsoDateParts(y: int, m: int, d: int)
    requires 0 <= m < 100 && 0 <= d < 100
    ensures var s := IsoDate(y, m, d);
      |s| >= 6 && s[..|s| - 6] == IntToString(y) &&
      s[|s| - 5..|s| - 3] == TwoDigits(m) && s[|s| - 2..] == TwoDigits(d)
  {
    var yy, mm, dd := IntToString(y), TwoDigits(m), TwoDigits(d);
    TwoDigitsValue(m);
    TwoDigitsValue(d);
    SplitAtDashes(yy, mm, dd);
    assert IsoDate(y, m, d) == yy + "-" + mm + "-" + dd;
  }

  /** Distinct calendar fields, with month and day below 100, are written as distinct text. */
  lemma IsoDateInjective(y1: int, m1: int, d1: int, y2: int, m2: int, d2: int)
    requires 0 <= m1 < 100 && 0 <= d1 < 100 && 0 <= m2 < 100 && 0 <= d2 < 100
    requires IsoDate(y1, m1, d1) == IsoDate(y2, m2, d2)
    ensures y1 == y2 && m1 == m2 && d1 == d2
  {
    var s := IsoDate(y1, m1, d1);
    IsoDateParts(y1, m1, d1);
    IsoDateParts(y2, m2, d2);
    assert IntToString(y1) == s[..|s| - 6] == IntToString(y2);
    assert TwoDigits(m1) == s[|s| - 5..|s| - 3] == TwoDigits(m2);
    assert TwoDigits(d1) == s[|s| - 2..] == TwoDigits(d2);
    IntToStringInjective(y1, y2);
    TwoDigitsInjective(m1, m2);
    TwoDigitsInjective(d1, d2);
  }

  predicate AllDigits(s: string)
  {
    forall i :: 0 <= i < |s| ==> IsDigit(s[i])
  }

  /**
   * `new Date(s)` for the date-only form `YYYY-MM-DD` of ECMA-262's date time string
   * format, as a day number (the time value is that times `MsPerDay`, midnight UTC).
   * Four year digits, a month 01..12 and a day 01..31 are required; a day past the end of
   * its month carries into the next month, as `MakeDay` does. Anything else is `None`,
   * standing for the invalid date (`NaN`).
   */
  function ParseIsoDate(s: string): Option<int>
  {
    if |s| == 10 && s[4] == '-' && s[7] == '-' &&
       AllDigits(s[..4]) && AllDigits(s[5..7]) && AllDigits(s[8..])
    then
      DateOfFields(DigitsValue(s[..4]), DigitsValue(s[5..7]), DigitsValue(s[8..]))
    else None
  }

  /** The day named by year, month 1..12 and day 1..31 fields; out-of-range fields are invalid. */
  function DateOfFields(y: int, m: int, d: int): Option<int>
  {
    if 1 <= m <= 12 && 1 <= d <= 31 then Some(MakeDay(y, m - 1, d)) else None
  }

  lemma FourDigits(y: int)
    requires 1000 <= y <= 9999
    ensures |IntToString(y)| == 4
  {
    assert |NatToString(y / 10 / 10 / 10)| == 1;
    assert |NatToString(y / 10 / 10)| == 2;
    assert |NatToString(y / 10)| == 3;
    assert |NatToString(y)| == 4;
  }

  lemma TwoDigitsValue(n: int)
    requires 0 <= n < 100
    ensures |TwoDigits(n)| == 2 && AllDigits(TwoDigits(n)) && DigitsValue(TwoDigits(n)) == n
  {
    TwoDigitsShape(n);
    DigitPairValue(n / 10, n % 10);
  }

  /** Two decimal digits denote ten times the first plus the second. */
  lemma DigitPairValue(a: int, b: int)
    requires 0 <= a < 10 && 0 <= b < 10
    ensures var s := [DigitChar(a), DigitChar(b)];
      AllDigits(s) && DigitsValue(s) == 10 * a + b
  {
    var s := [DigitChar(a), DigitChar(b)];
    assert s[..|s| - 1] == [DigitChar(a)];
    assert [DigitChar(a)][..0] == [];
    assert DigitsValue([DigitChar(a)]) == a;
    assert DigitsValue(s) == DigitsValue([DigitChar(a)]) * 10 + DigitValue(DigitChar(b));
  }

  /**
   * Reading back the text the grid writes for a well-formed date with a four-digit year
   * gives the day `MakeDay` computes for it.
   */
  lemma ParseOfParts(yy: string, mm: string, dd: string)
    requires |yy| == 4 && |mm| == 2 && |dd| == 2
    requires AllDigits(yy) && AllDigits(mm) && AllDigits(dd)
    ensures ParseIsoDate(yy + "-" + mm + "-" + dd) ==
              DateOfFields(DigitsValue(yy), DigitsValue(mm), DigitsValue(dd))
  {
    DashedShape(yy, mm, dd);
  }

  lemma DashedShape(yy: string, mm: string, dd: string)
    requires |yy| == 4 && |mm| == 2 && |dd| == 2
    ensures var s := yy + "-" + mm + "-" + dd;
      |s| == 10 && s[4] == '-' && s[7] == '-' && s[..4] == yy && s[5..7] == mm && s[8..] == dd
  {
    var s := yy + "-" + mm + "-" + dd;
    assert s[..4] == yy && s[5..7] == mm && s[8..] == dd;
  }

  lemma ParseIsoDateRoundTrip(y: int, m: int, d: int)
    requires 1000 <= y <= 9999 && 1 <= m <= 12 && 1 <= d <= 31
    ensures ParseIsoDate(IsoDate(y, m, d)) == Some(MakeDay(y, m - 1, d))
  {
    var yy, mm, dd := IntToString(y), TwoDigits(m), TwoDigits(d);
    FourDigits(y);
    TwoDigitsValue(m);
    TwoDigitsValue(d);
    assert yy == NatToString(y);
    NatToStringRoundTrip(y);
    ParseOfParts(yy, mm, dd);
  }

  /**
   * The text of a day of a month with a four-digit year reads back as that day, which lies
   * between the 1st of the month and the 1st of the next month.
   */
  lemma DateTextInMonth(y: int, m: int, d: int)
    requires 1000 <= y <= 9999 && 1 <= m <= 12 && 1 <= d <= DaysInMonth(y, m)
    ensures ParseIsoDate(IsoDate(y, m, d)) == Some(MakeDay(y, m - 1, d))
    ensures MakeDay(y, m - 1, 1) <= MakeDay(y, m - 1, d) < MakeDay(y, m, 1)
  {
    ParseIsoDateRoundTrip(y, m, d);
    DayZeroOfNextMonth(y, m);
    MakeDayInYear(y, m - 1, 1);
    MakeDayInYear(y, m - 1, d);
  }
}
