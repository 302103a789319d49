/**
 * The date picker (client/src/Components/Calendar.jsx): month lengths as
 * JavaScript's `Date` computes them, the month before the shown one, the
 * 42-cell grid, month navigation, and the `year-MM-DD` string a click on a
 * day produces.
 *
 * Day numbers follow the time-value arithmetic of ECMA-262, section 21.4.1
 * (DayFromYear, InLeapYear, MakeDay, and the MakeFullYear step of the
 * `Date` constructor), on the proleptic Gregorian calendar.
 */
module Calendar {
  import opened Js
  import opened Wrappers

  /** The Gregorian leap-year rule (InLeapYear). */
  predicate InLeapYear(y: int)
  {
    y % 4 == 0 && (y % 100 != 0 || y % 400 == 0)
  }

  function DaysInYear(y: int): int
  {
    if InLeapYear(y) then 366 else 365
  }

  /** The number of the day 1 January of year `y` falls on, counting from
      1 January 1970 (DayFromYear). */
  function DayFromYear(y: int): int
  {
    365 * (y - 1970) + (y - 1969) / 4 - (y - 1901) / 100 + (y - 1601) / 400
  }

  /** Days of the year before the first day of month `m` (0-based). */
  function DaysBeforeMonth(y: int, m: int): int
    requires 0 <= m <= 11
  {
    var leap := if InLeapYear(y) then 1 else 0;
    if m == 0 then 0
    else if m == 1 then 31
    else if m == 2 then 59 + leap
    else if m == 3 then 90 + leap
    else if m == 4 then 120 + leap
    else if m == 5 then 151 + leap
    else if m == 6 then 181 + leap
    else if m == 7 then 212 + leap
    else if m == 8 then 243 + leap
    else if m == 9 then 273 + leap
    else if m == 10 then 304 + leap
    else 334 + leap
  }

  /** MakeDay: the day number of day `date` of month `m` of year `y`, where
      a month outside 0..11 carries into the year and a date of 0 or below
      counts back from the first of the month. */
  function MakeDay(y: int, m: int, date: int): int
  {
    var ym := y + m / 12;
    var mn := m % 12;
    DayFromYear(ym) + DaysBeforeMonth(ym, mn) + date - 1
  }

  /** The `Date` constructor reads a year from 0 to 99 as 1900 to 1999. */
  function MakeFullYear(y: int): int
  {
    if 0 <= y <= 99 then 1900 + y else y
  }

  /** The length of a month in the proleptic Gregorian calendar. */
  function GregorianMonthLength(y: int, m: int): int
    requires 0 <= m <= 11
  {
    if m == 1 then (if InLeapYear(y) then 29 else 28)
    else if m == 3 || m == 5 || m == 8 || m == 10 then 30
    else 31
  }

  lemma QuarterStep(y: int)
    ensures (y - 1968) / 4 - (y - 1969) / 4 == if y % 4 == 0 then 1 else 0
  {
  }

  lemma CenturyStep(y: int)
    ensures (y - 1900) / 100 - (y - 1901) / 100 == if y % 100 == 0 then 1 else 0
  {
  }

  lemma QuadCenturyStep(y: int)
    ensures (y - 1600) / 400 - (y - 1601) / 400 == if y % 400 == 0 then 1 else 0
  {
  }

  lemma DivisorsNest(y: int)
    ensures y % 400 == 0 ==> y % 100 == 0
    ensures y % 100 == 0 ==> y % 4 == 0
  {
    if y % 400 == 0 {
      var k := y / 400;
      assert y == 400 * k;
      assert y / 100 == 4 * k;
    }
    if y % 100 == 0 {
      var k := y / 100;
      assert y == 100 * k;
      assert y / 4 == 25 * k;
    }
  }

  /** Consecutive years start DaysInYear apart. */
  lemma DayFromYearStep(y: int)
    ensures DayFromYear(y + 1) == DayFromYear(y) + DaysInYear(y)
  {
    var q4 := (y - 1968) / 4 - (y - 1969) / 4;
    var q100 := (y - 1900) / 100 - (y - 1901) / 100;
    var q400 := (y - 1600) / 400 - (y - 1601) / 400;
    assert DayFromYear(y + 1) == DayFromYear(y) + 365 + q4 - q100 + q400;
    QuarterStep(y);
    CenturyStep(y);
    QuadCenturyStep(y);
    DivisorsNest(y);
    assert DaysInYear(y) == 365 + q4 - q100 + q400;
  }

  /** Inside one year, MakeDay is DayFromYear plus the days before the month. */
  lemma MakeDayInYear(y: int, m: int, date: int)
    requires 0 <= m <= 11
    ensures MakeDay(y, m, date) == DayFromYear(y) + DaysBeforeMonth(y, m) + date - 1
  {
    assert m / 12 == 0 && m % 12 == m;
  }

  /** From day 1 of month `m` to day 0 of the next month is the month's
      Gregorian length, December carrying into January of the next year. */
  lemma MonthSpan(y: int, m: int)
    requires 0 <= m <= 11
    ensures MakeDay(y, m + 1, 0) - MakeDay(y, m, 1) + 1 == GregorianMonthLength(y, m)
  {
    MakeDayInYear(y, m, 1);
    if m == 11 {
      assert MakeDay(y, 12, 0) == DayFromYear(y + 1) - 1;
      DayFromYearStep(y);
    } else {
      MakeDayInYear(y, m + 1, 0);
      MonthStepInYear(y, m);
    }
  }

  lemma MonthStepInYear(y: int, m: int)
    requires 0 <= m < 11
    ensures DaysBeforeMonth(y, m + 1) - DaysBeforeMonth(y, m) == GregorianMonthLength(y, m)
  {
  }

  /** Day 0 of the month after `m`, counted from day 1 of month `m`: what
      `getDate()` reports for `new Date(y, m + 1, 0)` once the year is taken
      as it is. It is the Gregorian length of month `m`. */
  function DaysInMonth(y: int, m: int): (n: int)
    requires 0 <= m <= 11
    ensures n == GregorianMonthLength(y, m)
    ensures 28 <= n <= 31
  {
    MonthSpan(y, m);
    MakeDay(y, m + 1, 0) - MakeDay(y, m, 1) + 1
  }

  /** `getDaysInMonth(year, month)` as written: `new Date(year, month + 1, 0)
      .getDate()`, whose constructor first applies MakeFullYear. Reading
      years 1..99 as 1901..1999 keeps the leap-year rule, so the result is
      the Gregorian length for every year except 0, which is read as 1900. */
  function GetDaysInMonthAsWritten(year: int, month: int): (n: int)
    requires 0 <= month <= 11
    ensures year != 0 ==> n == GregorianMonthLength(year, month)
    ensures year == 0 ==> n == GregorianMonthLength(1900, month)
  {
    if 1 <= year <= 99 then
      assert InLeapYear(1900 + year) == InLeapYear(year);
      DaysInMonth(MakeFullYear(year), month)
    else
      DaysInMonth(MakeFullYear(year), month)
  }

  /** February of year 0 is a leap-year February, but `new Date(0, 2, 0)`
      lands in 1900, which is not a leap year. */
  lemma AsWrittenFebruaryOfYearZero()
    ensures GetDaysInMonthAsWritten(0, 1) == 28
    ensures GregorianMonthLength(0, 1) == 29
  {
  }

  /** A month of a year; `month` is 0-based as `getMonth()` returns it. */
  datatype YearMonth = YearMonth(year: int, month: int)

  function MonthIndex(ym: YearMonth): int
  {
    12 * ym.year + ym.month
  }

  /** `prevMonth`/`prevYear` in `renderCalendarDays`: January steps back to
      December of the previous year. */
  function PrevMonth(ym: YearMonth): (p: YearMonth)
    requires 0 <= ym.month <= 11
    ensures 0 <= p.month <= 11
    ensures MonthIndex(p) == MonthIndex(ym) - 1
    ensures ym.month == 0 ==> p == YearMonth(ym.year - 1, 11)
    ensures ym.month != 0 ==> p.year == ym.year
  {
    if ym.month == 0 then YearMonth(ym.year - 1, 11) else YearMonth(ym.year, ym.month - 1)
  }

  /** `setMonth(getMonth() + delta)`: the month carries into the year. */
  function ShiftMonth(ym: YearMonth, delta: int): (r: YearMonth)
    ensures 0 <= r.month <= 11
    ensures MonthIndex(r) == MonthIndex(ym) + delta
  {
    var total := ym.month + delta;
    YearMonth(ym.year + total / 12, total % 12)
  }

  /** The explicit January wrap and the carry of `setMonth` agree. */
  lemma PrevMonthIsShiftBack(ym: YearMonth)
    requires 0 <= ym.month <= 11
    ensures PrevMonth(ym) == ShiftMonth(ym, -1)
  {
  }

  /** The picker's state: the month on display and the selected day. */
  datatype CalendarView = CalendarView(shown: YearMonth, selected: Option<int>)

  /** `handlePrevMonth` and `handleNextMonth`: one month back or forward,
      selection cleared. */
  function NavigateMonth(v: CalendarView, forward: bool): (r: CalendarView)
    ensures r.selected.None?
    ensures 0 <= r.shown.month <= 11
    ensures MonthIndex(r.shown) == MonthIndex(v.shown) + (if forward then 1 else -1)
  {
    CalendarView(ShiftMonth(v.shown, if forward then 1 else -1), None)
  }

  /** A month or day number as the template literal writes it: with a
      leading "0" below 10. Numbers from 1 to 99 become exactly two digits
      that read back as the number. */
  function Pad(n: int): (r: string)
    ensures 1 <= n <= 99 ==> |r| == 2 && AllDigits(r) && DigitsValue(r) == n
    ensures n >= 10 ==> r == IntToString(n)
  {
    if n < 10 then
      var r := "0" + IntToString(n);
      assert 0 <= n ==> r == ['0', DigitChar(n)] && r[..1] == ['0'];
      r
    else if n <= 99 then
      NatToStringLength(n, 2);
      assert Pow10(1) == 10 && Pow10(2) == 100;
      IntToString(n)
    else
      IntToString(n)
  }

  /** Where the parts of `y-m-d` sit when `m` and `d` have two characters each. */
  lemma DashJoin(y: string, m: string, d: string)
    ensures var r := y + "-" + m + "-" + d;
            && |r| == |y| + |m| + |d| + 2 && r[..|y|] == y && r[|y|] == '-'
            && (|m| == 2 && |d| == 2 ==>
                  r[|r| - 5..|r| - 3] == m && r[|r| - 3] == '-' && r[|r| - 2..] == d)
  {
    var r := y + "-" + m + "-" + d;
    assert r[..|y|] == y;
    if |m| == 2 && |d| == 2 {
      assert r[|r| - 5..|r| - 3] == m;
      assert r[|r| - 2..] == d;
    }
  }

  /** The string `handleDayClick` passes to `onSelect` (`month0` is 0-based):
      the year as written by `String`, then, for a month and a day of the
      month, a dash, two digits for the 1-based month, a dash and two digits
      for the day. */
  function FormatSelectedDate(year: int, month0: int, day: int): (r: string)
    ensures |IntToString(year)| < |r| && r[..|IntToString(year)|] == IntToString(year)
    ensures r[|IntToString(year)|] == '-'
    ensures 0 <= month0 <= 11 && 1 <= day <= 31 ==>
              && |r| == |IntToString(year)| + 6 && r[|r| - 3] == '-'
              && AllDigits(r[|r| - 5..|r| - 3]) && DigitsValue(r[|r| - 5..|r| - 3]) == month0 + 1
              && AllDigits(r[|r| - 2..]) && DigitsValue(r[|r| - 2..]) == day
  {
    var y, m, d := IntToString(year), Pad(month0 + 1), Pad(day);
    DashJoin(y, m, d);
    var r := y + "-" + m + "-" + d;
    if 0 <= month0 <= 11 && 1 <= day <= 31 then
      assert |m| == 2 && AllDigits(m) && DigitsValue(m) == month0 + 1;
      assert |d| == 2 && AllDigits(d) && DigitsValue(d) == day;
      assert r[|r| - 5..|r| - 3] == m && r[|r| - 2..] == d;
      r
    else
      r
  }

  /** For a four-digit year, a month and a day of the month, the selected
      date is `YYYY-MM-DD` (the extended calendar-date form of ISO 8601,
      section 4.1.2.2) and each part reads back as the number it came from. */
  lemma FormatReadsBack(year: int, month0: int, day: int)
    requires 1000 <= year <= 9999 && 0 <= month0 <= 11 && 1 <= day <= 31
    ensures var s := FormatSelectedDate(year, month0, day);
            && |s| == 10 && s[4] == '-' && s[7] == '-'
            && AllDigits(s[..4]) && AllDigits(s[5..7]) && AllDigits(s[8..])
            && DigitsValue(s[..4]) == year && DigitsValue(s[5..7]) == month0 + 1
            && DigitsValue(s[8..]) == day
  {
    FourDigitYears(year);
    var s := FormatSelectedDate(year, month0, day);
    assert |s| == 10 && s[..4] == IntToString(year);
    assert s[5..7] == s[|s| - 5..|s| - 3] && s[8..] == s[|s| - 2..];
  }

  /** Shorter or longer years change the length: the string has ten
      characters exactly when the year is written with four characters. */
  lemma FormatLengthIff(year: int, month0: int, day: int)
    requires 0 <= month0 <= 11 && 1 <= day <= 31
    ensures |FormatSelectedDate(year, month0, day)| == 10 <==> (1000 <= year <= 9999 || -999 <= year <= -100)
  {
    var y := IntToString(year);
    assert |FormatSelectedDate(year, month0, day)| == |y| + 6;
    if year >= 0 {
      FourDigitYears(year);
    } else {
      assert |y| == 1 + |NatToString(-year)|;
      NatToStringLength(-year, 3);
      assert Pow10(2) == 100 && Pow10(3) == 1000;
    }
  }

  datatype ClickResult = ClickResult(view: CalendarView, emitted: Option<string>)

  /** `handleDayClick`: a day outside the shown month does nothing; a day of
      the shown month becomes the selection and, when there is an `onSelect`
      listener, is sent to it formatted. */
  function HandleDayClick(v: CalendarView, day: int, isCurrentMonth: bool, hasListener: bool): (r: ClickResult)
    ensures !isCurrentMonth ==> r == ClickResult(v, None)
    ensures isCurrentMonth ==> r.view == v.(selected := Some(day))
    ensures r.emitted.Some? <==> isCurrentMonth && hasListener
    ensures r.emitted.Some? ==> r.emitted.value == FormatSelectedDate(v.shown.year, v.shown.month, day)
  {
    if !isCurrentMonth then ClickResult(v, None)
    else
      var emitted := if hasListener then Some(FormatSelectedDate(v.shown.year, v.shown.month, day)) else None;
      ClickResult(v.(selected := Some(day)), emitted)
  }

  /** Which month a grid cell belongs to. */
  datatype Part = Leading | Current | Trailing

  datatype Cell = Cell(day: int, part: Part)

  const GridCells: int := 42

  /** `renderCalendarDays` for the shown month whose first day falls on
      weekday `firstDay` (0 = Sunday): the last `firstDay` days of the
      previous month, then every day of the month, then days 1, 2, ... of
      the next month until the six-week grid is full. */
  method RenderCalendarDays(shown: YearMonth, firstDay: nat) returns (days: seq<Cell>)
    requires 0 <= shown.month <= 11
    ensures var n := DaysInMonth(shown.year, shown.month);
            |days| == if firstDay + n <= GridCells then GridCells else firstDay + n
    ensures firstDay <= 6 ==> |days| == GridCells
    ensures var p := PrevMonth(shown); var prevDays := DaysInMonth(p.year, p.month);
            forall k :: 0 <= k < firstDay ==> days[k] == Cell(prevDays - firstDay + 1 + k, Leading)
    ensures var n := DaysInMonth(shown.year, shown.month);
            forall k :: firstDay <= k < firstDay + n ==> days[k] == Cell(k - firstDay + 1, Current)
    ensures var n := DaysInMonth(shown.year, shown.month);
            forall k :: firstDay + n <= k < |days| ==> days[k] == Cell(k - firstDay - n + 1, Trailing)
  {
    var daysInMonth := DaysInMonth(shown.year, shown.month);
    var prev := PrevMonth(shown);
    var daysInPrevMonth := DaysInMonth(prev.year, prev.month);
    days := [];
    var i: int := firstDay - 1;
    while i >= 0
      invariant -1 <= i <= firstDay - 1
      invariant |days| == firstDay - 1 - i
      invariant forall k :: 0 <= k < |days| ==> days[k] == Cell(daysInPrevMonth - firstDay + 1 + k, Leading)
    {
      days := days + [Cell(daysInPrevMonth - i, Leading)];
      i := i - 1;
    }
    i := 1;
    while i <= daysInMonth
      invariant 1 <= i <= daysInMonth + 1
      invariant |days| == firstDay + i - 1
      invariant forall k :: 0 <= k < firstDay ==> days[k] == Cell(daysInPrevMonth - firstDay + 1 + k, Leading)
      invariant forall k :: firstDay <= k < |days| ==> days[k] == Cell(k - firstDay + 1, Current)
    {
      days := days + [Cell(i, Current)];
      i := i + 1;
    }
    var nextDays := GridCells - |days|;
    i := 1;
    while i <= nextDays
      invariant 1 <= i && (nextDays >= 0 ==> i <= nextDays + 1) && (nextDays < 0 ==> i == 1)
      invariant |days| == firstDay + daysInMonth + i - 1
      invariant forall k :: 0 <= k < firstDay ==> days[k] == Cell(daysInPrevMonth - firstDay + 1 + k, Leading)
      invariant forall k :: firstDay <= k < firstDay + daysInMonth ==> days[k] == Cell(k - firstDay + 1, Current)
      invariant forall k :: firstDay + daysInMonth <= k < |days| ==> days[k] == Cell(k - firstDay - daysInMonth + 1, Trailing)
    {
      days := days + [Cell(i, Trailing)];
      i := i + 1;
    }
  }
}
