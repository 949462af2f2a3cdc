/**
 * The date arithmetic of the events calendar (src/components/events/GoogleCalendar.tsx):
 * days in a month, the weekday of its first day, month navigation, the grid of
 * day cells and the `YYYY-MM-DD` key of a cell. Months are zero-based as in
 * JavaScript's `Date`; years are proleptic Gregorian with a year 0.
 */
module CalendarDates {
  import opened Strings

  predicate IsLeapYear(year: int)
  {
    (year % 4 == 0 && year % 100 != 0) || year % 400 == 0
  }

  predicate IsMonth(month: int)
  {
    0 <= month < 12
  }

  /** `getDaysInMonth(year, month)`. */
  function DaysInMonth(year: int, month: int): (r: int)
    requires IsMonth(month)
    ensures 28 <= r <= 31
  {
    if month == 1 then (if IsLeapYear(year) then 29 else 28)
    else if month == 3 || month == 5 || month == 8 || month == 10 then 30
    else 31
  }

  // ---------------------------------------------------------------- day numbers

  /** Days from 1 January of year 1 to 1 January of `year` (negative before year 1). */
  function DaysBeforeYear(year: int): int
  {
    var y := year - 1;
    365 * y + y / 4 - y / 100 + y / 400
  }

  /** Days from 1 January to the first of `month`, from the table of cumulative month lengths. */
  function DaysBeforeMonth(year: int, month: int): int
    requires IsMonth(month)
  {
    [0, 31, 59, 90, 120, 151, 181, 212, 243, 273, 304, 334][month]
    + (if month >= 2 && IsLeapYear(year) then 1 else 0)
  }

  /** The day number of a date: 1 January of year 1 is day 0. */
  function DayNumber(year: int, month: int, day: int): int
    requires IsMonth(month)
  {
    DaysBeforeYear(year) + DaysBeforeMonth(year, month) + day - 1
  }

  /** `getDay()` of a day number, 0 being Sunday; day 0 was a Monday. */
  function Weekday(n: int): (w: int)
    ensures 0 <= w < 7
  {
    (n + 1) % 7
  }

  /** `getFirstDayOfMonth(year, month)`. */
  function FirstDayOfMonth(year: int, month: int): (r: int)
    requires IsMonth(month)
    ensures 0 <= r <= 6
  {
    Weekday(DayNumber(year, month, 1))
  }

  /** A year has 366 days exactly when it is a leap year, 365 otherwise. */
  lemma YearLength(year: int)
    ensures DaysBeforeYear(year + 1) - DaysBeforeYear(year) == if IsLeapYear(year) then 366 else 365
  {
    var a, b, c := year / 4 - (year - 1) / 4, year / 100 - (year - 1) / 100, year / 400 - (year - 1) / 400;
    assert DaysBeforeYear(year + 1) - DaysBeforeYear(year) == 365 + a - b + c;
    DivStep(year, 4);
    DivStep(year, 100);
    DivStep(year, 400);
    DividesChain(year);
  }

  /** Going from `y - 1` to `y` adds one to `y / d` exactly when `d` divides `y`. */
  lemma DivStep(y: int, d: int)
    requires d == 4 || d == 100 || d == 400
    ensures y / d - (y - 1) / d == if y % d == 0 then 1 else 0
  {
  }

  /** Divisibility by 400 implies divisibility by 100, which implies divisibility by 4. */
  lemma DividesChain(y: int)
    ensures y % 400 == 0 ==> y % 100 == 0
    ensures y % 100 == 0 ==> y % 4 == 0
  {
    if y % 400 == 0 {
      MultipleDivides(y / 400 * 4, 100);
      assert y == y / 400 * 4 * 100;
    }
    if y % 100 == 0 {
      MultipleDivides(y / 100 * 25, 4);
      assert y == y / 100 * 25 * 4;
    }
  }

  /** A multiple of `d` leaves no remainder. */
  lemma MultipleDivides(k: int, d: int)
    requires d == 4 || d == 100
    ensures (k * d) % d == 0
  {
    assert k * d == d * k + 0;
  }

  // ---------------------------------------------------------------- navigation

  datatype YearMonth = YearMonth(year: int, month: int)

  /** Months counted without wrapping: consecutive months differ by one. */
  function MonthIndex(ym: YearMonth): int
  {
    12 * ym.year + ym.month
  }

  /** `nextMonth`: December wraps to January of the following year. */
  function NextMonth(ym: YearMonth): (r: YearMonth)
    requires IsMonth(ym.month)
    ensures IsMonth(r.month)
    ensures MonthIndex(r) == MonthIndex(ym) + 1
  {
    if ym.month == 11 then YearMonth(ym.year + 1, 0) else YearMonth(ym.year, ym.month + 1)
  }

  /** `prevMonth`: January wraps to December of the preceding year. */
  function PrevMonth(ym: YearMonth): (r: YearMonth)
    requires IsMonth(ym.month)
    ensures IsMonth(r.month)
    ensures MonthIndex(r) == MonthIndex(ym) - 1
  {
    if ym.month == 0 then YearMonth(ym.year - 1, 11) else YearMonth(ym.year, ym.month - 1)
  }

  /** A month is determined by its index: no two valid year-months share one. */
  lemma MonthIndexInjective(a: YearMonth, b: YearMonth)
    requires IsMonth(a.month) && IsMonth(b.month)
    requires MonthIndex(a) == MonthIndex(b)
    ensures a == b
  {
  }

  /** Going back after going forward, or forward after going back, is the identity. */
  lemma NavigationInverse(ym: YearMonth)
    requires IsMonth(ym.month)
    ensures PrevMonth(NextMonth(ym)) == ym
    ensures NextMonth(PrevMonth(ym)) == ym
  {
    MonthIndexInjective(PrevMonth(NextMonth(ym)), ym);
    MonthIndexInjective(NextMonth(PrevMonth(ym)), ym);
  }

  /**
   * `getDaysInMonth` is the gap between the first of this month and the first of
   * the next, which is how `new Date(year, month + 1, 0)` finds the last day.
   */
  lemma DaysInMonthIsGap(ym: YearMonth)
    requires IsMonth(ym.month)
    ensures DayNumber(NextMonth(ym).year, NextMonth(ym).month, 1) ==
      DayNumber(ym.year, ym.month, 1) + DaysInMonth(ym.year, ym.month)
  {
    if ym.month == 11 {
      YearLength(ym.year);
    }
  }

  /** Advancing one month shifts the weekday of the first by the month's length modulo 7. */
  lemma FirstDayAdvance(ym: YearMonth)
    requires IsMonth(ym.month)
    ensures FirstDayOfMonth(NextMonth(ym).year, NextMonth(ym).month) ==
      (FirstDayOfMonth(ym.year, ym.month) + DaysInMonth(ym.year, ym.month)) % 7
  {
    DaysInMonthIsGap(ym);
    var n := DayNumber(ym.year, ym.month, 1);
    ModShift(n + 1, DaysInMonth(ym.year, ym.month));
  }

  /** `(a + k) % 7 == (a % 7 + k) % 7`. */
  lemma ModShift(a: int, k: int)
    ensures (a + k) % 7 == (a % 7 + k) % 7
  {
    var q := a / 7;
    assert a == 7 * q + a % 7;
    assert a + k == 7 * q + (a % 7 + k);
  }

  /** Fixed points of the calendar: leap and common Februaries, and known first weekdays. */
  lemma KnownDates()
    ensures DaysInMonth(2024, 1) == 29 && DaysInMonth(2023, 1) == 28
    ensures DaysInMonth(2000, 1) == 29 && DaysInMonth(1900, 1) == 28
    ensures FirstDayOfMonth(1970, 0) == 4   // Thursday
    ensures FirstDayOfMonth(2024, 0) == 1   // Monday
    ensures FirstDayOfMonth(2026, 9) == 4   // Thursday
  {
  }

  // ---------------------------------------------------------------- grid

  datatype Cell = Blank | Day(day: int)

  /** The calendar grid: `firstDay` empty cells, then one cell per day of the month. */
  function MonthGrid(year: int, month: int): (cells: seq<Cell>)
    requires IsMonth(month)
    ensures |cells| == FirstDayOfMonth(year, month) + DaysInMonth(year, month)
    ensures forall k :: 0 <= k < FirstDayOfMonth(year, month) ==> cells[k] == Blank
    ensures forall d :: 1 <= d <= DaysInMonth(year, month) ==>
      cells[FirstDayOfMonth(year, month) + d - 1] == Day(d)
  {
    seq(FirstDayOfMonth(year, month), _ => Blank) + seq(DaysInMonth(year, month), i => Day(i + 1))
  }

  /**
   * Every day of the month has a cell, and the column of that cell in the
   * seven-column grid is the day's weekday.
   */
  lemma GridColumnIsWeekday(year: int, month: int, day: int)
    requires IsMonth(month) && 1 <= day <= DaysInMonth(year, month)
    ensures var k := FirstDayOfMonth(year, month) + day - 1;
      k < |MonthGrid(year, month)| && MonthGrid(year, month)[k] == Day(day)
      && k % 7 == Weekday(DayNumber(year, month, day))
  {
    var n := DayNumber(year, month, 1);
    ModShift(n + 1, day - 1);
    var cells := MonthGrid(year, month);
    var first := FirstDayOfMonth(year, month);
    assert cells[first + day - 1] == seq(DaysInMonth(year, month), i => Day(i + 1))[day - 1];
  }

  // ---------------------------------------------------------------- date keys

  /** The day-cell key `${year}-${pad2(month + 1)}-${pad2(day)}`. */
  function DateKey(year: int, month: int, day: int): string
    requires IsMonth(month) && 1 <= day <= DaysInMonth(year, month)
  {
    IntToString(year) + "-" + TwoDigits(month + 1) + "-" + TwoDigits(day)
  }

  datatype Date = Date(year: int, month: int, day: int)

  /** Reads a key of the form `year-MM-DD` back into a zero-based-month date. */
  function ParseDateKey(key: string): Option<Date>
  {
    var n := |key|;
    if n < 7 || key[n - 6] != '-' || key[n - 3] != '-' then None
    else
      var year, mm, dd := ParseInt(key[..n - 6]), key[n - 5..n - 3], key[n - 2..];
      if year.None? || !AllDigits(mm) || !AllDigits(dd) then None
      else Some(Date(year.value, DecimalValue(mm) - 1, DecimalValue(dd)))
  }

  /** Every key reads back as the date it was built from, so distinct days have distinct keys. */
  lemma DateKeyRoundTrip(year: int, month: int, day: int)
    requires IsMonth(month) && 1 <= day <= DaysInMonth(year, month)
    ensures ParseDateKey(DateKey(year, month, day)) == Some(Date(year, month, day))
  {
    TwoDigitsValue(month + 1);
    TwoDigitsValue(day);
    IntToStringRoundTrip(year);
    SplitKey(IntToString(year), TwoDigits(month + 1), TwoDigits(day));
  }

  /** `ParseDateKey` takes a key of the form `y-mm-dd` apart at its two last dashes. */
  lemma SplitKey(y: string, mm: string, dd: string)
    requires |y| >= 1 && |mm| == 2 && |dd| == 2
    ensures var key := y + "-" + mm + "-" + dd; var n := |key|;
      n >= 7 && key[n - 6] == '-' && key[n - 3] == '-'
      && key[..n - 6] == y && key[n - 5..n - 3] == mm && key[n - 2..] == dd
  {
    var key := y + "-" + mm + "-" + dd;
    var n := |key|;
    assert n == |y| + 6;
    assert key[..n - 6] == y;
    assert key[n - 5..n - 3] == mm;
    assert key[n - 2..] == dd;
  }

  /** Two cells have the same key only if they are the same day. */
  lemma DateKeyInjective(y1: int, m1: int, d1: int, y2: int, m2: int, d2: int)
    requires IsMonth(m1) && 1 <= d1 <= DaysInMonth(y1, m1)
    requires IsMonth(m2) && 1 <= d2 <= DaysInMonth(y2, m2)
    requires DateKey(y1, m1, d1) == DateKey(y2, m2, d2)
    ensures y1 == y2 && m1 == m2 && d1 == d2
  {
    DateKeyRoundTrip(y1, m1, d1);
    DateKeyRoundTrip(y2, m2, d2);
  }

  /** Every character is a digit or a dash. */
  predicate DigitsOrDashes(s: string)
  {
    forall i :: 0 <= i < |s| ==> IsDigit(s[i]) || s[i] == '-'
  }

  lemma DigitsOrDashesAppend(a: string, b: string)
    requires DigitsOrDashes(a) && DigitsOrDashes(b)
    ensures DigitsOrDashes(a + b)
  {
    forall i | 0 <= i < |a + b| ensures IsDigit((a + b)[i]) || (a + b)[i] == '-' {
      if i < |a| {
        assert (a + b)[i] == a[i];
      } else {
        assert (a + b)[i] == b[i - |a|];
      }
    }
  }

  /** The decimal form of a year is digits, after a minus sign for a negative year. */
  lemma YearCharacters(year: int)
    ensures DigitsOrDashes(IntToString(year))
  {
    if year < 0 {
      DigitsOrDashesAppend("-", NatToString(-year));
    }
  }

  /** A key consists of digits and dashes only; in particular it holds no `T`. */
  lemma DateKeyCharacters(year: int, month: int, day: int)
    requires IsMonth(month) && 1 <= day <= DaysInMonth(year, month)
    ensures DigitsOrDashes(DateKey(year, month, day))
    ensures 'T' !in DateKey(year, month, day)
  {
    TwoDigitsValue(month + 1);
    TwoDigitsValue(day);
    YearCharacters(year);
    KeyShapeCharacters(IntToString(year), TwoDigits(month + 1), TwoDigits(day));
    NoLetterT(DateKey(year, month, day));
  }

  /** Digits-and-dashes parts joined by dashes stay digits and dashes. */
  lemma KeyShapeCharacters(y: string, mm: string, dd: string)
    requires DigitsOrDashes(y) && AllDigits(mm) && AllDigits(dd)
    ensures DigitsOrDashes(y + "-" + mm + "-" + dd)
  {
    DigitsOrDashesAppend(y, "-");
    DigitsOrDashesAppend(y + "-", mm);
    DigitsOrDashesAppend(y + "-" + mm, "-");
    DigitsOrDashesAppend(y + "-" + mm + "-", dd);
  }

  lemma NoLetterT(s: string)
    requires DigitsOrDashes(s)
    ensures 'T' !in s
  {
  }

  // ---------------------------------------------------------------- as written: two-digit years

  /** The year `new Date(year, month, day)` uses: 0 to 99 are read as 1900 to 1999. */
  function JsFullYear(year: int): int
  {
    if 0 <= year <= 99 then 1900 + year else year
  }

  /** `new Date(year, month + 1, 0).getDate()` exactly as the source calls it. */
  function JsDaysInMonth(year: int, month: int): (r: int)
    requires IsMonth(month)
    ensures 28 <= r <= 31
  {
    DaysInMonth(JsFullYear(year), month)
  }

  /** `new Date(year, month, 1).getDay()` exactly as the source calls it. */
  function JsFirstDayOfMonth(year: int, month: int): (r: int)
    requires IsMonth(month)
    ensures 0 <= r <= 6
  {
    FirstDayOfMonth(JsFullYear(year), month)
  }

  /**
   * For years 0 to 99 the source lays out a month of 1900 to 1999: February of
   * year 0 gets 28 days and January of year 0 starts on a Monday, where the
   * Gregorian calendar gives 29 days and a Saturday.
   */
  lemma TwoDigitYearMisread()
    ensures JsDaysInMonth(0, 1) == 28 && DaysInMonth(0, 1) == 29
    ensures JsFirstDayOfMonth(0, 0) == 1 && FirstDayOfMonth(0, 0) == 6
  {
  }

  /** Outside years 0 to 99 the source's calls agree with the Gregorian definitions. */
  lemma JsAgreesOutsideTwoDigitYears(year: int, month: int)
    requires IsMonth(month) && (year < 0 || year > 99)
    ensures JsDaysInMonth(year, month) == DaysInMonth(year, month)
    ensures JsFirstDayOfMonth(year, month) == FirstDayOfMonth(year, month)
  {
  }
}
