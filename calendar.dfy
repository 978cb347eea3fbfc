/**
  The legacy Julian-day calendar converter (`leapyear`, `caldate_1900` and the
  12-hour shift applied by `AWIOrbitThickness._get_datetime`).

  A Julian day value is modelled as its integer day part plus its integer
  second of the day; the conversion to a Gregorian date is the integer
  algorithm that divides successively by 146097 (400 years), 1461 (4 years)
  and 153 (five months) on a day count that starts on 1 March of year 0.
*/
module Calendar {
  import opened Outcomes

  /** Day values below this threshold use the short, 1900-based convention. */
  const REBASE_THRESHOLD: int := 2440000
  /** What a short day value is shifted by (2415020 + 1). */
  const REBASE_OFFSET: int := 2415021
  /** Julian day number of 1 March of year 0, the origin of the March-based count. */
  const MARCH_EPOCH: int := 1721119
  const SECONDS_PER_DAY: int := 86400
  /** The fixed forward shift `_get_datetime` applies to every timestamp. */
  const TWELVE_HOURS: int := 43200
  /** The year range Python's datetime accepts. */
  const MIN_YEAR: int := 1
  const MAX_YEAR: int := 9999

  type SecondOfDay = s: int | 0 <= s < 86400

  /** A Julian day value: its integer day and its second within that day. */
  datatype JulianInstant = JulianInstant(day: int, second: SecondOfDay)

  datatype Date = Date(year: int, month: int, day: int)

  datatype Clock = Clock(hour: int, minute: int, second: int)

  /** The dictionary `caldate_1900` returns, without its float "msec" entry. */
  datatype CalDate = CalDate(year: int, yearday: int, month: int, day: int,
                             hour: int, minute: int, second: int)

  datatype DateTime = DateTime(date: Date, clock: Clock)

  // ---------------------------------------------------------------------
  // Leap years and month lengths

  /** 1 for a Gregorian leap year, 0 otherwise. */
  function LeapYear(year: int): (r: int)
    ensures r == 0 || r == 1
    ensures r == 1 <==> year % 4 == 0 && (year % 100 != 0 || year % 400 == 0)
  {
    if year % 4 == 0 then
      if year % 100 == 0 then
        if year % 400 == 0 then 1 else 0
      else 1
    else 0
  }

  predicate IsLeap(year: int) {
    LeapYear(year) == 1
  }

  /** The length of a month of the Gregorian calendar, as an independent table. */
  function DaysInMonth(month: int, leap: bool): int
    requires 1 <= month <= 12
  {
    if month == 2 then (if leap then 29 else 28)
    else if month == 4 || month == 6 || month == 9 || month == 11 then 30
    else 31
  }

  /** Cumulative day-of-year of the first of each month, non-leap years (`ivd`). */
  const IVD: seq<int> := [1, 32, 60, 91, 121, 152, 182, 213, 244, 274, 305, 335, 366]
  /** The same for leap years (`ivdl`). */
  const IVDL: seq<int> := [1, 32, 61, 92, 122, 153, 183, 214, 245, 275, 306, 336, 367]

  function YeardayTable(leap: bool): (t: seq<int>)
    ensures |t| == 13
  {
    if leap then IVDL else IVD
  }

  /** Both tables start at day 1 and step by the month lengths of their kind of year. */
  lemma TablesStepByMonthLengths(leap: bool)
    ensures YeardayTable(leap)[0] == 1
    ensures YeardayTable(leap)[12] == (if leap then 367 else 366)
    ensures forall i :: 0 <= i < 12 ==>
      YeardayTable(leap)[i + 1] - YeardayTable(leap)[i] == DaysInMonth(i + 1, leap)
  {
  }

  predicate ValidDate(d: Date) {
    1 <= d.month <= 12 && 1 <= d.day <= DaysInMonth(d.month, IsLeap(d.year))
  }

  predicate ValidClock(c: Clock) {
    0 <= c.hour < 24 && 0 <= c.minute < 60 && 0 <= c.second < 60
  }

  predicate ValidDateTime(t: DateTime) {
    ValidDate(t.date) && ValidClock(t.clock)
  }

  function ClockSeconds(c: Clock): int {
    c.hour * 3600 + c.minute * 60 + c.second
  }

  // ---------------------------------------------------------------------
  // Day numbers and dates

  /** Moves a short (1900-based) day value onto the full Julian day count. */
  function Rebase(day: int): (r: int)
    ensures day < REBASE_THRESHOLD ==> r == day + 2415020 + 1
    ensures day >= REBASE_THRESHOLD ==> r == day
  {
    if day < REBASE_THRESHOLD then day + REBASE_OFFSET else day
  }

  /** The calendar month (1..12) of the March-based month m (0 = March). */
  function CalendarMonth(m: int): int {
    if m < 10 then m + 3 else m - 9
  }

  /** The day of the March-based year on which March-based month m starts, less one. */
  function MonthOffset(m: int): int {
    (153 * m + 2) / 5
  }

  /** The day, counted from the March epoch, on which March-based year y starts. */
  function MarchYearStart(y: int): int {
    146097 * (y / 100) / 4 + 1461 * (y % 100) / 4
  }

  /**
    Reference conversion of a Gregorian date to its Julian day number: the
    inverse of the conversion below.
  */
  function ToDayNumber(d: Date): int {
    var m := if d.month > 2 then d.month - 3 else d.month + 9;
    var y := if d.month > 2 then d.year else d.year - 1;
    MarchYearStart(y) + MonthOffset(m) + d.day + MARCH_EPOCH
  }

  /** A March-based year, month (0 = March) and day as a calendar date. */
  function MarchDate(y: int, m: int, d: int): Date {
    if m < 10 then Date(y, m + 3, d) else Date(y + 1, m - 9, d)
  }

  /**
    The 400-year step of the conversion: 4 j0 - 1 divided by 146097 gives the
    cycle c, and the day q within the cycle; q reaches 36524 only on the extra
    day that ends a cycle whose last year is divisible by 400.
  */
  function CycleSplit(j0: int): (r: (int, int))
    ensures 0 <= r.1 <= 36524
    ensures 146097 * r.0 / 4 + r.1 + 1 == j0
    ensures r.1 == 36524 ==> (r.0 + 1) % 4 == 0
  {
    var jin := 4 * j0 - 1;
    var c := jin / 146097;
    var j := jin - 146097 * c;
    CycleSplitArithmetic(j0, c, j);
    (c, j / 4)
  }

  /** What CycleSplit needs: j0 is recovered from the cycle and the day within it. */
  lemma CycleSplitArithmetic(j0: int, c: int, j: int)
    requires 4 * j0 - 1 == 146097 * c + j && 0 <= j < 146097
    ensures 0 <= j / 4 <= 36524
    ensures 146097 * c / 4 + j / 4 + 1 == j0
    ensures j / 4 == 36524 ==> (c + 1) % 4 == 0
  {
    var a, b := c / 4, j / 4;
    assert c == 4 * a + c % 4 && j == 4 * b + j % 4;
    assert 146097 * c == 4 * (36524 * c + a) + c % 4;
    assert 146097 * c / 4 == 36524 * c + a;
    assert 4 * j0 == 4 * (36524 * c + a + b) + c % 4 + j % 4 + 1;
    assert c % 4 + j % 4 + 1 == 4;
  }

  /**
    The 4-year and 1-year step: dividing 4 q + 3 by 1461 gives the year ya of
    the century and the day d1 (1-based) of the March-based year; d1 reaches
    366 only in the fourth year of a 4-year group.
  */
  function YearSplit(q: int): (r: (int, int))
    requires 0 <= q <= 36524
    ensures 0 <= r.0 <= 99 && 1 <= r.1 <= 366
    ensures 1461 * r.0 / 4 + r.1 == q + 1
    ensures r.1 == 366 ==> r.0 % 4 == 3 && (r.0 == 99 ==> q == 36524)
  {
    var jin := 4 * q + 3;
    var ya := jin / 1461;
    var k := jin - 1461 * ya;
    YearSplitArithmetic(q, ya, k);
    (ya, (k + 4) / 4)
  }

  /** What YearSplit needs: q is recovered from the year of the century and the day within it. */
  lemma YearSplitArithmetic(q: int, ya: int, k: int)
    requires 0 <= q <= 36524
    requires 4 * q + 3 == 1461 * ya + k && 0 <= k < 1461
    ensures 0 <= ya <= 99 && 1 <= (k + 4) / 4 <= 366
    ensures 1461 * ya / 4 + (k + 4) / 4 == q + 1
    ensures (k + 4) / 4 == 366 ==> ya % 4 == 3 && (ya == 99 ==> q == 36524)
  {
    var a, b := ya / 4, (k + 4) / 4;
    assert ya == 4 * a + ya % 4 && k + 4 == 4 * b + (k + 4) % 4;
    assert 1461 * ya == 4 * (365 * ya + a) + ya % 4;
    assert 1461 * ya / 4 == 365 * ya + a;
    assert 4 * q + 4 == 4 * (365 * ya + a + b) + ya % 4 + (k + 4) % 4 - 3;
    assert ya % 4 + (k + 4) % 4 == 3;
  }

  /**
    The month step: dividing 5 d1 - 3 by 153 gives the March-based month m and
    the day d2 of the month; only the 366th day falls on a 29 February.
  */
  function MonthSplit(d1: int): (r: (int, int))
    requires 1 <= d1 <= 366
    ensures 0 <= r.0 <= 11
    ensures MonthOffset(r.0) + r.1 == d1
    ensures 1 <= r.1 <= DaysInMonth(CalendarMonth(r.0), d1 == 366)
    ensures d1 == 366 ==> r.0 == 11
  {
    var jin := 5 * d1 - 3;
    var m := jin / 153;
    var d2 := ((jin - 153 * m) + 5) / 5;
    assert 0 <= jin - 153 * m < 153;
    MonthCases(d1, m, d2);
    (m, d2)
  }

  lemma MonthCases(d1: int, m: int, d2: int)
    requires 1 <= d1 <= 366
    requires m == (5 * d1 - 3) / 153
    requires d2 == ((5 * d1 - 3 - 153 * m) + 5) / 5
    ensures 0 <= m <= 11
    ensures MonthOffset(m) + d2 == d1
    ensures 1 <= d2 <= DaysInMonth(CalendarMonth(m), d1 == 366)
    ensures d1 == 366 ==> m == 11
  {
    assert 0 <= 5 * d1 - 3 - 153 * m < 153;
    if m == 0 { } else if m == 1 { } else if m == 2 { } else if m == 3 { }
    else if m == 4 { } else if m == 5 { } else if m == 6 { } else if m == 7 { }
    else if m == 8 { } else if m == 9 { } else if m == 10 { } else { }
  }

  /** The Gregorian date of a Julian day number, the integer part of `caldate_1900`. */
  function FromDayNumber(n: int): (r: Date)
    ensures ValidDate(r)
  {
    var (c, q) := CycleSplit(n - MARCH_EPOCH);
    var (ya, d1) := YearSplit(q);
    var (m, d2) := MonthSplit(d1);
    LeapDayStep(c, q, ya, d1);
    MarchDate(c * 100 + ya, m, d2)
  }

  /** A 29 February only comes out in a leap year. */
  lemma LeapDayStep(c: int, q: int, ya: int, d1: int)
    requires 0 <= ya <= 99
    requires q == 36524 ==> (c + 1) % 4 == 0
    requires d1 == 366 ==> ya % 4 == 3 && (ya == 99 ==> q == 36524)
    ensures d1 == 366 ==> IsLeap(c * 100 + ya + 1)
  {
    if d1 == 366 {
      var yr := c * 100 + ya + 1;
      DivMod(yr, 4, 25 * c + ya / 4 + 1, 0);
      if ya == 99 {
        DivMod(yr, 400, (c + 1) / 4, 0);
      } else {
        DivMod(yr, 100, c, ya + 1);
      }
    }
  }

  /** x divided by a positive constant m, when x is known as m k + r. */
  lemma DivMod(x: int, m: int, k: int, r: int)
    requires m == 4 || m == 100 || m == 400
    requires 0 <= r < m && x == m * k + r
    ensures x / m == k && x % m == r
  {
  }

  /** The day number of a date given in March-based terms. */
  lemma ToDayNumberOfMarchDate(c: int, ya: int, m: int, d: int)
    requires 0 <= ya <= 99 && 0 <= m <= 11
    ensures ToDayNumber(MarchDate(c * 100 + ya, m, d))
            == 146097 * c / 4 + 1461 * ya / 4 + MonthOffset(m) + d + MARCH_EPOCH
  {
    var y := c * 100 + ya;
    assert y / 100 == c && y % 100 == ya;
  }

  /** Converting a day number to a date and back gives the day number. */
  lemma ToDayNumberOfFromDayNumber(n: int)
    ensures ToDayNumber(FromDayNumber(n)) == n
  {
    var (c, q) := CycleSplit(n - MARCH_EPOCH);
    var (ya, d1) := YearSplit(q);
    var (m, d2) := MonthSplit(d1);
    ToDayNumberOfMarchDate(c, ya, m, d2);
  }

  /** The month step recovers the month and day it is given. */
  lemma MonthSplitOf(m: int, d2: int, leap: bool)
    requires 0 <= m <= 11
    requires 1 <= d2 <= DaysInMonth(CalendarMonth(m), leap)
    ensures 1 <= MonthOffset(m) + d2 <= 366
    ensures MonthSplit(MonthOffset(m) + d2) == (m, d2)
    ensures MonthOffset(m) + d2 == 366 ==> m == 11 && d2 == 29
  {
    var d1 := MonthOffset(m) + d2;
    if m == 0 { } else if m == 1 { } else if m == 2 { } else if m == 3 { }
    else if m == 4 { } else if m == 5 { } else if m == 6 { } else if m == 7 { }
    else if m == 8 { } else if m == 9 { } else if m == 10 { } else { }
  }

  /** The year step recovers the year of the century and the day it is given. */
  lemma YearSplitOf(ya: int, d1: int)
    requires 0 <= ya <= 99 && 1 <= d1 <= 366
    requires d1 == 366 ==> ya % 4 == 3
    ensures 0 <= 1461 * ya / 4 + d1 - 1 <= 36524
    ensures YearSplit(1461 * ya / 4 + d1 - 1) == (ya, d1)
    ensures 1461 * ya / 4 + d1 - 1 == 36524 ==> ya == 99 && d1 == 366
  {
    var a, r := ya / 4, ya % 4;
    assert 1461 * ya == 4 * (365 * ya + a) + r;
    assert 1461 * ya / 4 == 365 * ya + a;
    var q := 365 * ya + a + d1 - 1;
    var k := 4 * d1 - 1 - r;
    assert 0 <= k < 1461 && 4 * q + 3 == 1461 * ya + k;
    assert (4 * q + 3) / 1461 == ya;
    assert (k + 4) / 4 == d1;
  }

  /** The cycle step recovers the cycle and the day it is given. */
  lemma CycleSplitOf(j0: int, c: int, q: int)
    requires 0 <= q <= 36524
    requires q == 36524 ==> c % 4 == 3
    requires j0 == 146097 * c / 4 + q + 1
    ensures CycleSplit(j0) == (c, q)
  {
    assert 146097 * c / 4 == 36524 * c + c / 4;
    assert 146097 * c == 4 * (146097 * c / 4) + c % 4;
  }

  /** FromDayNumber assembles its date from the three steps. */
  lemma FromDayNumberBySteps(n: int, c: int, q: int, ya: int, d1: int, m: int, d2: int)
    requires CycleSplit(n - MARCH_EPOCH) == (c, q)
    requires 0 <= q <= 36524 && YearSplit(q) == (ya, d1)
    requires 1 <= d1 <= 366 && MonthSplit(d1) == (m, d2)
    ensures FromDayNumber(n) == MarchDate(c * 100 + ya, m, d2)
  {
  }

  /** A valid date in March-based terms: year of the century, month and the leap-day conditions. */
  lemma MarchTermsOfDate(d: Date, m: int, y: int)
    requires ValidDate(d)
    requires m == (if d.month > 2 then d.month - 3 else d.month + 9)
    requires y == (if d.month > 2 then d.year else d.year - 1)
    ensures y == y / 100 * 100 + y % 100 && 0 <= y % 100 <= 99 && 0 <= m <= 11
    ensures MarchDate(y / 100 * 100 + y % 100, m, d.day) == d && CalendarMonth(m) == d.month
    ensures m == 11 && d.day == 29 ==> y % 100 % 4 == 3 && (y % 100 == 99 ==> y / 100 % 4 == 3)
  {
    if m == 11 && d.day == 29 {
      LeapDayOfMarchYear(y);
    }
  }

  /** The March-based year y ends with a 29 February only in the last year of a 4-year group. */
  lemma LeapDayOfMarchYear(y: int)
    requires IsLeap(y + 1)
    ensures y % 100 % 4 == 3
    ensures y % 100 == 99 ==> y / 100 % 4 == 3
  {
    var c, ya := y / 100, y % 100;
    var k := (y + 1) / 4 - 25 * c;
    assert y + 1 == 4 * ((y + 1) / 4);
    assert ya == 4 * (k - 1) + 3;
    if ya == 99 {
      var w := (y + 1) / 400;
      assert y + 1 == 400 * w;
      assert c == 4 * (w - 1) + 3;
    }
  }

  /** Converting a valid date to its day number and back gives the date. */
  lemma FromDayNumberOfToDayNumber(d: Date)
    requires ValidDate(d)
    ensures FromDayNumber(ToDayNumber(d)) == d
  {
    var c, q, ya, d1, m := MarchStepsOfDate(d);
    CycleSplitOf(ToDayNumber(d) - MARCH_EPOCH, c, q);
    FromDayNumberBySteps(ToDayNumber(d), c, q, ya, d1, m, d.day);
  }

  /** The cycle, day of cycle, year of century, day of year and month a valid date is made of. */
  lemma MarchStepsOfDate(d: Date) returns (c: int, q: int, ya: int, d1: int, m: int)
    requires ValidDate(d)
    ensures 0 <= q <= 36524 && (q == 36524 ==> c % 4 == 3)
    ensures ToDayNumber(d) - MARCH_EPOCH == 146097 * c / 4 + q + 1
    ensures YearSplit(q) == (ya, d1) && 1 <= d1 <= 366 && MonthSplit(d1) == (m, d.day)
    ensures MarchDate(c * 100 + ya, m, d.day) == d
  {
    m := if d.month > 2 then d.month - 3 else d.month + 9;
    var y := if d.month > 2 then d.year else d.year - 1;
    c, ya := y / 100, y % 100;
    MarchTermsOfDate(d, m, y);
    MonthSplitOf(m, d.day, IsLeap(d.year));
    d1 := MonthOffset(m) + d.day;
    YearSplitOf(ya, d1);
    q := 1461 * ya / 4 + d1 - 1;
  }

  /** Two valid dates with the same day number are the same date. */
  lemma ToDayNumberInjective(a: Date, b: Date)
    requires ValidDate(a) && ValidDate(b)
    requires ToDayNumber(a) == ToDayNumber(b)
    ensures a == b
  {
    FromDayNumberOfToDayNumber(a);
    FromDayNumberOfToDayNumber(b);
  }

  // ---------------------------------------------------------------------
  // Advancing by one day (what datetime + timedelta does at a day boundary)

  function NextDay(d: Date): (r: Date)
    requires ValidDate(d)
    ensures ValidDate(r)
  {
    if d.day < DaysInMonth(d.month, IsLeap(d.year)) then Date(d.year, d.month, d.day + 1)
    else if d.month < 12 then Date(d.year, d.month + 1, 1)
    else Date(d.year + 1, 1, 1)
  }

  /** A March-based year has 366 days when the calendar year it ends in is a leap year. */
  lemma MarchYearLength(y: int)
    ensures MarchYearStart(y + 1) - MarchYearStart(y) == 365 + LeapYear(y + 1)
  {
    var c, ya := y / 100, y % 100;
    assert 146097 * c / 4 == 36524 * c + c / 4;
    assert 1461 * ya / 4 == 365 * ya + ya / 4;
    if ya < 99 {
      assert (y + 1) / 100 == c && (y + 1) % 100 == ya + 1;
      assert 1461 * (ya + 1) / 4 == 365 * (ya + 1) + (ya + 1) / 4;
      assert (y + 1) % 4 == (ya + 1) % 4;
    } else {
      assert (y + 1) / 100 == c + 1 && (y + 1) % 100 == 0;
      assert 146097 * (c + 1) / 4 == 36524 * (c + 1) + (c + 1) / 4;
      assert y + 1 == 100 * (c + 1);
      assert (y + 1) % 400 == 0 <==> (c + 1) % 4 == 0;
    }
  }

  /** NextDay advances the day number by exactly one. */
  lemma ToDayNumberOfNextDay(d: Date)
    requires ValidDate(d)
    ensures ToDayNumber(NextDay(d)) == ToDayNumber(d) + 1
  {
    if d.day < DaysInMonth(d.month, IsLeap(d.year)) {
    } else if d.month == 2 {
      NextDayAfterFebruary(d.year, d.day);
    } else {
      NextDayAfterMonth(d);
    }
  }

  /** The day after the last of February is the first of March. */
  lemma NextDayAfterFebruary(year: int, day: int)
    requires day == DaysInMonth(2, IsLeap(year))
    ensures ToDayNumber(Date(year, 3, 1)) == ToDayNumber(Date(year, 2, day)) + 1
  {
    assert ToDayNumber(Date(year, 3, 1)) == MarchYearStart(year) + 1 + MARCH_EPOCH;
    assert ToDayNumber(Date(year, 2, day)) == MarchYearStart(year - 1) + 337 + day + MARCH_EPOCH;
    MarchYearLength(year - 1);
  }

  /** The day after the last of any other month is the first of the next month. */
  lemma NextDayAfterMonth(d: Date)
    requires ValidDate(d) && d.month != 2 && d.day == DaysInMonth(d.month, IsLeap(d.year))
    ensures ToDayNumber(NextDay(d)) == ToDayNumber(d) + 1
  {
    MonthOffsetStep(if d.month > 2 then d.month - 3 else d.month + 9);
  }

  /** Each March-based month but the last (February) starts where the one before it ends. */
  lemma MonthOffsetStep(m: int)
    requires 0 <= m <= 10
    ensures MonthOffset(m + 1) == MonthOffset(m) + DaysInMonth(CalendarMonth(m), false)
  {
    if m == 0 { } else if m == 1 { } else if m == 2 { } else if m == 3 { }
    else if m == 4 { } else if m == 5 { } else if m == 6 { } else if m == 7 { }
    else if m == 8 { } else if m == 9 { } else { }
  }

  /** The date of the next day number is the next date. */
  lemma FromDayNumberSucc(n: int)
    ensures FromDayNumber(n + 1) == NextDay(FromDayNumber(n))
  {
    var d := FromDayNumber(n);
    ToDayNumberOfFromDayNumber(n);
    ToDayNumberOfFromDayNumber(n + 1);
    ToDayNumberOfNextDay(d);
    ToDayNumberInjective(FromDayNumber(n + 1), NextDay(d));
  }

  // ---------------------------------------------------------------------
  // caldate_1900 and _get_datetime

  /** Hour, minute and second of a second of the day. */
  function ClockOf(s: SecondOfDay): (r: Clock)
    ensures ValidClock(r)
    ensures ClockSeconds(r) == s
  {
    Clock(s / 3600, (s % 3600) / 60, s % 60)
  }

  /** Two valid clocks showing the same second of the day are equal. */
  lemma ClockSecondsInjective(a: Clock, b: Clock)
    requires ValidClock(a) && ValidClock(b)
    requires ClockSeconds(a) == ClockSeconds(b)
    ensures a == b
  {
    assert a.hour == ClockSeconds(a) / 3600 && b.hour == ClockSeconds(b) / 3600;
  }

  /** The day of the year (1-based) of a valid date, looked up in `ivd` or `ivdl`. */
  function Yearday(d: Date): int
    requires ValidDate(d)
  {
    YeardayTable(IsLeap(d.year))[d.month - 1] + d.day - 1
  }

  /** The table lookup agrees with counting days from 1 January of the same year. */
  lemma YeardayCountsFromJanuaryFirst(d: Date)
    requires ValidDate(d)
    ensures Yearday(d) == ToDayNumber(d) - ToDayNumber(Date(d.year, 1, 1)) + 1
    ensures 1 <= Yearday(d) <= 365 + LeapYear(d.year)
  {
    YeardayTableByMonthOffsets(d.month, IsLeap(d.year));
    if d.month > 2 {
      MarchYearLength(d.year - 1);
    }
  }

  /**
    The first day of each month in the tables, in terms of the March-based
    month offsets, and the last day of each month within the year.
  */
  lemma YeardayTableByMonthOffsets(month: int, leap: bool)
    requires 1 <= month <= 12
    ensures YeardayTable(leap)[month - 1] == if month > 2
      then 60 + (if leap then 1 else 0) + MonthOffset(month - 3)
      else MonthOffset(month + 9) - 305
    ensures YeardayTable(leap)[month - 1] + DaysInMonth(month, leap) - 1 <= 365 + (if leap then 1 else 0)
  {
    if month == 1 { } else if month == 2 { } else if month == 3 { } else if month == 4 { }
    else if month == 5 { } else if month == 6 { } else if month == 7 { } else if month == 8 { }
    else if month == 9 { } else if month == 10 { } else if month == 11 { } else { }
  }

  /** `caldate_1900` on an integer day and an integer second of the day. */
  function CalDate1900(t: JulianInstant): (r: CalDate)
    ensures ValidDate(Date(r.year, r.month, r.day))
    ensures ToDayNumber(Date(r.year, r.month, r.day)) == Rebase(t.day)
    ensures 1 <= r.yearday <= 365 + LeapYear(r.year)
    ensures r.yearday == ToDayNumber(Date(r.year, r.month, r.day)) - ToDayNumber(Date(r.year, 1, 1)) + 1
    ensures ValidClock(Clock(r.hour, r.minute, r.second))
    ensures ClockSeconds(Clock(r.hour, r.minute, r.second)) == t.second
  {
    var date := FromDayNumber(Rebase(t.day));
    var clock := ClockOf(t.second);
    ToDayNumberOfFromDayNumber(Rebase(t.day));
    YeardayCountsFromJanuaryFirst(date);
    CalDate(date.year, Yearday(date), date.month, date.day, clock.hour, clock.minute, clock.second)
  }

  /** The date fields of `caldate_1900` are the date of the rebased day number. */
  lemma CalDateOfDayNumber(t: JulianInstant)
    ensures var cal := CalDate1900(t);
      Date(cal.year, cal.month, cal.day) == FromDayNumber(Rebase(t.day))
  {
  }

  /** The date 12 hours after second s of day n. */
  lemma ShiftedDate(n: int, s: SecondOfDay)
    ensures FromDayNumber(n + (s + TWELVE_HOURS) / SECONDS_PER_DAY)
            == if s < TWELVE_HOURS then FromDayNumber(n) else NextDay(FromDayNumber(n))
  {
    var k := (s + TWELVE_HOURS) / SECONDS_PER_DAY;
    if s >= TWELVE_HOURS {
      assert k == 1;
      FromDayNumberSucc(n);
    } else {
      assert k == 0;
      assert n + k == n;
    }
  }

  /** Day number 2440588 is 1 January 1970, the Unix epoch. */
  lemma UnixEpochDay()
    ensures FromDayNumber(2440588) == Date(1970, 1, 1)
  {
    assert ToDayNumber(Date(1970, 1, 1)) == 2440588;
    FromDayNumberOfToDayNumber(Date(1970, 1, 1));
  }

  /** Day 0 of a date counted from 1900 lands, once rebased, on 1 January 1900. */
  lemma RebasedEpochDay()
    ensures Rebase(0) == 2415021 && FromDayNumber(Rebase(0)) == Date(1900, 1, 1)
  {
    assert ToDayNumber(Date(1900, 1, 1)) == Rebase(0);
    FromDayNumberOfToDayNumber(Date(1900, 1, 1));
  }
}
