/**
  `AWIOrbitThickness._get_datetime`: the datetime built from `caldate_1900`
  and moved forward by a fixed 12 hours, with the range checks of Python's
  datetime.
*/
module Timestamps {
  import opened Outcomes
  import opened Calendar

  /** `timestamp + timedelta(hours=12)` on a valid datetime. */
  function AddTwelveHours(t: DateTime): (r: Result<DateTime>)
    requires ValidDateTime(t)
    ensures r.Ok? ==> ValidDateTime(r.value)
    ensures r.Ok? <==> ClockSeconds(t.clock) < TWELVE_HOURS || NextDay(t.date).year <= MAX_YEAR
    ensures r.Err? ==> r.error == DateOverflow
  {
    var s := ClockSeconds(t.clock) + TWELVE_HOURS;
    var clock := ClockOf(s % SECONDS_PER_DAY);
    if s < SECONDS_PER_DAY then
      Ok(DateTime(t.date, clock))
    else
      var next := NextDay(t.date);
      if next.year > MAX_YEAR then Err(DateOverflow) else Ok(DateTime(next, clock))
  }

  /**
    `AWIOrbitThickness._get_datetime`: the datetime of `caldate_1900`, shifted
    forward by 12 hours; Python rejects years outside 1..9999.
  */
  function GetDatetime(t: JulianInstant): (r: Result<DateTime>)
    ensures r.Ok? ==> ValidDateTime(r.value) && MIN_YEAR <= r.value.date.year <= MAX_YEAR
    ensures r.Ok? <==> MIN_YEAR <= FromDayNumber(Rebase(t.day)).year <= MAX_YEAR
                       && (t.second < TWELVE_HOURS || NextDay(FromDayNumber(Rebase(t.day))).year <= MAX_YEAR)
    ensures r.Err? ==> r.error == if MIN_YEAR <= FromDayNumber(Rebase(t.day)).year <= MAX_YEAR then DateOverflow
                                  else YearOutOfRange(FromDayNumber(Rebase(t.day)).year)
  {
    var cal := CalDate1900(t);
    var date := Date(cal.year, cal.month, cal.day);
    var clock := Clock(cal.hour, cal.minute, cal.second);
    CalDateOfDayNumber(t);
    if cal.year < MIN_YEAR || cal.year > MAX_YEAR then
      Err(YearOutOfRange(cal.year))
    else
      AddTwelveHours(DateTime(date, clock))
  }

  /** A timestamp GetDatetime produces is exactly 12 hours after the rebased Julian instant. */
  lemma GetDatetimeIsTwelveHoursLater(t: JulianInstant)
    requires GetDatetime(t).Ok?
    ensures var dt := GetDatetime(t).value;
      ToDayNumber(dt.date) * SECONDS_PER_DAY + ClockSeconds(dt.clock)
      == Rebase(t.day) * SECONDS_PER_DAY + t.second + TWELVE_HOURS
  {
    var cal := CalDate1900(t);
    AddTwelveHoursIsTwelveHoursLater(DateTime(Date(cal.year, cal.month, cal.day), Clock(cal.hour, cal.minute, cal.second)));
  }

  /** Adding 12 hours moves a datetime 12 hours on in the count of seconds since the day-number origin. */
  lemma AddTwelveHoursIsTwelveHoursLater(t: DateTime)
    requires ValidDateTime(t) && AddTwelveHours(t).Ok?
    ensures var r := AddTwelveHours(t).value;
      ToDayNumber(r.date) * SECONDS_PER_DAY + ClockSeconds(r.clock)
      == ToDayNumber(t.date) * SECONDS_PER_DAY + ClockSeconds(t.clock) + TWELVE_HOURS
  {
    var r := AddTwelveHours(t).value;
    var s := ClockSeconds(t.clock) + TWELVE_HOURS;
    AddTwelveHoursShifts(t);
    var n0, n1 := ToDayNumber(t.date), ToDayNumber(r.date);
    if s >= SECONDS_PER_DAY {
      ToDayNumberOfNextDay(t.date);
    }
    CarryIntoDay(n0, n1, ClockSeconds(t.clock), ClockSeconds(r.clock));
  }

  /** Moving c0 + 12 h past midnight carries one day into the day count. */
  lemma CarryIntoDay(n0: int, n1: int, c0: int, c1: int)
    requires 0 <= c0 < SECONDS_PER_DAY && c1 == (c0 + TWELVE_HOURS) % SECONDS_PER_DAY
    requires n1 == if c0 + TWELVE_HOURS < SECONDS_PER_DAY then n0 else n0 + 1
    ensures n1 * SECONDS_PER_DAY + c1 == n0 * SECONDS_PER_DAY + c0 + TWELVE_HOURS
  {
  }

  /**
    The timestamp is the date and clock time, read off the reference
    conversion, of the instant 12 hours after the rebased Julian instant.
  */
  lemma GetDatetimeMatchesReference(t: JulianInstant, dt: DateTime)
    requires GetDatetime(t) == Ok(dt)
    ensures dt.date == FromDayNumber(ShiftedDay(t))
    ensures dt.clock == ClockOf((t.second + TWELVE_HOURS) % SECONDS_PER_DAY)
  {
    GetDatetimeStartsAt(t);
    var n, s := Rebase(t.day), t.second;
    assert StartOf(t) == DateTime(FromDayNumber(n), ClockOf(s));
    assert ShiftedDay(t) == n + (s + TWELVE_HOURS) / SECONDS_PER_DAY;
    ShiftedStart(n, s);
  }

  /** The Julian day number of the instant 12 hours after t, once t is rebased. */
  function ShiftedDay(t: JulianInstant): int {
    Rebase(t.day) + (t.second + TWELVE_HOURS) / SECONDS_PER_DAY
  }

  /** Second s of day n, shifted by 12 hours, is the date and clock time of the shifted instant. */
  lemma ShiftedStart(n: int, s: SecondOfDay)
    requires AddTwelveHours(DateTime(FromDayNumber(n), ClockOf(s))).Ok?
    ensures var later := AddTwelveHours(DateTime(FromDayNumber(n), ClockOf(s))).value;
      && later.date == FromDayNumber(n + (s + TWELVE_HOURS) / SECONDS_PER_DAY)
      && later.clock == ClockOf((s + TWELVE_HOURS) % SECONDS_PER_DAY)
  {
    var t := DateTime(FromDayNumber(n), ClockOf(s));
    assert ClockSeconds(t.clock) == s;
    AddTwelveHoursShifts(t);
    ShiftedDate(n, s);
  }

  /** The datetime of a Julian instant, before the shift: the date of its rebased day and its clock time. */
  function StartOf(t: JulianInstant): (r: DateTime)
    ensures ValidDateTime(r)
  {
    DateTime(FromDayNumber(Rebase(t.day)), ClockOf(t.second))
  }

  /** `_get_datetime` shifts exactly the datetime the fields of `caldate_1900` spell out. */
  lemma GetDatetimeStartsAt(t: JulianInstant)
    requires GetDatetime(t).Ok?
    ensures GetDatetime(t) == AddTwelveHours(StartOf(t))
  {
    var cal := CalDate1900(t);
    CalDateOfDayNumber(t);
    ClockSecondsInjective(Clock(cal.hour, cal.minute, cal.second), ClockOf(t.second));
  }

  /** The shifted clock is the second of the day 12 hours on; the date moves on when that passes midnight. */
  lemma AddTwelveHoursShifts(t: DateTime)
    requires ValidDateTime(t) && AddTwelveHours(t).Ok?
    ensures var s := ClockSeconds(t.clock) + TWELVE_HOURS;
      && AddTwelveHours(t).value.clock == ClockOf(s % SECONDS_PER_DAY)
      && AddTwelveHours(t).value.date == if s < SECONDS_PER_DAY then t.date else NextDay(t.date)
  {
  }
}
