/** Recurrence intervals and the date advancement of
    `calculateNextRecurringDate` in lib/inngest/function.js. */
module Recurrence {
  import opened Results
  import opened CivilTime

  datatype Interval = Daily | Weekly | Monthly | Yearly

  /** The year and month that follow `(y, m)`, as `setMonth(getMonth() + 1)`
      computes them through MakeDay's `floor(month / 12)`. */
  lemma NextMonthIsMakeDayCarry(y: int, m: Month)
    ensures NextMonth(y, m) == (y + m / 12, m % 12 + 1)
  {
  }

  /** Consecutive years are never both leap years. */
  lemma NoConsecutiveLeapYears(y: int)
    ensures !(IsLeapYear(y) && IsLeapYear(y + 1))
  {
  }

  /** `setDate(getDate() + k)` for a positive step `k`: exactly `k` days later. */
  function AddDays(t: DateTime, k: int): (r: DateTime)
    requires Valid(t)
    ensures Valid(r) && r.msOfDay == t.msOfDay
    ensures DayNumber(r.date) == DayNumber(t.date) + k
  {
    SetDate(t, GetDate(t) + k)
  }

  /** `setMonth(getMonth() + 1)`: as many days later as the current month has. */
  function AddMonth(t: DateTime): (r: DateTime)
    requires Valid(t)
    ensures Valid(r) && r.msOfDay == t.msOfDay
    ensures r.date == Normalize(NextMonth(t.date.year, t.date.month).0,
                                NextMonth(t.date.year, t.date.month).1, t.date.day)
    ensures DayNumber(r.date) == DayNumber(t.date) + DaysInMonth(t.date.year, t.date.month)
  {
    NextMonthIsMakeDayCarry(t.date.year, t.date.month);
    SetMonth(t, GetMonth(t) + 1)
  }

  /** From a day of year `y` to the same month and day of `y + 1` is 365 or
      366 days. */
  lemma YearShift(y: int, m: Month)
    ensures 365 <= DaysInYear(y) + DaysBeforeMonth(y + 1, m) - DaysBeforeMonth(y, m) <= 366
  {
    NoConsecutiveLeapYears(y);
  }

  /** `setFullYear(getFullYear() + 1)`: 365 or 366 days later. */
  function AddYear(t: DateTime): (r: DateTime)
    requires Valid(t)
    ensures Valid(r) && r.msOfDay == t.msOfDay
    ensures r.date == Normalize(t.date.year + 1, t.date.month, t.date.day)
    ensures DayNumber(t.date) + 365 <= DayNumber(r.date) <= DayNumber(t.date) + 366
  {
    DayFromYearStep(t.date.year);
    YearShift(t.date.year, t.date.month);
    assert (t.date.month - 1) / 12 == 0 && (t.date.month - 1) % 12 + 1 == t.date.month;
    SetFullYear(t, GetFullYear(t) + 1)
  }

  /** A later day number is a later time value when the time of day is kept. */
  lemma LaterDaySameTime(a: DateTime, b: DateTime, k: int)
    requires a.msOfDay == b.msOfDay && DayNumber(b.date) == DayNumber(a.date) + k
    ensures TimeValue(b) == TimeValue(a) + k * MsPerDay
  {
  }

  /** `calculateNextRecurringDate(date, interval)`: DAILY and WEEKLY move the
      day of month by 1 and 7 with `setDate`, MONTHLY moves the month by one
      with `setMonth`, YEARLY the year with `setFullYear`; a missing interval
      matches no `case` and returns the date unchanged. The time of day is
      always kept. */
  function NextRecurringDate(date: DateTime, interval: Option<Interval>): (r: DateTime)
    requires Valid(date)
    ensures Valid(r) && r.msOfDay == date.msOfDay
    ensures interval == None ==> r == date
    ensures interval == Some(Daily) ==> TimeValue(r) == TimeValue(date) + MsPerDay
    ensures interval == Some(Weekly) ==> TimeValue(r) == TimeValue(date) + 7 * MsPerDay
    ensures interval == Some(Monthly) ==>
              TimeValue(r) == TimeValue(date)
                              + DaysInMonth(date.date.year, date.date.month) * MsPerDay
    ensures interval == Some(Yearly) ==>
              TimeValue(date) + 365 * MsPerDay <= TimeValue(r) <= TimeValue(date) + 366 * MsPerDay
    ensures interval.Some? ==> TimeValue(date) < TimeValue(r)
  {
    match interval
    case None => date
    case Some(Daily) =>
      var r := AddDays(date, 1);
      LaterDaySameTime(date, r, 1);
      r
    case Some(Weekly) =>
      var r := AddDays(date, 7);
      LaterDaySameTime(date, r, 7);
      r
    case Some(Monthly) =>
      var r := AddMonth(date);
      LaterDaySameTime(date, r, DaysInMonth(date.date.year, date.date.month));
      r
    case Some(Yearly) =>
      var r := AddYear(date);
      LaterDaySameTime(date, r, DayNumber(r.date) - DayNumber(date.date));
      r
  }

  /** MONTHLY keeps the day of month when the next month has it; otherwise the
      surplus days spill into the month after (January 31 becomes March 3, or
      March 2 in a leap year). */
  lemma MonthlyCivilDate(t: DateTime)
    requires Valid(t)
    ensures var n := NextMonth(t.date.year, t.date.month);
            var r := NextRecurringDate(t, Some(Monthly)).date;
            if t.date.day <= DaysInMonth(n.0, n.1) then r == Date(n.0, n.1, t.date.day)
            else
              var nn := NextMonth(n.0, n.1);
              r == Date(nn.0, nn.1, t.date.day - DaysInMonth(n.0, n.1))
  {
    var n := NextMonth(t.date.year, t.date.month);
    var d := t.date.day;
    assert NextRecurringDate(t, Some(Monthly)).date == Normalize(n.0, n.1, d);
    if d > DaysInMonth(n.0, n.1) {
      var nn := NextMonth(n.0, n.1);
      assert 1 <= d - DaysInMonth(n.0, n.1) <= 3 <= DaysInMonth(nn.0, nn.1);
      assert Normalize(n.0, n.1, d) == Normalize(nn.0, nn.1, d - DaysInMonth(n.0, n.1));
    }
  }

  /** YEARLY keeps month and day, except that February 29 becomes March 1 of
      the following (common) year. */
  lemma YearlyCivilDate(t: DateTime)
    requires Valid(t)
    ensures var r := NextRecurringDate(t, Some(Yearly)).date;
            if t.date.month == 2 && t.date.day == 29 then r == Date(t.date.year + 1, 3, 1)
            else r == Date(t.date.year + 1, t.date.month, t.date.day)
  {
    var y, m, d := t.date.year, t.date.month, t.date.day;
    assert NextRecurringDate(t, Some(Yearly)).date == Normalize(y + 1, m, d);
    if m == 2 && d == 29 {
      NoConsecutiveLeapYears(y);
      assert Normalize(y + 1, 2, 29) == Normalize(y + 1, 3, 1);
    }
  }

  /** January 31 plus one month is March 3, or March 2 in a leap year. */
  lemma JanuaryThirtyFirstPlusOneMonth(y: int, ms: MsOfDay)
    ensures NextRecurringDate(DateTime(Date(y, 1, 31), ms), Some(Monthly)).date
            == if IsLeapYear(y) then Date(y, 3, 2) else Date(y, 3, 3)
  {
    MonthlyCivilDate(DateTime(Date(y, 1, 31), ms));
  }

  /** February 29 plus one year is March 1 of the next year. */
  lemma LeapDayPlusOneYear(y: int, ms: MsOfDay)
    requires IsLeapYear(y)
    ensures NextRecurringDate(DateTime(Date(y, 2, 29), ms), Some(Yearly)).date == Date(y + 1, 3, 1)
  {
    YearlyCivilDate(DateTime(Date(y, 2, 29), ms));
  }
}
