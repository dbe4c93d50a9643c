/** Civil dates and times of day, with the JavaScript `Date` setters the
    application uses. A time is a proleptic Gregorian date plus milliseconds
    within the day, in one fixed time zone. Day overflow is normalised the
    way section 21.4.1 of ECMA-262 (MakeDay / MakeDate) prescribes: a day of
    month past the end of the month rolls into the following months, and a
    day below 1 rolls back into the preceding ones. */
module CivilTime {

  const MsPerDay: int := 86400000

  /** A month number, 1 = January (ECMA's `getMonth()` is this minus one). */
  type Month = m: int | 1 <= m <= 12 witness 1

  /** Milliseconds elapsed since midnight. */
  type MsOfDay = n: int | 0 <= n < MsPerDay witness 0

  datatype Date = Date(year: int, month: Month, day: int)

  datatype DateTime = DateTime(date: Date, msOfDay: MsOfDay)

  predicate IsLeapYear(y: int) {
    y % 4 == 0 && (y % 100 != 0 || y % 400 == 0)
  }

  function DaysInYear(y: int): int {
    if IsLeapYear(y) then 366 else 365
  }

  function DaysInMonth(y: int, m: Month): int {
    if m == 2 then (if IsLeapYear(y) then 29 else 28)
    else if m == 4 || m == 6 || m == 9 || m == 11 then 30
    else 31
  }

  /** Days of year `y` that precede the first of month `m`. */
  function DaysBeforeMonth(y: int, m: Month): int {
    var common :=
      if m == 1 then 0 else if m == 2 then 31 else if m == 3 then 59
      else if m == 4 then 90 else if m == 5 then 120 else if m == 6 then 151
      else if m == 7 then 181 else if m == 8 then 212 else if m == 9 then 243
      else if m == 10 then 273 else if m == 11 then 304 else 334;
    if m > 2 && IsLeapYear(y) then common + 1 else common
  }

  /** The day number of January 1 of `y`, counted from 1970-01-01: each
      year starts where the one before it ends. `DayFromYearIsEcma` proves
      this is ECMA-262's closed formula. */
  function DayFromYear(y: int): int
    decreases if y < 1970 then 1970 - y else y - 1970
  {
    if y == 1970 then 0
    else if y > 1970 then DayFromYear(y - 1) + DaysInYear(y - 1)
    else DayFromYear(y + 1) - DaysInYear(y)
  }

  /** ECMA-262 DayFromYear, section 21.4.1.3. Dafny's `/` by a positive
      constant is the floor division ECMA writes. */
  function EcmaDayFromYear(y: int): int {
    365 * (y - 1970) + (y - 1969) / 4 - (y - 1901) / 100 + (y - 1601) / 400
  }

  predicate ValidDate(d: Date) {
    1 <= d.day <= DaysInMonth(d.year, d.month)
  }

  predicate Valid(t: DateTime) {
    ValidDate(t.date)
  }

  /** Days from 1970-01-01 to `d` (ECMA's `Day(t)`). */
  function DayNumber(d: Date): int {
    DayFromYear(d.year) + DaysBeforeMonth(d.year, d.month) + d.day - 1
  }

  /** ECMA's time value: milliseconds since the epoch. `Date` objects compare
      by this number. */
  function TimeValue(t: DateTime): int {
    DayNumber(t.date) * MsPerDay + t.msOfDay
  }

  /** `a <= b` on two `Date` objects. */
  predicate NotAfter(a: DateTime, b: DateTime) {
    TimeValue(a) <= TimeValue(b)
  }

  /** 1970-01-01T00:00:00.000, what `new Date(null)` denotes. */
  const Epoch: DateTime := DateTime(Date(1970, 1, 1), 0)

  function NextMonth(y: int, m: Month): (r: (int, Month))
    ensures DayFromYear(r.0) + DaysBeforeMonth(r.0, r.1)
            == DayFromYear(y) + DaysBeforeMonth(y, m) + DaysInMonth(y, m)
  {
    if m == 12 then DayFromYearStep(y); (y + 1, 1) else (y, m + 1)
  }

  function PrevMonth(y: int, m: Month): (r: (int, Month))
    ensures NextMonth(r.0, r.1) == (y, m)
  {
    if m == 1 then (y - 1, 12) else (y, m - 1)
  }

  /** Consecutive values of DayFromYear differ by the length of the year. */
  lemma DayFromYearStep(y: int)
    ensures DayFromYear(y + 1) == DayFromYear(y) + DaysInYear(y)
  {
  }

  /** Moving a floor division by 4, 100 or 400 one step up crosses a
      multiple of the divisor exactly at the years ECMA counts as leap-year
      corrections. */
  lemma Floor4Step(y: int)
    ensures (y - 1968) / 4 == (y - 1969) / 4 + (if y % 4 == 0 then 1 else 0)
  {
    var q, r := y / 4, y % 4;
    assert y == 4 * q + r && 0 <= r < 4;
    assert y - 1968 == 4 * (q - 492) + r;
    if r == 0 {
      assert (y - 1969) == 4 * (q - 493) + 3;
    } else {
      assert (y - 1969) == 4 * (q - 492) + (r - 1);
    }
  }

  lemma Floor100Step(y: int)
    ensures (y - 1900) / 100 == (y - 1901) / 100 + (if y % 100 == 0 then 1 else 0)
  {
    var q, r := y / 100, y % 100;
    assert y == 100 * q + r && 0 <= r < 100;
    assert y - 1900 == 100 * (q - 19) + r;
    if r == 0 {
      assert (y - 1901) == 100 * (q - 20) + 99;
    } else {
      assert (y - 1901) == 100 * (q - 19) + (r - 1);
    }
  }

  lemma Floor400Step(y: int)
    ensures (y - 1600) / 400 == (y - 1601) / 400 + (if y % 400 == 0 then 1 else 0)
  {
    var q, r := y / 400, y % 400;
    assert y == 400 * q + r && 0 <= r < 400;
    assert y - 1600 == 400 * (q - 4) + r;
    if r == 0 {
      assert (y - 1601) == 400 * (q - 5) + 399;
    } else {
      assert (y - 1601) == 400 * (q - 4) + (r - 1);
    }
  }

  /** Multiples of 400 are multiples of 100, which are multiples of 4. */
  lemma Multiple400Is100(y: int)
    requires y % 400 == 0
    ensures y % 100 == 0
  {
    assert y == 100 * (4 * (y / 400));
  }

  lemma Multiple100Is4(y: int)
    requires y % 100 == 0
    ensures y % 4 == 0
  {
    assert y == 4 * (25 * (y / 100));
  }

  /** ECMA's formula grows by the length of each year. */
  lemma EcmaStep(y: int)
    ensures EcmaDayFromYear(y + 1) == EcmaDayFromYear(y) + DaysInYear(y)
  {
    Floor4Step(y);
    Floor100Step(y);
    Floor400Step(y);
    if y % 400 == 0 { Multiple400Is100(y); }
    if y % 100 == 0 { Multiple100Is4(y); }
    var d4 := if y % 4 == 0 then 1 else 0;
    var d100 := if y % 100 == 0 then 1 else 0;
    var d400 := if y % 400 == 0 then 1 else 0;
    assert EcmaDayFromYear(y + 1) - EcmaDayFromYear(y) == 365 + d4 - d100 + d400;
  }

  /** The recursive definition is ECMA-262's DayFromYear. */
  lemma {:induction false} DayFromYearIsEcma(y: int)
    ensures DayFromYear(y) == EcmaDayFromYear(y)
    decreases if y < 1970 then 1970 - y else y - 1970
  {
    if y > 1970 {
      DayFromYearIsEcma(y - 1);
      EcmaStep(y - 1);
    } else if y < 1970 {
      DayFromYearIsEcma(y + 1);
      EcmaStep(y);
    }
  }

  /** The date `d - 1` days after the first of month `m` of year `y`, for any
      integer `d`: the overflow normalisation of ECMA's MakeDay. */
  function Normalize(y: int, m: Month, d: int): (r: Date)
    ensures ValidDate(r)
    ensures DayNumber(r) == DayFromYear(y) + DaysBeforeMonth(y, m) + d - 1
    decreases d < 1, if d < 1 then -d else d
  {
    if d < 1 then
      var p := PrevMonth(y, m);
      Normalize(p.0, p.1, d + DaysInMonth(p.0, p.1))
    else if d > DaysInMonth(y, m) then
      var n := NextMonth(y, m);
      Normalize(n.0, n.1, d - DaysInMonth(y, m))
    else
      Date(y, m, d)
  }

  /** ECMA-262 MakeDay(year, month, date) with a zero-based `month` that may
      lie outside 0..11, returned as the civil date it denotes. */
  function MakeDay(year: int, month0: int, date: int): (r: Date)
    ensures ValidDate(r)
    ensures DayNumber(r)
            == DayFromYear(year + month0 / 12)
               + DaysBeforeMonth(year + month0 / 12, month0 % 12 + 1) + date - 1
  {
    Normalize(year + month0 / 12, month0 % 12 + 1, date)
  }

  /** `getDate()`, `getMonth()` (zero-based) and `getFullYear()`. */
  function GetDate(t: DateTime): int { t.date.day }
  function GetMonth(t: DateTime): int { t.date.month - 1 }
  function GetFullYear(t: DateTime): int { t.date.year }

  /** `setDate(dt)`: same year, month and time of day, day `dt` normalised. */
  function SetDate(t: DateTime, dt: int): (r: DateTime)
    ensures Valid(r) && r.msOfDay == t.msOfDay
    ensures DayNumber(r.date) == DayFromYear(t.date.year)
                                 + DaysBeforeMonth(t.date.year, t.date.month) + dt - 1
  {
    assert (t.date.month - 1) / 12 == 0 && (t.date.month - 1) % 12 + 1 == t.date.month;
    DateTime(MakeDay(GetFullYear(t), GetMonth(t), dt), t.msOfDay)
  }

  /** `setMonth(m0)`: same year, day of month and time of day; a month
      outside 0..11 carries into the year, and a day past the end of the
      month rolls into the next. */
  function SetMonth(t: DateTime, month0: int): (r: DateTime)
    ensures Valid(r) && r.msOfDay == t.msOfDay
    ensures DayNumber(r.date) == DayFromYear(t.date.year + month0 / 12)
                                 + DaysBeforeMonth(t.date.year + month0 / 12, month0 % 12 + 1)
                                 + t.date.day - 1
  {
    DateTime(MakeDay(GetFullYear(t), month0, GetDate(t)), t.msOfDay)
  }

  /** `setFullYear(y)`: same month, day of month and time of day. */
  function SetFullYear(t: DateTime, year: int): (r: DateTime)
    ensures Valid(r) && r.msOfDay == t.msOfDay
    ensures DayNumber(r.date) == DayFromYear(year)
                                 + DaysBeforeMonth(year, t.date.month) + t.date.day - 1
  {
    assert (t.date.month - 1) / 12 == 0 && (t.date.month - 1) % 12 + 1 == t.date.month;
    DateTime(MakeDay(year, GetMonth(t), GetDate(t)), t.msOfDay)
  }

  /** The valid civil dates are exactly the fixed points of normalisation. */
  lemma NormalizeValid(d: Date)
    requires ValidDate(d)
    ensures Normalize(d.year, d.month, d.day) == d
  {
  }

  /** Distinct valid dates have distinct day numbers, so a `Date` object is
      determined by its time value. */
  lemma {:induction false} DayNumberInjective(a: Date, b: Date)
    requires ValidDate(a) && ValidDate(b)
    requires DayNumber(a) == DayNumber(b)
    ensures a == b
  {
    if a.year < b.year {
      YearLowerBound(a.year, b.year);
      assert false;
    } else if b.year < a.year {
      YearLowerBound(b.year, a.year);
      assert false;
    } else if a.month < b.month {
      MonthLowerBound(a.year, a.month, b.month);
    } else if b.month < a.month {
      MonthLowerBound(a.year, b.month, a.month);
    }
  }

  /** Every day of an earlier year precedes January 1 of a later one. */
  lemma {:induction false} YearLowerBound(y: int, z: int)
    requires y < z
    ensures DayFromYear(y) + DaysInYear(y) <= DayFromYear(z)
    decreases z - y
  {
    DayFromYearStep(y);
    if y + 1 < z {
      YearLowerBound(y + 1, z);
    }
  }

  lemma MonthLowerBound(y: int, m: Month, n: Month)
    requires m < n
    ensures DaysBeforeMonth(y, m) + DaysInMonth(y, m) <= DaysBeforeMonth(y, n)
  {
  }
}
