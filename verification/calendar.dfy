/** The proleptic Gregorian calendar as Go's `time` package computes it in UTC. Days are
    numbered from 1970-01-01 (day 0); instants are milliseconds since that midnight. */
module Calendar {

  const MsPerDay: int := 86_400_000

  datatype Date = Date(year: int, month: int, day: int)

  predicate IsLeap(y: int) {
    y % 4 == 0 && (y % 100 != 0 || y % 400 == 0)
  }

  function DaysInYear(y: int): int {
    if IsLeap(y) then 366 else 365
  }

  function DaysInMonth(y: int, m: int): int
    requires 1 <= m <= 12
  {
    if m == 2 then (if IsLeap(y) then 29 else 28)
    else if m == 4 || m == 6 || m == 9 || m == 11 then 30
    else 31
  }

  /** A calendar date Go's `time` accepts: month 1..12 and day 1..days in that month. */
  predicate ValidDate(dt: Date) {
    1 <= dt.month <= 12 && 1 <= dt.day <= DaysInMonth(dt.year, dt.month)
  }

  /** Leap years strictly before year `y`, counted from an arbitrary fixed origin. */
  function LeapsBefore(y: int): int {
    (y - 1) / 4 - (y - 1) / 100 + (y - 1) / 400
  }

  /** The day number of January 1 of year `y`. */
  function DaysBeforeYear(y: int): int {
    365 * (y - 1970) + LeapsBefore(y) - LeapsBefore(1970)
  }

  /** Days of year `y` before the first of month `m`; `m == 13` gives the length of the year. */
  function DaysBeforeMonth(y: int, m: int): int
    requires 1 <= m <= 13
  {
    [0, 31, 59, 90, 120, 151, 181, 212, 243, 273, 304, 334, 365][m - 1]
    + (if m > 2 && IsLeap(y) then 1 else 0)
  }

  /** The day number of a date. */
  function DaysFromCivil(dt: Date): int
    requires ValidDate(dt)
  {
    DaysBeforeYear(dt.year) + DaysBeforeMonth(dt.year, dt.month) + dt.day - 1
  }

  lemma DivStep(y: int, k: int)
    requires k in {4, 100, 400}
    ensures y / k - (y - 1) / k == (if y % k == 0 then 1 else 0)
  {
  }

  /** Consecutive years start `DaysInYear` days apart. */
  lemma YearStep(y: int)
    ensures DaysBeforeYear(y + 1) == DaysBeforeYear(y) + DaysInYear(y)
  {
    DivStep(y, 4);
    DivStep(y, 100);
    DivStep(y, 400);
  }

  lemma MonthStep(y: int, m: int)
    requires 1 <= m <= 12
    ensures DaysBeforeMonth(y, m + 1) == DaysBeforeMonth(y, m) + DaysInMonth(y, m)
  {
  }

  /** January 1 of a later year is at least a full year after the start of an earlier one. */
  lemma {:induction false} YearsAscending(a: int, b: int)
    requires a < b
    ensures DaysBeforeYear(a + 1) <= DaysBeforeYear(b)
    decreases b - a
  {
    if a + 1 < b {
      YearsAscending(a + 1, b);
      YearStep(a + 1);
    }
  }

  /** The month boundaries of a year are ascending. */
  lemma MonthsAscending(y: int, a: int, b: int)
    requires 1 <= a < b <= 13
    ensures DaysBeforeMonth(y, a + 1) <= DaysBeforeMonth(y, b)
  {
  }

  /** The year containing day `n`, searching upwards from year `y`. */
  function YearUp(n: int, y: int): (r: int)
    requires DaysBeforeYear(y) <= n
    ensures DaysBeforeYear(r) <= n < DaysBeforeYear(r + 1)
    decreases n - DaysBeforeYear(y)
  {
    YearStep(y);
    if n < DaysBeforeYear(y + 1) then y else YearUp(n, y + 1)
  }

  /** The year containing day `n`, searching downwards from year `y`. */
  function YearDown(n: int, y: int): (r: int)
    requires n < DaysBeforeYear(y + 1)
    ensures DaysBeforeYear(r) <= n < DaysBeforeYear(r + 1)
    decreases DaysBeforeYear(y + 1) - n
  {
    YearStep(y);
    if DaysBeforeYear(y) <= n then y else YearDown(n, y - 1)
  }

  function YearOfDay(n: int): (r: int)
    ensures DaysBeforeYear(r) <= n < DaysBeforeYear(r + 1)
  {
    if n >= 0 then YearUp(n, 1970) else YearDown(n, 1969)
  }

  /** The month holding day-of-year `doy`, searching upwards from month `m`. */
  function MonthFrom(y: int, doy: int, m: int): (r: int)
    requires 1 <= m <= 12 && DaysBeforeMonth(y, m) <= doy < DaysInYear(y)
    ensures 1 <= r <= 12 && DaysBeforeMonth(y, r) <= doy < DaysBeforeMonth(y, r + 1)
    decreases 12 - m
  {
    if doy < DaysBeforeMonth(y, m + 1) then m else MonthFrom(y, doy, m + 1)
  }

  /** The calendar date of day number `n`; the inverse of `DaysFromCivil`. */
  function CivilFromDays(n: int): (dt: Date)
    ensures ValidDate(dt)
    ensures DaysFromCivil(dt) == n
  {
    var y := YearOfDay(n);
    YearStep(y);
    var doy := n - DaysBeforeYear(y);
    var m := MonthFrom(y, doy, 1);
    MonthStep(y, m);
    Date(y, m, doy - DaysBeforeMonth(y, m) + 1)
  }

  /** Every valid date is the date of its own day number. */
  lemma CivilRoundTrip(dt: Date)
    requires ValidDate(dt)
    ensures CivilFromDays(DaysFromCivil(dt)) == dt
  {
    var n := DaysFromCivil(dt);
    var r := CivilFromDays(n);
    MonthStep(dt.year, dt.month);
    MonthsAscending(dt.year, dt.month, 13);
    YearStep(dt.year);
    if r.year < dt.year {
      YearsAscending(r.year, dt.year);
    } else if dt.year < r.year {
      YearsAscending(dt.year, r.year);
    }
    assert r.year == dt.year;
    MonthStep(r.year, r.month);
    if r.month < dt.month {
      MonthsAscending(r.year, r.month, dt.month);
    } else if dt.month < r.month {
      MonthsAscending(r.year, dt.month, r.month);
    }
  }

  /** Distinct day numbers have distinct dates. */
  lemma CivilInjective(a: int, b: int)
    ensures CivilFromDays(a) == CivilFromDays(b) ==> a == b
  {
  }

  /** The day number of the UTC calendar day holding instant `t`. */
  function DayOf(t: int): int {
    t / MsPerDay
  }

  /** Midnight UTC that starts day `n`. */
  function MidnightOf(n: int): (t: int)
    ensures DayOf(t) == n && t % MsPerDay == 0
  {
    n * MsPerDay
  }

  /** 23:59:59.999 UTC, the last millisecond of day `n`. */
  function LastMsOf(n: int): (t: int)
    ensures DayOf(t) == n && t == MidnightOf(n) + MsPerDay - 1
  {
    n * MsPerDay + MsPerDay - 1
  }

  /** Adding `k` whole days to an instant moves its calendar day by `k`. */
  lemma DayOfShift(t: int, k: int)
    ensures DayOf(t + k * MsPerDay) == DayOf(t) + k
  {
    assert t + k * MsPerDay == (DayOf(t) + k) * MsPerDay + t % MsPerDay;
  }
}
