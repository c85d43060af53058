/** Proleptic Gregorian calendar dates as JavaScript's local-time `Date`
    builds them, with months numbered 0..11 as `getMonth()` returns them, and
    instants as milliseconds counted from day 0. */
module Calendar {

  const DayMs: int := 86_400_000

  predicate IsLeapYear(y: int)
  {
    y % 4 == 0 && (y % 100 != 0 || y % 400 == 0)
  }

  /** `new Date(y, m + 1, 0).getDate()`: the last day of month `m`. */
  function DaysInMonth(y: int, m: int): (n: int)
    requires 0 <= m < 12
    ensures 28 <= n <= 31
    ensures n == 29 <==> m == 1 && IsLeapYear(y)
  {
    if m == 1 then (if IsLeapYear(y) then 29 else 28)
    else if m == 3 || m == 5 || m == 8 || m == 10 then 30
    else 31
  }

  /** Days of the year `y` before the first day of month `m`. */
  function DaysBeforeMonth(y: int, m: int): int
    requires 0 <= m <= 12
  {
    var cumulative := [0, 31, 59, 90, 120, 151, 181, 212, 243, 273, 304, 334, 365];
    cumulative[m] + (if m >= 2 && IsLeapYear(y) then 1 else 0)
  }

  /** Days from January 1st of year 0 to January 1st of year `y`: 365 per
      year plus one per leap year in between (negative before year 0). */
  function DaysBeforeYear(y: int): int
  {
    365 * y + (y + 3) / 4 - (y + 99) / 100 + (y + 399) / 400
  }

  datatype Date = Date(year: int, month: int, day: int)

  /** A date that exists: `new Date(y, m, d)` without overflow. */
  predicate ValidDate(d: Date)
  {
    0 <= d.month < 12 && 1 <= d.day <= DaysInMonth(d.year, d.month)
  }

  /** The index of a date on a day-by-day count. */
  function DayNumber(d: Date): int
    requires 0 <= d.month < 12
  {
    DaysBeforeYear(d.year) + DaysBeforeMonth(d.year, d.month) + d.day - 1
  }

  /** `new Date(y, m + 1, 1)`: the month after `m`, December rolling to
      January of the next year. */
  function NextMonth(y: int, m: int): (r: (int, int))
    requires 0 <= m < 12
    ensures 0 <= r.1 < 12
  {
    if m == 11 then (y + 1, 0) else (y, m + 1)
  }

  /** Time of day in milliseconds, `0 <= ms < DayMs`. */
  predicate ValidTimeOfDay(ms: int) { 0 <= ms < DayMs }

  /** `getTime()` of the local date `d` at `ms` milliseconds after midnight. */
  function Instant(d: Date, ms: int): int
    requires 0 <= d.month < 12
  {
    DayNumber(d) * DayMs + ms
  }

  /** Each month ends where the next one begins. */
  lemma MonthStep(y: int, m: int)
    requires 0 <= m < 12
    ensures DaysBeforeMonth(y, m + 1) == DaysBeforeMonth(y, m) + DaysInMonth(y, m)
  {
  }

  /** A year has 365 days, 366 when it is a leap year. */
  lemma YearStep(y: int)
    ensures DaysBeforeYear(y + 1) == DaysBeforeYear(y) + DaysBeforeMonth(y, 12)
  {
    assert (y + 4) / 4 - (y + 3) / 4 == (if y % 4 == 0 then 1 else 0);
    assert (y + 100) / 100 - (y + 99) / 100 == (if y % 100 == 0 then 1 else 0);
    assert (y + 400) / 400 - (y + 399) / 400 == (if y % 400 == 0 then 1 else 0);
  }

  /** The first day of the next month is `DaysInMonth` days after the first
      day of this one, across a year boundary too. */
  lemma NextMonthStart(y: int, m: int)
    requires 0 <= m < 12
    ensures var (ny, nm) := NextMonth(y, m);
      DayNumber(Date(ny, nm, 1)) == DayNumber(Date(y, m, 1)) + DaysInMonth(y, m)
  {
    MonthStep(y, m);
    if m == 11 {
      YearStep(y);
    }
  }

  /** Every day of the next month comes after every day of this month. */
  lemma NextMonthIsLater(y: int, m: int, today: int, later: int)
    requires 0 <= m < 12
    requires 1 <= today <= DaysInMonth(y, m) && 1 <= later
    ensures var (ny, nm) := NextMonth(y, m);
      DayNumber(Date(ny, nm, later)) > DayNumber(Date(y, m, today))
  {
    NextMonthStart(y, m);
  }
}
