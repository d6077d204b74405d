/**
 * Local calendar dates as the pickup calendar reads them through JavaScript's
 * `Date` getters. Time zones and daylight-saving shifts are not modelled: a
 * day has exactly `MsPerDay` milliseconds and timestamps order dates
 * lexicographically.
 */
module Dates {

  const MsPerDay: int := 86400000

  predicate IsLeapYear(y: int) {
    y % 4 == 0 && (y % 100 != 0 || y % 400 == 0)
  }

  /** Days in month `m0` of year `y` (`m0` 0-based, as `Date.getMonth()`), Gregorian calendar. */
  function MonthLength(y: int, m0: int): int
    requires 0 <= m0 < 12
  {
    if m0 == 1 then (if IsLeapYear(y) then 29 else 28)
    else if m0 == 3 || m0 == 5 || m0 == 8 || m0 == 10 then 30
    else 31
  }

  /** Sum of the lengths of the first `k` months of year `y`. */
  function DaysBeforeMonth(y: int, k: int): int
    requires 0 <= k <= 12
  {
    if k == 0 then 0 else DaysBeforeMonth(y, k - 1) + MonthLength(y, k - 1)
  }

  /** The twelve month lengths add up to the length of the Gregorian year. */
  lemma YearLength(y: int)
    ensures DaysBeforeMonth(y, 12) == if IsLeapYear(y) then 366 else 365
  {
    var feb := MonthLength(y, 1);
    assert DaysBeforeMonth(y, 1) == 31;
    assert DaysBeforeMonth(y, 2) == 31 + feb;
    assert DaysBeforeMonth(y, 3) == 62 + feb;
    assert DaysBeforeMonth(y, 4) == 92 + feb;
    assert DaysBeforeMonth(y, 5) == 123 + feb;
    assert DaysBeforeMonth(y, 6) == 153 + feb;
    assert DaysBeforeMonth(y, 7) == 184 + feb;
    assert DaysBeforeMonth(y, 8) == 215 + feb;
    assert DaysBeforeMonth(y, 9) == 245 + feb;
    assert DaysBeforeMonth(y, 10) == 276 + feb;
    assert DaysBeforeMonth(y, 11) == 306 + feb;
    assert DaysBeforeMonth(y, 12) == 337 + feb;
  }

  /**
   * A local date-time: `getFullYear()`, `getMonth()` (0-based), `getDate()`
   * and the milliseconds elapsed since local midnight.
   */
  datatype DateTime = DateTime(year: int, month0: int, day: int, ms: int)

  ghost predicate Valid(d: DateTime) {
    0 <= d.month0 < 12 && 1 <= d.day <= MonthLength(d.year, d.month0) && 0 <= d.ms < MsPerDay
  }

  /**
   * Same time of day one calendar day later (`d.setDate(d.getDate() + 1)`,
   * with month and year roll-over): a later day with no valid day in between.
   */
  function NextDay(d: DateTime): (r: DateTime)
    requires Valid(d)
    ensures Valid(r) && r.ms == d.ms
    ensures DayBefore(d, r) && forall x {:trigger DayBefore(d, x), DayBefore(x, r)} :: Valid(x) && DayBefore(d, x) ==> !DayBefore(x, r)
  {
    if d.day < MonthLength(d.year, d.month0) then d.(day := d.day + 1)
    else if d.month0 < 11 then d.(month0 := d.month0 + 1, day := 1)
    else d.(year := d.year + 1, month0 := 0, day := 1)
  }

  /**
   * Same time of day one calendar day earlier (`d.setDate(d.getDate() - 1)`;
   * day 0 is the last day of the month before): an earlier day with no valid
   * day in between.
   */
  function PreviousDay(d: DateTime): (r: DateTime)
    requires Valid(d)
    ensures Valid(r) && r.ms == d.ms
    ensures DayBefore(r, d) && forall x {:trigger DayBefore(r, x), DayBefore(x, d)} :: Valid(x) && DayBefore(r, x) ==> !DayBefore(x, d)
  {
    if d.day > 1 then d.(day := d.day - 1)
    else if d.month0 > 0 then d.(month0 := d.month0 - 1, day := MonthLength(d.year, d.month0 - 1))
    else d.(year := d.year - 1, month0 := 11, day := 31)
  }

  lemma NextPreviousInverse(d: DateTime)
    requires Valid(d)
    ensures NextDay(PreviousDay(d)) == d
    ensures PreviousDay(NextDay(d)) == d
  {
  }

  /** `d.setDate(d.getDate() + n)` for n >= 0: `n` steps of one calendar day. */
  function AddDays(d: DateTime, n: nat): (r: DateTime)
    requires Valid(d)
    ensures Valid(r) && r.ms == d.ms
    decreases n
  {
    if n == 0 then d else AddDays(NextDay(d), n - 1)
  }

  /** `d.setHours(0, 0, 0, 0)`. */
  function StartOfDay(d: DateTime): DateTime {
    d.(ms := 0)
  }

  /** The calendar day of `a` comes before that of `b` (times of day ignored). */
  predicate DayBefore(a: DateTime, b: DateTime) {
    a.year < b.year
    || (a.year == b.year && (a.month0 < b.month0 || (a.month0 == b.month0 && a.day < b.day)))
  }

  predicate SameDay(a: DateTime, b: DateTime) {
    a.year == b.year && a.month0 == b.month0 && a.day == b.day
  }

  /** `a < b` on the two dates' timestamps. */
  predicate Before(a: DateTime, b: DateTime) {
    DayBefore(a, b) || (SameDay(a, b) && a.ms < b.ms)
  }

  lemma DayBeforeTransitive(a: DateTime, b: DateTime, c: DateTime)
    requires DayBefore(a, b) && DayBefore(b, c)
    ensures DayBefore(a, c)
  {
  }

  lemma {:induction false} AddDaysStep(d: DateTime, n: nat)
    requires Valid(d)
    ensures AddDays(d, n + 1) == NextDay(AddDays(d, n))
    decreases n
  {
    if n > 0 {
      AddDaysStep(NextDay(d), n - 1);
    }
  }

  /** Adding more days gives a strictly later calendar day. */
  lemma {:induction false} AddDaysIncreasing(d: DateTime, m: nat, n: nat)
    requires Valid(d) && m < n
    ensures DayBefore(AddDays(d, m), AddDays(d, n))
    decreases n
  {
    AddDaysStep(d, n - 1);
    if m < n - 1 {
      AddDaysIncreasing(d, m, n - 1);
      DayBeforeTransitive(AddDays(d, m), AddDays(d, n - 1), AddDays(d, n));
    }
  }
}
