/** Points in time as the front-end reads them off JavaScript `Date` objects:
    `getFullYear()`, the 0-based `getMonth()`, `getDate()`, and the time of day.
    The current time is always an explicit parameter. */
module Dates {

  datatype Instant = Instant(year: int, month: int, day: int, millis: int)

  const MillisPerDay := 86_400_000

  /** A calendar moment: a month index 0..11, a day of the month, a time of day. */
  predicate WellFormed(t: Instant) {
    0 <= t.month < 12 && 1 <= t.day <= 31 && 0 <= t.millis < MillisPerDay
  }

  /** `a < b` on two `Date`s: strictly earlier, field by field from the year down. */
  predicate Before(a: Instant, b: Instant) {
    || a.year < b.year
    || (a.year == b.year && a.month < b.month)
    || (a.year == b.year && a.month == b.month && a.day < b.day)
    || (a.year == b.year && a.month == b.month && a.day == b.day && a.millis < b.millis)
  }

  /** Of two instants exactly one is earlier, unless they are the same. */
  lemma BeforeTrichotomy(a: Instant, b: Instant)
    ensures a == b || Before(a, b) || Before(b, a)
    ensures !(Before(a, b) && Before(b, a))
    ensures !Before(a, a)
  {
  }

  lemma BeforeTransitive(a: Instant, b: Instant, c: Instant)
    requires Before(a, b) && Before(b, c)
    ensures Before(a, c)
  {
  }

  /** Months counted from year 0, so that month arithmetic is plain subtraction. */
  function MonthIndex(t: Instant): int {
    t.year * 12 + t.month
  }

  /** `d.setMonth(d.getMonth() + k)`, with the month carried into the year.
      The day of the month is kept as it is; see README for the roll-over this leaves out. */
  function AddMonths(t: Instant, k: nat): (r: Instant)
    requires WellFormed(t)
    ensures WellFormed(r)
    ensures MonthIndex(r) == MonthIndex(t) + k
    ensures r.day == t.day && r.millis == t.millis
  {
    var m := t.month + k;
    Instant(t.year + m / 12, m % 12, t.day, t.millis)
  }

  /** A date-only value (`YYYY-MM-DD`) `k` years later: `setFullYear(getFullYear() + k)`,
      then formatted back to a date, which drops the time of day. */
  function AddYearsToDate(t: Instant, k: nat): (r: Instant)
    ensures r.year == t.year + k && r.month == t.month && r.day == t.day && r.millis == 0
    ensures WellFormed(t) ==> WellFormed(r)
  {
    Instant(t.year + k, t.month, t.day, 0)
  }

  /** Within valid instants, being before implies not being later by month index. */
  lemma BeforeMonthIndex(a: Instant, b: Instant)
    requires WellFormed(a) && WellFormed(b) && Before(a, b)
    ensures MonthIndex(a) <= MonthIndex(b)
  {
  }

  /** Within valid instants, an earlier month index means an earlier instant. */
  lemma MonthIndexBefore(a: Instant, b: Instant)
    requires WellFormed(a) && WellFormed(b) && MonthIndex(a) < MonthIndex(b)
    ensures Before(a, b)
  {
  }
}
