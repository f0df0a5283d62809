/** Local wall-clock instants, the part of JavaScript's `Date` the dashboard relies on.

    An instant is a day number (day 0 is 1970-01-01, a Thursday) and the milliseconds
    elapsed since local midnight. `getTime` order is the lexicographic order on the pair.
    Moving by whole days (`setDate(getDate() + n)`) is adding to the day number; daylight
    saving time is not modelled. Month arithmetic (`setMonth`, `setFullYear`) and the
    calendar year (`getFullYear`) come from a `Calendar` given as a parameter. */
module Dates {

  const MsPerDay: int := 86_400_000

  type MsOfDay = x: int | 0 <= x < MsPerDay

  /** 23:59:59.999, the last representable millisecond of a day. */
  const EndOfDayMs: MsOfDay := MsPerDay - 1

  datatype Instant = Instant(day: int, ms: MsOfDay)

  /** `a <= b` on dates. */
  predicate Le(a: Instant, b: Instant) { a.day < b.day || (a.day == b.day && a.ms <= b.ms) }

  /** `a < b` on dates. */
  predicate Lt(a: Instant, b: Instant) { a.day < b.day || (a.day == b.day && a.ms < b.ms) }

  const Sunday: int := 0
  const Monday: int := 1

  /** `getDay()`: 0 for Sunday, 1 for Monday, ..., 6 for Saturday. */
  function Weekday(day: int): (w: int)
    ensures 0 <= w < 7
  {
    (day + 4) % 7
  }

  predicate IsMonday(day: int) { Weekday(day) == Monday }

  /** Weekdays advance by one each day and repeat every seven days. */
  lemma WeekdayNext(day: int)
    ensures Weekday(day + 1) == (Weekday(day) + 1) % 7
    ensures Weekday(day + 7) == Weekday(day)
  {
  }

  /** `setDate(getDate() + n)`: the same time of day, `n` days later (earlier when negative). */
  function AddDays(t: Instant, n: int): (r: Instant)
    ensures r.ms == t.ms && r.day - t.day == n
  {
    Instant(t.day + n, t.ms)
  }

  /** Under a well-behaved calendar, going back months never gives a later date. */
  lemma ShiftBack(cal: Calendar, t: Instant, k: nat)
    ensures WellBehaved(cal) ==> Le(cal.shiftMonths(t, -(k as int)), t)
  {
    if WellBehaved(cal) {
      assert Le(cal.shiftMonths(t, -(k as int)), cal.shiftMonths(t, 0));
    }
  }

  /** Under a well-behaved calendar, shifting by fewer months gives an earlier date. */
  lemma ShiftOrder(cal: Calendar, t: Instant, j: int, k: int)
    ensures WellBehaved(cal) && j <= k ==> Le(cal.shiftMonths(t, j), cal.shiftMonths(t, k))
  {
  }

  /** Two Mondays fewer than seven days apart are the same day. */
  lemma MondayUnique(a: int, b: int)
    requires IsMonday(a) && IsMonday(b)
    requires a <= b < a + 7
    ensures a == b
  {
    var qa := (a + 4) / 7;
    var qb := (b + 4) / 7;
    assert a + 4 == 7 * qa + 1;
    assert b + 4 == 7 * qb + 1;
  }

  /** Of two different Mondays the later is at least a week after the earlier. */
  lemma MondaysAWeekApart(a: int, b: int)
    requires IsMonday(a) && IsMonday(b) && a < b
    ensures a + 7 <= b
  {
    if b < a + 7 {
      MondayUnique(a, b);
    }
  }

  /** 2000-01-01 00:00 local, `new Date(2000, 0, 1)`: 10957 days after 1970-01-01. */
  const Jan1st2000: Instant := Instant(10957, 0)

  /** The calendar operations of `Date` that the dashboard uses and that are not
      whole-day arithmetic: `shiftMonths(t, k)` is `t` with `setMonth(getMonth() + k)`
      applied, `yearOf(d)` is `getFullYear()` of day `d`. */
  datatype Calendar = Calendar(shiftMonths: (Instant, int) -> Instant, yearOf: int -> int)

  /** What every calendar satisfies: shifting by no months is the identity, and shifting
      by more months gives a later date. */
  ghost predicate WellBehaved(cal: Calendar) {
    && (forall t :: cal.shiftMonths(t, 0) == t)
    && (forall t, j, k :: j <= k ==> Le(cal.shiftMonths(t, j), cal.shiftMonths(t, k)))
  }
}
