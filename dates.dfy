/**
 * Dates of the chore chart.
 *
 * A date is modelled as a whole day number counted from 1 January 1970, and its
 * timestamp as that number of whole days in milliseconds: this assumes that every date,
 * including the week headers read from the sheet, is a midnight in UTC. Adding days or
 * weeks is integer arithmetic; calendar rollover, daylight saving time and the host's
 * time zone are not modelled.
 */
module Dates {

  const DAYS_PER_WEEK: int := 7
  const MS_PER_DAY: int := 86400000
  const MS_PER_SECOND: int := 1000

  /** `addDays`: the date `days` calendar days after `date`. */
  function AddDays(date: int, days: int): int
  {
    date + days
  }

  /** `addWeeks`: the date `weeks` weeks after `date`. */
  function AddWeeks(date: int, weeks: int): int
  {
    AddDays(date, DAYS_PER_WEEK * weeks)
  }

  /** `Date.getTime()`: milliseconds since the epoch of the midnight that starts `date`. */
  function TimestampMs(date: int): int
  {
    date * MS_PER_DAY
  }

  /**
   * `Date.getMilliseconds()`: the millisecond component (0 to 999) of the time of day,
   * which for a whole-day date is always zero.
   */
  function MillisecondsOf(date: int): (ms: int)
    ensures ms == 0
  {
    MultipleOfSecond(date * (MS_PER_DAY / MS_PER_SECOND));
    TimestampMs(date) % MS_PER_SECOND
  }

  lemma MultipleOfSecond(k: int)
    ensures (k * MS_PER_SECOND) % MS_PER_SECOND == 0
  {
  }

  /** Adding days: moving by `a` then `b` days is moving by `a + b`, and moving forward is later. */
  lemma AddDaysLaws(date: int, a: int, b: int)
    ensures AddDays(AddDays(date, a), b) == AddDays(date, a + b)
    ensures AddDays(AddDays(date, a), -a) == date
    ensures a > 0 ==> AddDays(date, a) > date
  {
  }

  /**
   * Adding weeks: one week is seven days, `addWeeks(d, -1)` undoes `addWeeks(d, 1)`, and
   * moving forward by whole weeks never lands on the same or an earlier date.
   */
  lemma AddWeeksLaws(date: int, a: int, b: int)
    ensures AddWeeks(date, 1) == AddDays(date, DAYS_PER_WEEK)
    ensures AddWeeks(AddWeeks(date, a), b) == AddWeeks(date, a + b)
    ensures AddWeeks(AddWeeks(date, a), -a) == date
    ensures a > 0 ==> AddWeeks(date, a) >= AddDays(date, DAYS_PER_WEEK)
  {
  }
}
