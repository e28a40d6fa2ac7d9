/**
 * Wall-clock arithmetic of the scheduler. An instant is local time in
 * microseconds since midnight of day 0, which is the precision of the
 * timestamps the bot compares; a date is a day number.
 */
module Clock {
  import opened Wrappers

  type Instant = int

  const MINUTE: int := 60_000_000
  const HOUR: int := 3_600_000_000
  const DAY: int := 86_400_000_000

  /** The gap kept around every booking, BUFFER_MINUTES = 1. */
  const BUFFER_MINUTES: int := 1
  const BUFFER: int := BUFFER_MINUTES * MINUTE

  /** The working window of a day: slots start on the hour from 09:00 and end by 21:00. */
  const WORK_START_HOUR: int := 9
  const WORK_END_HOUR: int := 21

  function Minutes(n: int): (t: int)
    ensures t == n * MINUTE
  {
    n * MINUTE
  }

  function Max(a: int, b: int): int {
    if a >= b then a else b
  }

  function DateOf(t: Instant): int {
    t / DAY
  }

  function TimeOfDay(t: Instant): (tod: int)
    ensures 0 <= tod < DAY
  {
    t % DAY
  }

  /** `datetime.combine(date, time)`: the instant at time of day `tod` on `date`. */
  function Combine(date: int, tod: int): (t: Instant)
    requires 0 <= tod < DAY
    ensures DateOf(t) == date && TimeOfDay(t) == tod
  {
    date * DAY + tod
  }

  /** Splitting an instant into its date and time of day and combining them again gives it back. */
  lemma CombineSplit(t: Instant)
    ensures Combine(DateOf(t), TimeOfDay(t)) == t
  {
  }

  /**
   * The new nominal time the /edit command gives a booking: a new
   * date keeps the old time of day, a new time of day keeps the old date,
   * both replace both, neither keeps the booking where it was.
   */
  function Rescheduled(current: Instant, newDate: Option<int>, newTime: Option<int>): (t: Instant)
    requires newTime.Some? ==> 0 <= newTime.value < DAY
    ensures DateOf(t) == newDate.GetOr(DateOf(current))
    ensures TimeOfDay(t) == newTime.GetOr(TimeOfDay(current))
  {
    if newDate.Some? && newTime.Some? then Combine(newDate.value, newTime.value)
    else if newDate.Some? then Combine(newDate.value, TimeOfDay(current))
    else if newTime.Some? then Combine(DateOf(current), newTime.value)
    else current
  }
}
