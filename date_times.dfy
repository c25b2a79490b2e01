/** Timezone-aware datetimes of a project that runs in UTC, as integer
    seconds since the Unix epoch. Python's `timedelta.days` of a difference
    is the floor of the difference in whole days, and `replace(hour=..,
    minute=.., second=0, microsecond=0)` moves a datetime to a clock time
    of its own calendar day; both are written out here. */
module DateTimes {

  /** Seconds since 1970-01-01T00:00:00Z. */
  type Time = int

  const SecondsPerDay: int := 86400

  /** `timedelta(seconds=d).days`: whole days, rounded towards minus infinity. */
  function DaysOf(d: int): (n: int)
    ensures n * SecondsPerDay <= d < (n + 1) * SecondsPerDay
  {
    d / SecondsPerDay
  }

  /** `t.date()`, as the number of the calendar day since the epoch: the
      whole days that have passed since 1970-01-01T00:00:00Z. */
  function DateOf(t: Time): (day: int)
    ensures day * SecondsPerDay <= t < (day + 1) * SecondsPerDay
  {
    DaysOf(t)
  }

  /** Seconds since midnight of `t`'s own day. */
  function TimeOfDay(t: Time): (s: int)
    ensures 0 <= s < SecondsPerDay
    ensures t == DateOf(t) * SecondsPerDay + s
  {
    t - DateOf(t) * SecondsPerDay
  }

  /** `t.replace(hour=h, minute=m, second=s, microsecond=0)`. */
  function AtClock(t: Time, h: int, m: int, s: int): (r: Time)
    requires 0 <= h < 24 && 0 <= m < 60 && 0 <= s < 60
    ensures DateOf(r) == DateOf(t)
    ensures TimeOfDay(r) == h * 3600 + m * 60 + s
  {
    DateOf(t) * SecondsPerDay + h * 3600 + m * 60 + s
  }

  /** A positive number of whole days is exactly a difference of at least one day. */
  lemma DaysPositive(d: int)
    ensures DaysOf(d) > 0 <==> d >= SecondsPerDay
  {
  }

  /** Times on the same calendar day are less than a day apart, so their
      difference counts zero whole days. */
  lemma SameDateZeroDays(t1: Time, t2: Time)
    requires t1 <= t2 && DateOf(t1) == DateOf(t2)
    ensures DaysOf(t2 - t1) == 0
  {
  }
}
