/** The constants shared by the temporal density models. */
module TemporalModel {
  import opened JavaOps

  const START: int := 0
  const END: int := 24
  const HOURS_OF_DAY: int := 24
  const MINUTES_OF_HOUR: int := 60
  const SECONDS_OF_MINUTE: int := 60
  const SECONDS_OF_HOUR: int := MINUTES_OF_HOUR * SECONDS_OF_MINUTE
  const SECONDS_OF_DAY: int := HOURS_OF_DAY * MINUTES_OF_HOUR * SECONDS_OF_MINUTE
  // The source multiplies the hour span by SECONDS_OF_MINUTE; both factors are 60.
  const SPAN_IN_MINUTE: int := (END - START) * SECONDS_OF_MINUTE

  /** The time at which a window of `window` minutes starting at `time` ends:
      the window in seconds is an `int` product, added to a `long` time. */
  function WindowEnd(time: int, window: int): (t: int)
    ensures IsLong(t)
    ensures IsLong(time) && IsInt(window * SECONDS_OF_MINUTE) && IsLong(time + window * SECONDS_OF_MINUTE)
      ==> t == time + window * SECONDS_OF_MINUTE
  {
    WrapLong(time + WrapInt(window * SECONDS_OF_MINUTE))
  }
}

/** A local date-time in the model's reference time zone, standing in for
    `ZonedDateTime`, and the calendar operations the matrix column lookup uses.
    The time-zone rules themselves are parameters: they are not modelled. */
module Calendar {

  /** `epoch` is the instant in seconds; the other fields are the local
      calendar fields. `dayOfWeek` runs from 1 (Monday) to 7 (Sunday). */
  datatype DateTime = DateTime(
    epoch: int,
    year: int,
    dayOfYear: int,
    dayOfWeek: int,
    hour: int,
    minute: int,
    second: int)

  predicate WellFormed(d: DateTime) {
    && 1 <= d.dayOfYear <= 366
    && 1 <= d.dayOfWeek <= 7
    && 0 <= d.hour < 24
    && 0 <= d.minute < 60
    && 0 <= d.second < 60
  }

  predicate IsMidnight(d: DateTime) {
    d.hour == 0 && d.minute == 0 && d.second == 0
  }

  const UnixEpoch: DateTime := DateTime(0, 1970, 1, 4, 0, 0, 0)

  /** `Utils.getTime`: an instant to its local date-time. */
  type Clock = f: int -> DateTime | forall e :: WellFormed(f(e)) witness (e: int) => UnixEpoch
  /** The same date with the time fields zeroed. */
  type Truncation = f: DateTime -> DateTime | forall d :: WellFormed(f(d)) && IsMidnight(f(d))
    witness (d: DateTime) => UnixEpoch
  /** `plusDays`, `plusYears`, `plusSeconds` (a negative amount subtracts). */
  type Shift = f: (DateTime, int) -> DateTime | forall d, k :: WellFormed(f(d, k))
    witness (d: DateTime, k: int) => UnixEpoch

  datatype Calendar = Calendar(
    atEpoch: Clock,
    atMidnight: Truncation,
    plusDays: Shift,
    plusYears: Shift,
    plusSeconds: Shift)

  /** The ISO day of week `k` days after (or before) a day `dow`. */
  function DayOfWeekAfter(dow: int, k: int): (r: int)
    ensures 1 <= r <= 7
  {
    (dow - 1 + k) % 7 + 1
  }

  /** Day arithmetic that keeps the week cycle: moving by `k` days moves the
      day of week by `k` modulo seven. */
  ghost predicate WeekCoherent(cal: Calendar) {
    forall d, k :: cal.plusDays(d, k).dayOfWeek == DayOfWeekAfter(d.dayOfWeek, k)
  }
}
