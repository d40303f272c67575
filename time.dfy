/**
 * The slice of java.time the parking service relies on, at second precision.
 *
 * A date is an epoch-day number (0 is 1970-01-01, as LocalDate.toEpochDay),
 * a time of day is a number of seconds since midnight, and a LocalDateTime is
 * the pair of both. ChronoUnit differences truncate toward zero, which is not
 * what Dafny's Euclidean `/` does on negative numbers, so TruncDiv spells it out.
 */
module Time {

  const SecondsPerMinute := 60
  const SecondsPerDay := 86400

  /** Seconds since midnight: a LocalTime without nanoseconds. */
  type TimeOfDay = s: int | 0 <= s < SecondsPerDay

  /** LocalTime.of(h, m, s). */
  function TimeOf(h: int, m: int, s: int): (t: int)
  {
    h * 3600 + m * 60 + s
  }

  /** A LocalDateTime: an epoch day and a time of day on it. */
  datatype DateTime = DateTime(date: int, time: TimeOfDay)

  /** Seconds since 1970-01-01T00:00, the order LocalDateTime compares by. */
  function Epoch(t: DateTime): int
  {
    t.date * SecondsPerDay + t.time
  }

  /** LocalDateTime.isAfter */
  predicate IsAfter(a: DateTime, b: DateTime)
  {
    Epoch(a) > Epoch(b)
  }

  /** LocalDateTime.isBefore */
  predicate IsBefore(a: DateTime, b: DateTime)
  {
    Epoch(a) < Epoch(b)
  }

  /** Java's integer division on longs: the quotient is truncated toward zero. */
  function TruncDiv(a: int, d: int): (q: int)
    requires d > 0
    ensures a >= 0 ==> q >= 0
    ensures a <= 0 ==> q <= 0
    ensures -d < a < d ==> q == 0
  {
    if a >= 0 then a / d else -((-a) / d)
  }

  /** ChronoUnit.MINUTES.between(a, b): whole minutes from a to b, truncated toward zero. */
  function MinutesBetween(a: DateTime, b: DateTime): int
  {
    TruncDiv(Epoch(b) - Epoch(a), SecondsPerMinute)
  }

  /** ChronoUnit.DAYS.between(a, b): whole 24-hour days from a to b, truncated toward zero. */
  function DaysBetween(a: DateTime, b: DateTime): int
  {
    TruncDiv(Epoch(b) - Epoch(a), SecondsPerDay)
  }

  /** ChronoUnit.MINUTES.between on two LocalTimes of one day. */
  function MinutesBetweenTimes(a: TimeOfDay, b: TimeOfDay): int
  {
    TruncDiv(b - a, SecondsPerMinute)
  }

  /** LocalDate.getDayOfWeek as ISO number, Monday = 1 ... Sunday = 7 (epoch day 0 was a Thursday). */
  function DayOfWeek(date: int): (d: int)
    ensures 1 <= d <= 7
  {
    (date + 3) % 7 + 1
  }

  predicate IsSunday(date: int)
  {
    DayOfWeek(date) == 7
  }
}
