/**
 * The static helpers of the Utilities class: the overnight clamp applied to
 * both ends of a stay, the same-date test and the Sunday counter.
 */
module Utilities {
  import opened Wrappers
  import opened Time
  import opened Status

  /** Start of the overnight free window (21:00) and its end (08:00). */
  const Closing: TimeOfDay := 21 * 3600
  const Opening: TimeOfDay := 8 * 3600

  /** What an overnight time snaps to: 08:00 for a registration, 21:00 otherwise. */
  function Snap(role: ParkingStatus): (t: TimeOfDay)
    ensures t == if role == Registered then Opening else Closing
  {
    if role == Registered then TimeOf(8, 0, 0) else TimeOf(21, 0, 0)
  }

  /**
   * isBetweenNineAndEight: a time strictly after 21:00 or strictly before
   * 08:00 is replaced by the role's boundary; any other time is kept.
   * The first branch would only apply if 08:00 came after 21:00, which it
   * does not; it is kept so the two branches mirror the source.
   */
  function Clamp(t: TimeOfDay, role: ParkingStatus): (r: TimeOfDay)
    ensures Opening <= r <= Closing
    ensures Opening <= t <= Closing ==> r == t
    ensures (t < Opening || Closing < t) ==> r == Snap(role)
  {
    if Opening > Closing then
      if Closing < t && Opening > t then Snap(role) else t
    else if t > Closing || t < Opening then Snap(role)
    else t
  }

  /** LocalTime.parse(time.toString(), "HH:mm:ss") at second precision:
      toString omits ":ss" when the seconds are zero, and the parse then fails. */
  function ReparseTime(t: TimeOfDay): (r: Option<TimeOfDay>)
    ensures r.Some? <==> t % 60 != 0
    ensures r.Some? ==> r.value == t
  {
    if t % 60 == 0 then None else Some(t)
  }

  /** isBetweenNineAndEight as written: the pass-through branch re-parses the
      time's text, so it fails (None) on every whole-minute time it keeps. */
  function ClampAsWritten(t: TimeOfDay, role: ParkingStatus): (r: Option<TimeOfDay>)
    ensures r.None? <==> Opening <= t <= Closing && t % 60 == 0
    ensures r.Some? ==> r.value == Clamp(t, role)
  {
    if Opening > Closing then
      if Closing < t && Opening > t then Some(Snap(role)) else ReparseTime(t)
    else if t > Closing || t < Opening then Some(Snap(role))
    else ReparseTime(t)
  }

  /** The overnight window wraps around midnight: its start is not after its end
      the other way round, so the first branch of isBetweenNineAndEight never fires. */
  lemma FirstBranchUnreachable(t: TimeOfDay, role: ParkingStatus)
    ensures !(Opening > Closing)
    ensures Clamp(t, role) == if t > Closing || t < Opening then Snap(role) else t
  {
  }

  /** Clamping a clamped time in the same role changes nothing. */
  lemma ClampIdempotent(t: TimeOfDay, role: ParkingStatus)
    ensures Clamp(Clamp(t, role), role) == Clamp(t, role)
  {
  }

  /** As written, clamping is not idempotent: 07:00:00 snaps to 08:00:00,
      and re-clamping 08:00:00 fails in the re-parse. */
  lemma ClampAsWrittenFailsOnItsOwnResult()
    ensures ClampAsWritten(TimeOf(7, 0, 0), Registered) == Some(TimeOf(8, 0, 0))
    ensures ClampAsWritten(TimeOf(8, 0, 0), Registered) == None
    ensures ClampAsWritten(TimeOf(11, 0, 0), DeRegistered) == None
  {
  }

  /** The corrected clamp agrees with the source on every time it does not reject. */
  lemma ClampAsWrittenAgreesOffTheMinute(t: TimeOfDay, role: ParkingStatus)
    requires t % 60 != 0
    ensures ClampAsWritten(t, role) == Some(Clamp(t, role))
  {
  }

  /** isSameDay: the calendar dates are equal. */
  predicate IsSameDay(a: DateTime, b: DateTime)
  {
    a.date == b.date
  }

  lemma IsSameDaySymmetric(a: DateTime, b: DateTime)
    ensures IsSameDay(a, b) == IsSameDay(b, a)
  {
  }

  /** noOfSundayBetweenDates: the Sundays among the dates start, start + 1, ..., end - 1.
      datesUntil rejects a reversed range, hence the precondition. */
  function SundaysBetween(start: int, end: int): (n: nat)
    requires start <= end
    ensures n <= end - start
    ensures start == end ==> n == 0
    decreases end - start
  {
    if start == end then 0
    else (if IsSunday(start) then 1 else 0) + SundaysBetween(start + 1, end)
  }

  /** Counting over [a, c) is counting over [a, b) and then over [b, c). */
  lemma {:induction false} SundaysBetweenSplit(a: int, b: int, c: int)
    requires a <= b <= c
    ensures SundaysBetween(a, c) == SundaysBetween(a, b) + SundaysBetween(b, c)
    decreases b - a
  {
    if a < b {
      SundaysBetweenSplit(a + 1, b, c);
    }
  }

  /** One date: the count is 1 exactly on a Sunday. */
  lemma SundaysOnOneDay(a: int)
    ensures SundaysBetween(a, a + 1) == if IsSunday(a) then 1 else 0
  {
  }

  /** Any seven consecutive dates hold exactly one Sunday. */
  lemma SundaysInAWeek(a: int)
    ensures SundaysBetween(a, a + 7) == 1
  {
    var q, r := (a + 3) / 7, (a + 3) % 7;
    assert a + 3 == 7 * q + r;
    // the one Sunday among a, ..., a + 6 is a + (6 - r)
    var i := 0;
    while i < 7
      invariant 0 <= i <= 7
      invariant SundaysBetween(a, a + i) == if 6 - r < i then 1 else 0
    {
      if r + i < 7 {
        assert a + i + 3 == 7 * q + (r + i);
      } else {
        assert a + i + 3 == 7 * (q + 1) + (r + i - 7);
      }
      assert IsSunday(a + i) <==> i == 6 - r;
      SundaysBetweenSplit(a, a + i, a + i + 1);
      SundaysOnOneDay(a + i);
      i := i + 1;
    }
  }

  /** A span of 7k dates holds exactly k Sundays. */
  lemma {:induction false} SundaysInWeeks(a: int, k: nat)
    ensures SundaysBetween(a, a + 7 * k) == k
  {
    if k > 0 {
      SundaysInWeeks(a, k - 1);
      SundaysBetweenSplit(a, a + 7 * (k - 1), a + 7 * k);
      SundaysInAWeek(a + 7 * (k - 1));
    }
  }
}
