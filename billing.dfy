/**
 * ParkingService.calculateParkingMinutes and the fee line of
 * calculateParkingCost: billable minutes from a registration and a
 * de-registration timestamp, and the fee from a street's rate.
 */
module Billing {
  import opened Wrappers
  import opened Time
  import opened Status
  import opened Errors
  import opened Utilities

  /** DAILY_FREE_MINUTE: the 11 overnight hours credited per whole day. */
  const DailyFreeMinutes := 660

  /** The registration timestamp with its time of day clamped in the registration role. */
  function AdjustedStart(registeredAt: DateTime): (s: DateTime)
    ensures s == DateTime(registeredAt.date, Clamp(registeredAt.time, Registered))
    ensures Opening <= s.time <= Closing
  {
    DateTime(registeredAt.date, Clamp(registeredAt.time, Registered))
  }

  /** The de-registration timestamp with its time of day clamped in the de-registration role. */
  function AdjustedEnd(unregisteredAt: DateTime): (e: DateTime)
    ensures e == DateTime(unregisteredAt.date, Clamp(unregisteredAt.time, DeRegistered))
    ensures Opening <= e.time <= Closing
  {
    DateTime(unregisteredAt.date, Clamp(unregisteredAt.time, DeRegistered))
  }

  /** Minutes of a Sunday de-registration day that are free: from 08:00 to the adjusted end. */
  function SundayEndDeduction(e: DateTime): (d: int)
    requires Opening <= e.time <= Closing
    ensures 0 <= d <= 780
  {
    MinutesBetweenTimes(Opening, e.time)
  }

  /** Minutes of a Sunday registration day that are free: from the adjusted start to 21:00. */
  function SundayStartDeduction(s: DateTime): (d: int)
    requires Opening <= s.time <= Closing
    ensures 0 <= d <= 780
  {
    MinutesBetweenTimes(s.time, Closing)
  }

  /**
   * calculateParkingMinutes, step by step: clamp both ends, take the whole
   * minutes between them, take off 660 per whole day, take off the Sunday
   * part of a Sunday end and of a Sunday start, and charge nothing at all
   * when both ends fall on one Sunday. The result is not floored at zero.
   */
  function BillableMinutes(registeredAt: DateTime, unregisteredAt: DateTime): (minutes: int)
    ensures registeredAt.date == unregisteredAt.date && IsSunday(registeredAt.date) ==> minutes == 0
    ensures registeredAt.date == unregisteredAt.date && !IsSunday(registeredAt.date)
            && Opening <= registeredAt.time <= Closing && Opening <= unregisteredAt.time <= Closing
            ==> minutes == MinutesBetween(registeredAt, unregisteredAt)
  {
    var start := AdjustedStart(registeredAt);
    var end := AdjustedEnd(unregisteredAt);
    var elapsed := MinutesBetween(start, end);
    var days := DaysBetween(start, end);
    var afterAllowance := if days > 0 then elapsed - days * DailyFreeMinutes else elapsed;
    var afterSundayEnd :=
      if IsSunday(end.date) then afterAllowance - SundayEndDeduction(end) else afterAllowance;
    var afterSundayStart :=
      if IsSunday(start.date) then afterSundayEnd - SundayStartDeduction(start) else afterSundayEnd;
    if IsSunday(start.date) && IsSunday(end.date) && IsSameDay(end, start) then 0
    else afterSundayStart
  }

  /** Clamping keeps the order of a stay: if it ends no earlier than it starts,
      so do the adjusted ends, and the elapsed minutes are not negative. */
  lemma AdjustedOrder(registeredAt: DateTime, unregisteredAt: DateTime)
    requires Epoch(registeredAt) <= Epoch(unregisteredAt)
    ensures Epoch(AdjustedStart(registeredAt)) <= Epoch(AdjustedEnd(unregisteredAt))
    ensures MinutesBetween(AdjustedStart(registeredAt), AdjustedEnd(unregisteredAt)) >= 0
    ensures DaysBetween(AdjustedStart(registeredAt), AdjustedEnd(unregisteredAt)) >= 0
  {
    var s, e := AdjustedStart(registeredAt), AdjustedEnd(unregisteredAt);
    if registeredAt.date == unregisteredAt.date {
      assert s.time <= e.time;
    } else {
      assert registeredAt.date < unregisteredAt.date;
      assert Epoch(s) <= Epoch(e);
    }
  }

  /** The exemptions only ever take minutes off: every deduction is between 0
      and its cap, and the charge never exceeds the adjusted elapsed minutes. */
  lemma BillableDecomposition(registeredAt: DateTime, unregisteredAt: DateTime)
    requires Epoch(registeredAt) <= Epoch(unregisteredAt)
    ensures var s, e := AdjustedStart(registeredAt), AdjustedEnd(unregisteredAt);
            var days := DaysBetween(s, e);
            !(IsSunday(s.date) && s.date == e.date) ==>
              BillableMinutes(registeredAt, unregisteredAt)
              == MinutesBetween(s, e) - DailyFreeMinutes * days
                 - (if IsSunday(e.date) then SundayEndDeduction(e) else 0)
                 - (if IsSunday(s.date) then SundayStartDeduction(s) else 0)
    ensures BillableMinutes(registeredAt, unregisteredAt)
            <= MinutesBetween(AdjustedStart(registeredAt), AdjustedEnd(unregisteredAt))
  {
    AdjustedOrder(registeredAt, unregisteredAt);
  }

  /** A stay of less than a day between the adjusted ends gets no daily allowance,
      even when it crosses midnight; without Sundays it is billed minute for minute. */
  lemma NoAllowanceWithinADay(registeredAt: DateTime, unregisteredAt: DateTime)
    requires 0 <= Epoch(AdjustedEnd(unregisteredAt)) - Epoch(AdjustedStart(registeredAt)) < SecondsPerDay
    requires !IsSunday(registeredAt.date) && !IsSunday(unregisteredAt.date)
    ensures BillableMinutes(registeredAt, unregisteredAt)
            == MinutesBetween(AdjustedStart(registeredAt), AdjustedEnd(unregisteredAt))
  {
  }

  /**
   * The fee line of calculateParkingCost, in hundredths of a currency unit:
   * the street's rate times the billable minutes (the source divides that
   * product by 100). A street without a rate is an error, never a default.
   */
  function Fee(rates: map<string, int>, street: string, minutes: int): (r: Result<int, ServiceError>)
    ensures r.Failure? <==> street !in rates
    ensures r.Failure? ==> r.error == RateNotFound
    ensures r.Success? ==> r.value == rates[street] * minutes
  {
    if street in rates then Success(rates[street] * minutes) else Failure(RateNotFound)
  }

  /** A non-negative rate never turns a longer stay into a smaller fee. */
  lemma FeeMonotone(rates: map<string, int>, street: string, m1: int, m2: int)
    requires street in rates && rates[street] >= 0 && m1 <= m2
    ensures Fee(rates, street, m1).value <= Fee(rates, street, m2).value
  {
    var rate := rates[street];
    assert rate * m2 - rate * m1 == rate * (m2 - m1);
  }
}
