/**
 * The stays of the service's unit tests, as epoch days: 2023-11-05 is day
 * 19666, 2023-11-12 is 19673, 2023-11-18 is 19679, 2023-11-19 is 19680
 * and 2023-11-20 is 19681. Fees are in hundredths, at the tests' rates
 * Java = 3, Azure = 8, Jakarta = 10.
 */
module BillingExamples {
  import opened Wrappers
  import opened Time
  import opened Utilities
  import opened Billing
  import opened Status

  function TestRates(): map<string, int>
  {
    map["Java" := 3, "Azure" := 8, "Jakarta" := 10]
  }

  lemma CalendarAnchors()
    ensures IsSunday(19666) && IsSunday(19673) && IsSunday(19680)
    ensures DayOfWeek(19679) == 6 && DayOfWeek(19681) == 1
  {
  }

  /** Monday 11:00:01 to 11:05:01 on Java street: 5 minutes, 0.15. */
  lemma FiveMinutesOnJava()
    ensures BillableMinutes(DateTime(19681, TimeOf(11, 0, 1)), DateTime(19681, TimeOf(11, 5, 1))) == 5
    ensures Fee(TestRates(), "Java", 5) == Success(15)
  {
  }

  /** Eight minutes at any weekday daytime on Jakarta street: 0.8; 25 minutes on Azure: 2. */
  lemma ShortWeekdayStays(date: int, t: TimeOfDay)
    requires !IsSunday(date) && Opening <= t && t + 25 * 60 <= Closing
    ensures BillableMinutes(DateTime(date, t), DateTime(date, t + 8 * 60)) == 8
    ensures BillableMinutes(DateTime(date, t), DateTime(date, t + 25 * 60)) == 25
    ensures Fee(TestRates(), "Jakarta", 8) == Success(80)
    ensures Fee(TestRates(), "Azure", 25) == Success(200)
  {
  }

  /** Sunday 07:00:01 to 11:00:01 on the same Sunday: free. */
  lemma SameSundayIsFree()
    ensures BillableMinutes(DateTime(19680, TimeOf(7, 0, 1)), DateTime(19680, TimeOf(11, 0, 1))) == 0
  {
  }

  /** Saturday 07:00:01 to Sunday 11:00:01: 780 minutes, 62.4 on Azure. */
  lemma SaturdayToSunday()
    ensures BillableMinutes(DateTime(19679, TimeOf(7, 0, 1)), DateTime(19680, TimeOf(11, 0, 1))) == 780
    ensures Fee(TestRates(), "Azure", 780) == Success(6240)
  {
  }

  /** Sunday 07:00:01 to Monday 11:00:01: 180 minutes, 14.4 on Azure. */
  lemma SundayToMonday()
    ensures BillableMinutes(DateTime(19680, TimeOf(7, 0, 1)), DateTime(19681, TimeOf(11, 0, 1))) == 180
    ensures Fee(TestRates(), "Azure", 180) == Success(1440)
  {
  }

  /** Sunday 2023-11-05 07:00:01 to Sunday 2023-11-12 11:00:01: 4680 minutes, 374.4 on Azure. */
  lemma SundayToNextSunday()
    ensures BillableMinutes(DateTime(19666, TimeOf(7, 0, 1)), DateTime(19673, TimeOf(11, 0, 1))) == 4680
    ensures Fee(TestRates(), "Azure", 4680) == Success(37440)
  {
  }

  /** A weekday stay wholly before 08:00 becomes 08:00 to 21:00: 780 minutes. */
  lemma EarlyMorningStayBillsTheWholeDay(date: int)
    requires !IsSunday(date)
    ensures BillableMinutes(DateTime(date, TimeOf(7, 0, 0)), DateTime(date, TimeOf(7, 30, 0))) == 780
  {
  }

  /** A registration at 22:00 snaps back to 08:00 of the same day. */
  lemma LateRegistrationSnapsBack(date: int)
    ensures AdjustedStart(DateTime(date, TimeOf(22, 0, 0))) == DateTime(date, TimeOf(8, 0, 0))
  {
  }

  /** Monday 20:00:01 to Tuesday 09:00:01 crosses a night but gets no allowance: 780 minutes.
      Both times have non-zero seconds, so the clamp as written keeps them too. */
  lemma OvernightStayGetsNoAllowance()
    ensures ClampAsWritten(TimeOf(20, 0, 1), Registered) == Some(TimeOf(20, 0, 1))
    ensures ClampAsWritten(TimeOf(9, 0, 1), DeRegistered) == Some(TimeOf(9, 0, 1))
    ensures BillableMinutes(DateTime(19681, TimeOf(20, 0, 1)), DateTime(19682, TimeOf(9, 0, 1))) == 780
  {
  }
}
