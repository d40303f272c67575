# Dutch street parking: billing, session registry and violation report

A Dafny model of the core of a street-parking service. A vehicle is registered on a street when it arrives and
de-registered when it leaves. De-registration charges the street's per-minute rate for the billable minutes.
Billable minutes are the elapsed time minus three exemptions:
- the overnight window 21:00–08:00;
- a daily allowance of 660 minutes for every whole day;
- the Sunday part of a stay.

A separate batch job compares the day's patrol sightings with the day's sessions. It reports vehicles seen without
any session of the day. It also reports a sighting that a session of the same plate on the same street places both
after its de-registration and before its registration. Only a session closed before it opened allows that, so with
ordered sessions this second part is empty.

Layout (one module per file):

- `wrappers.dfy` (`Wrappers`): `Option` and `Result`. These stand for Java's nullable values and thrown exceptions.
- `time.dfy` (`Time`): the part of `java.time` the service uses, at second precision.
  - A date is an epoch-day number, as `LocalDate.toEpochDay` gives it.
  - A time of day is a count of seconds since midnight.
  - The weekday uses Java's own formula, `floorMod(epochDay + 3, 7) + 1`, so 2023-11-19 is day 19680, a Sunday.
  - `ChronoUnit` differences truncate toward zero. `TruncDiv` writes that out, because Dafny's `/` is Euclidean.
- `status.dfy` (`Status`), `errors.dfy` (`Errors`), `entities.dfy` (`Entities`): the two-valued parking status,
  the three exceptions, and the session, sighting and report records.
- `utilities.dfy` (`Utilities`): the overnight clamp `isBetweenNineAndEight`, `isSameDay` and
  `noOfSundayBetweenDates`.
- `billing.dfy` (`Billing`) and `billing_examples.dfy` (`BillingExamples`): `calculateParkingMinutes` as a pure
  function, the fee line, their properties and the stays of the unit tests.
- `registry.dfy` (`Registry`): a `SessionRegistry` class holding the session sequence. Its `Register` and
  `Deregister` methods keep "at most one Registered session per plate". The clock is a `now` parameter.
- `reconciler.dfy` (`Reconciler`) and `reconciler_examples.dfy` (`ReconcilerExamples`): `listUnregisteredVehicles`.
  - It is a method with two loops, like the source's `forEach`/`add` and filtered `addAll`.
  - It is proved equal to a filter-and-concatenate specification, `Report`.

Three behaviours of the code are easy to overlook, and the model keeps them as the code has them:
- `Deregister` saves the closed session before it looks up the street's rate (ParkingService.java:95-102). A
  street missing from the price table therefore fails the call but leaves the session DeRegistered. The model
  does not treat the call as free of side effects on failure.
- A session that is still Registered has a null unregister time. The report's interval test calls `isAfter(null)`
  on it whenever the plate and street match, and that throws (ParkingService.java:156-158). The model returns
  this as `Failure(MissingUnregisterTime)` in `Report`. The intended report, `ReportTolerant`, skips the session;
  see "## Findings".
- A missing rate makes `prices.get(street)` return null, and the multiplication then throws. The model names this
  outcome `RateNotFound`.

## Model

| member | source | states |
|---|---|---|
| `Utilities.Clamp` | src/main/java/com/dutch/parking/misc/Utilities.java:11-26 | the result is always within [08:00, 21:00]; a time within [08:00, 21:00], boundaries included, is kept; a time strictly after 21:00 or strictly before 08:00 becomes the role's boundary |
| `Utilities.FirstBranchUnreachable` | src/main/java/com/dutch/parking/misc/Utilities.java:13-24 | 08:00 is not after 21:00, so the first branch never applies and the clamp is decided by the overnight test alone |
| `Utilities.ClampIdempotent` | src/main/java/com/dutch/parking/misc/Utilities.java:11-26 | clamping a clamped time again in the same role changes nothing |
| `Utilities.ReparseTime` | src/main/java/com/dutch/parking/misc/Utilities.java:25 | re-parsing a time's text with pattern HH:mm:ss fails exactly on whole-minute times and otherwise gives the time back |
| `Utilities.ClampAsWritten` | src/main/java/com/dutch/parking/misc/Utilities.java:11-26 | the clamp as written fails exactly on whole-minute times within [08:00, 21:00]; wherever it succeeds it agrees with `Clamp` |
| `Utilities.ClampAsWrittenFailsOnItsOwnResult` | src/main/java/com/dutch/parking/misc/Utilities.java:18-25 | as written, 07:00:00 snaps to 08:00:00, and clamping 08:00:00 or 11:00:00 fails |
| `Utilities.ClampAsWrittenAgreesOffTheMinute` | src/main/java/com/dutch/parking/misc/Utilities.java:25 | on every time whose seconds are not zero, the clamp as written returns the corrected clamp's result |
| `Utilities.IsSameDaySymmetric` | src/main/java/com/dutch/parking/misc/Utilities.java:28-30 | isSameDay compares calendar dates only and is symmetric |
| `Utilities.SundaysBetween` | src/main/java/com/dutch/parking/misc/Utilities.java:32-35 | counts the Sundays among the dates start to end - 1 (end exclusive); requires start <= end, since datesUntil rejects a reversed range; 0 on equal dates; never more than the number of dates |
| `Utilities.SundaysBetweenSplit` | src/main/java/com/dutch/parking/misc/Utilities.java:32-35 | the count over [a, c) is the count over [a, b) plus the count over [b, c) |
| `Utilities.SundaysOnOneDay` | src/main/java/com/dutch/parking/misc/Utilities.java:33-34 | a one-date range counts 1 exactly when that date is a Sunday |
| `Utilities.SundaysInAWeek` | src/main/java/com/dutch/parking/misc/Utilities.java:32-35 | any seven consecutive dates hold exactly one Sunday |
| `Utilities.SundaysInWeeks` | src/main/java/com/dutch/parking/misc/Utilities.java:32-35 | a span of 7k dates holds exactly k Sundays |
| `Billing.AdjustedStart` | src/main/java/com/dutch/parking/service/ParkingService.java:109-110 | the adjusted start is the registration's own date with its time of day clamped in the Registered role, so it lies within [08:00, 21:00] |
| `Billing.AdjustedEnd` | src/main/java/com/dutch/parking/service/ParkingService.java:111-112 | the adjusted end is the de-registration's own date with its time of day clamped in the DeRegistered role, so it lies within [08:00, 21:00] |
| `Billing.SundayEndDeduction` | src/main/java/com/dutch/parking/service/ParkingService.java:119-121 | the Sunday deduction at the end (08:00 to the adjusted end) lies within [0, 780] |
| `Billing.SundayStartDeduction` | src/main/java/com/dutch/parking/service/ParkingService.java:122-124 | the Sunday deduction at the start (the adjusted start to 21:00) lies within [0, 780] |
| `Billing.BillableMinutes` | src/main/java/com/dutch/parking/service/ParkingService.java:107-130 | both ends on the same Sunday date give 0; both ends on the same other date, both within [08:00, 21:00], give exactly the whole minutes between the original timestamps |
| `Billing.AdjustedOrder` | src/main/java/com/dutch/parking/service/ParkingService.java:109-116 | if the stay does not end before it starts, neither do the clamped ends, so the elapsed minutes and the whole days between them are non-negative |
| `Billing.BillableDecomposition` | src/main/java/com/dutch/parking/service/ParkingService.java:114-124 | outside the same-Sunday case, the charge is the elapsed minutes minus 660 per whole day minus each Sunday deduction; for an ordered stay it never exceeds the elapsed minutes |
| `Billing.NoAllowanceWithinADay` | src/main/java/com/dutch/parking/service/ParkingService.java:116-118 | a stay of under 24 hours between the clamped ends, even across midnight, gets no daily allowance and is billed minute for minute when no end is on a Sunday |
| `Billing.Fee` | src/main/java/com/dutch/parking/service/ParkingService.java:102-104 | fails with RateNotFound exactly when the street has no rate; otherwise the fee in hundredths is the rate times the minutes |
| `Billing.FeeMonotone` | src/main/java/com/dutch/parking/service/ParkingService.java:102 | with a non-negative rate, more billable minutes never give a smaller fee |
| `BillingExamples.CalendarAnchors` | src/test/java/com/dutch/parking/service/ParkingServiceTest.java:135-197 | 2023-11-05, 2023-11-12 and 2023-11-19 are Sundays, 2023-11-18 is a Saturday and 2023-11-20 is a Monday |
| `BillingExamples.FiveMinutesOnJava` | src/test/java/com/dutch/parking/service/ParkingServiceTest.java:79-93 | Monday 11:00:01 to 11:05:01 is 5 minutes and costs 0.15 on Java street |
| `BillingExamples.ShortWeekdayStays` | src/test/java/com/dutch/parking/service/ParkingServiceTest.java:104-133 | 8 daytime weekday minutes cost 0.8 on Jakarta street, and 25 minutes cost 2 on Azure street |
| `BillingExamples.SameSundayIsFree` | src/test/java/com/dutch/parking/service/ParkingServiceTest.java:135-149 | Sunday 07:00:01 to 11:00:01 on the same Sunday is 0 minutes |
| `BillingExamples.SaturdayToSunday` | src/test/java/com/dutch/parking/service/ParkingServiceTest.java:151-165 | Saturday 07:00:01 to Sunday 11:00:01 is 780 minutes, 62.4 on Azure street |
| `BillingExamples.SundayToMonday` | src/test/java/com/dutch/parking/service/ParkingServiceTest.java:167-181 | Sunday 07:00:01 to Monday 11:00:01 is 180 minutes, 14.4 on Azure street |
| `BillingExamples.SundayToNextSunday` | src/test/java/com/dutch/parking/service/ParkingServiceTest.java:183-197 | 2023-11-05 07:00:01 to 2023-11-12 11:00:01 is 4680 minutes, 374.4 on Azure street |
| `BillingExamples.EarlyMorningStayBillsTheWholeDay` | src/main/java/com/dutch/parking/service/ParkingService.java:109-114 | on a weekday, a 07:00 to 07:30 stay is clamped to 08:00 to 21:00 and billed 780 minutes |
| `BillingExamples.LateRegistrationSnapsBack` | src/main/java/com/dutch/parking/service/ParkingService.java:109-110 | a registration at 22:00 becomes 08:00 of the same day |
| `BillingExamples.OvernightStayGetsNoAllowance` | src/main/java/com/dutch/parking/service/ParkingService.java:114-118 | Monday 20:00:01 to Tuesday 09:00:01 crosses a night but is billed all 780 minutes; the clamp as written keeps both times, so the source computes the same |
| `Registry.FindActive` | src/main/java/com/dutch/parking/service/ParkingService.java:73-75 | finds a Registered session of the plate exactly when one exists, and returns the first one |
| `Registry.NewSession` | src/main/java/com/dutch/parking/model/dtos/ParkingDetailDto.java:27-32 | a new session is Registered for its plate and street, is registered at now and has no unregister time |
| `Registry.Close` | src/main/java/com/dutch/parking/service/ParkingService.java:96-98 | closing sets the status to DeRegistered and the unregister time to now, and keeps plate, street and registration time |
| `Registry.Charge` | src/main/java/com/dutch/parking/service/ParkingService.java:100-104 | fails, with RateNotFound, exactly when the street has no rate; otherwise returns the billable minutes from registration to now and the rate times those minutes |
| `Registry.SessionRegistry.Register` | src/main/java/com/dutch/parking/service/ParkingService.java:55-63 | fails with AlreadyRegistered exactly when the plate has a Registered session on any street, and then changes nothing; otherwise appends exactly the new session; keeps at most one Registered session per plate |
| `Registry.SessionRegistry.Deregister` | src/main/java/com/dutch/parking/service/ParkingService.java:72-104 | fails with RegistrationNotFound exactly when the plate has no Registered session, and then changes nothing; otherwise closes that session at now, leaves every other session unchanged and returns its charge; afterwards the plate has no Registered session |
| `Registry.RegisterAndDeregisterTwice` | src/test/java/com/dutch/parking/service/ParkingServiceTest.java:69-102 | registering a plate twice fails with AlreadyRegistered the second time, even on another street; de-registering twice fails with RegistrationNotFound the second time |
| `Reconciler.AnyOutside` | src/main/java/com/dutch/parking/service/ParkingService.java:155-159 | true only if some session on the same plate and street was closed before the sighting and opened after it; false only if there is none; false only if no session on the same plate and street is open either; fails only when an open session on the same plate and street is reached, and never fails when there is none; sessions are taken in order, so it fails when such an open session comes before every session that matches, and it is true when a matching session comes before every such open session |
| `Reconciler.UnregisteredExactly` | src/main/java/com/dutch/parking/service/ParkingService.java:147-151 | part one holds exactly the observations whose plate appears in no session of the day |
| `Reconciler.OutsideExactly` | src/main/java/com/dutch/parking/service/ParkingService.java:154-160 | part two fails exactly when the session test throws for some observation; otherwise it holds exactly the observations the test accepts: each one it holds is accepted, and each accepted observation is in it |
| `Reconciler.OutsideFailurePersists` | src/main/java/com/dutch/parking/service/ParkingService.java:154-160 | a failure while filtering a prefix of the observations makes the whole filter fail |
| `Reconciler.ToReport` | src/main/java/com/dutch/parking/service/ParkingService.java:162-163 | each report line carries the plate, street and time of the observation at the same position |
| `Reconciler.ListUnregisteredVehicles` | src/main/java/com/dutch/parking/service/ParkingService.java:144-165 | the list built in place is exactly the specification `Report`: part one, then part two, projected to report lines, or the failure |
| `Reconciler.OutsideTolerantExactly` | src/main/java/com/dutch/parking/service/ParkingService.java:154-160 | the intended part two holds exactly the observations that some closed session on their plate and street places after its de-registration and before its registration |
| `Reconciler.TolerantAgreesWhenNoFailure` | src/main/java/com/dutch/parking/service/ParkingService.java:154-163 | wherever the report as written succeeds, it equals the intended report |
| `Reconciler.SightingOfRegisteredCarNotReported` | src/main/java/com/dutch/parking/service/ParkingService.java:146-160 | in the intended report, a sighting of a plate that has sessions, all of them still open, is never reported |
| `Reconciler.ReportWithinObservations` | src/main/java/com/dutch/parking/service/ParkingService.java:146-160 | no observation of part one is in part two, and the two parts together keep an observation at most as often as it occurs, so the report is a sub-multiset of the observations and no longer than they are |
| `Reconciler.NoneOutsideOrderedSessions` | src/main/java/com/dutch/parking/service/ParkingService.java:155-159 | against closed sessions whose registration is no later than their de-registration, the session test neither throws nor matches |
| `Reconciler.OrderedSessionsReportOnlyUnregistered` | src/main/java/com/dutch/parking/service/ParkingService.java:154-163 | when every session is closed no earlier than it opened, part two is empty and the report is exactly part one, in order |
| `ReconcilerExamples.TwoOfThreeReported` | src/test/java/com/dutch/parking/service/ParkingServiceTest.java:215-235 | with the unit test's three sightings and two sessions, for any registration time no later than the sightings, the two plates without a session are reported, in order |
| `ReconcilerExamples.ObservedWhileRegisteredFails` | src/main/java/com/dutch/parking/service/ParkingService.java:156-158 | a sighting of a plate on the street of its still-open session makes the report fail, while the intended report is empty |
| `ReconcilerExamples.ReversedSessionReportsSightingBetween` | src/main/java/com/dutch/parking/service/ParkingService.java:154-160 | the literal interval test fires for a session closed before it opened: a sighting between the two is reported once |

## Findings

| source | as written | input that shows it | evidently intended | confidence | as-written member | corrected member |
|---|---|---|---|---|---|---|
| src/main/java/com/dutch/parking/misc/Utilities.java:25 | a time the clamp keeps is printed with `toString()` and parsed back with pattern `HH:mm:ss`; `LocalTime.toString()` leaves out `:ss` when the seconds are zero, so the parse throws | 11:00:00 in either role, and 08:00:00, which is the clamp's own output for 07:00:00 in the Registered role | the time is returned unchanged, and the clamp is idempotent | high, from the documented behaviour of `LocalTime.toString` and `DateTimeFormatter`; not executed | `Utilities.ClampAsWritten` (shown by `Utilities.ClampAsWrittenFailsOnItsOwnResult`) | `Utilities.Clamp` (with `Utilities.ClampIdempotent`, `Utilities.ClampAsWrittenAgreesOffTheMinute`) |
| src/main/java/com/dutch/parking/service/ParkingService.java:156-158 | the interval test calls `isAfter` with the unregister time of each session on the same plate and street that it reaches, in order; an open session's unregister time is null, so the call throws and the whole report job aborts | a sighting of a car on the street of its open session (`ReconcilerExamples.ObservedWhileRegisteredFails`) | an open session does not match, the job goes on, and the registered car is not reported | high, from the documented behaviour of `isAfter(null)`; not executed | `Reconciler.Report`, through `Reconciler.AnyOutside` | `Reconciler.ReportTolerant` (with `Reconciler.OutsideTolerantExactly`, `Reconciler.TolerantAgreesWhenNoFailure`, `Reconciler.SightingOfRegisteredCarNotReported`) |

The two clamps agree on every time whose seconds are not zero, and on every overnight time. The billing tests
at ParkingServiceTest.java:108-113 and 124-128 take their times from the clock with only the nanoseconds dropped,
so under the clamp as written they throw whenever an end falls on a whole minute within [08:00, 21:00]. A
whole-minute end outside that window snaps before the re-parse and throws nothing. The rest of the model uses
the corrected `Clamp`. `ListUnregisteredVehicles` follows the code as written and is proved equal to `Report`.

## Left out

- The clock: `LocalDateTime.now()` (ParkingService.java:98 and 136, ParkingDetailDto.java:30) is a `now` parameter.
  Choosing the day for the report is left to the caller.
- Persistence:
  - The JPA repositories are replaced by a session sequence.
  - The report's two date-window queries (ParkingService.java:138-142) are not modelled. `ListUnregisteredVehicles`
    takes the sessions and sightings already narrowed to the day.
  - A price table with a repeated street makes `Collectors.toMap` throw. Here the price table is a `map` from
    street to rate, so that failure is not modelled.
- `uploadMonitoringDetails` (ParkingService.java:84-86) is left out. It only passes the list to `saveAll`.
- Sub-second precision is left out; timestamps have whole seconds. The registration time is `LocalDateTime.now()`
  with nanoseconds. Through the same re-parse as the finding above, a fractional second would also make the clamp
  throw; this model cannot express that.
- Message texts of the response and the exceptions are left out. The de-registration result carries the minutes
  and the amount.
- Billing.Fee: rates are integers and the amount is given in hundredths (rate × minutes). The source's BigDecimal
  rate may have a fraction, and then it divides the product by 100. Only integer rates are modelled; every test
  uses integer rates.
- Billing.BillableMinutes: uses the corrected `Clamp`. As written, `calculateParkingMinutes` throws
  `DateTimeParseException` when an end falls on a whole minute within [08:00, 21:00] (ParkingService.java:109-112);
  that failure is not part of its result.
- Registry.Charge: uses `BillableMinutes`, so it does not fail on the whole-minute times on which the source's call
  at ParkingService.java:100 throws.
- Registry.SessionRegistry.Deregister: uses `Charge`, so it does not fail on those whole-minute times. In the
  source, that exception comes after the session has been saved as DeRegistered (ParkingService.java:96-98), so the
  call fails and the session is still closed.
- Utilities.Clamp: the role is the two-valued status rather than an arbitrary string. Callers only ever pass the
  enum's two values.
- The HTTP layer, validation annotations, exception-to-status mapping, configuration and the integration tests
  are left out. Plate length 2–10 and a non-null street are checked before the core runs.
- Concurrency is left out: two concurrent registrations of one plate are serialized by the database.
- Calendar conversion is left out. Dates are epoch-day numbers, and the worked examples give their dates as
  day numbers.
- The billable minutes are not floored at zero, because the source does not floor them. No lemma claims they
  are non-negative.
