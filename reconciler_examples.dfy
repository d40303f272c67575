/** The report for the situations of the service's unit test and a few the
    literal interval test makes interesting. */
module ReconcilerExamples {
  import opened Wrappers
  import opened Time
  import opened Status
  import opened Entities
  import opened Reconciler

  /** Three sightings at `now`, two sessions that both ended at `now`, one of
      them opened `earlier`: the two plates without a session are reported, in
      order. */
  lemma TwoOfThreeReported(earlier: DateTime, now: DateTime)
    requires Epoch(earlier) <= Epoch(now)
    ensures var sessions := [Session("PB12x1234", "Java", earlier, Some(now), Registered),
                             Session("PB13x1234", "Java", now, Some(now), Registered)];
            var observations := [Observation("PB12x1234", "Java", now),
                                 Observation("HP12x1234", "Jakarta", now),
                                 Observation("MH12x1234", "Azure", now)];
            Report(sessions, observations)
              == Success([ReportEntry("HP12x1234", "Jakarta", now), ReportEntry("MH12x1234", "Azure", now)])
  {
    var sessions := [Session("PB12x1234", "Java", earlier, Some(now), Registered),
                     Session("PB13x1234", "Java", now, Some(now), Registered)];
    var observations := [Observation("PB12x1234", "Java", now),
                         Observation("HP12x1234", "Jakarta", now),
                         Observation("MH12x1234", "Azure", now)];
    OrderedSessionsReportOnlyUnregistered(sessions, observations);
    assert HasSessionFor(sessions, "PB12x1234") by { assert sessions[0].plate == "PB12x1234"; }
    assert !HasSessionFor(sessions, "HP12x1234");
    assert !HasSessionFor(sessions, "MH12x1234");
    assert observations[..3] == observations;
    assert observations[..3][..2] == observations[..2];
    assert observations[..2][..1] == observations[..1];
    assert observations[..1][..0] == [];
    assert Unregistered(sessions, observations[..1]) == [];
    assert Unregistered(sessions, observations[..2]) == [observations[1]];
    assert Unregistered(sessions, observations) == [observations[1], observations[2]];
    assert ToReport([observations[1], observations[2]])
        == [ReportEntry("HP12x1234", "Jakarta", now), ReportEntry("MH12x1234", "Azure", now)];
  }

  /** A session open on the observed plate and street makes the report fail:
      its unregister time is still null when anyMatch compares against it.
      The intended report spares the car instead. */
  lemma ObservedWhileRegisteredFails(t: DateTime)
    ensures Report([Session("PB12x1234", "Java", t, None, Registered)],
                   [Observation("PB12x1234", "Java", t)])
            == Failure(MissingUnregisterTime)
    ensures ReportTolerant([Session("PB12x1234", "Java", t, None, Registered)],
                           [Observation("PB12x1234", "Java", t)]) == []
  {
    var sessions := [Session("PB12x1234", "Java", t, None, Registered)];
    var observations := [Observation("PB12x1234", "Java", t)];
    assert AnyOutside(observations[0], sessions).None?;
    assert observations[..0] == [];
    assert Outside(sessions, observations).Failure?;
    assert HasSessionFor(sessions, "PB12x1234") by { assert sessions[0].plate == "PB12x1234"; }
    SightingOfRegisteredCarNotReported(sessions, observations, observations[0]);
    OutsideTolerantExactly(sessions, observations);
    UnregisteredExactly(sessions, observations);
    var data := Unregistered(sessions, observations) + OutsideTolerant(sessions, observations);
    assert forall x :: x in data ==> x in observations;
    assert data == [];
  }

  /** The literal interval test only fires for a session closed before it was
      opened: a sighting between the two is reported, once. */
  lemma ReversedSessionReportsSightingBetween(d: int)
    ensures Report([Session("AB12", "Java", DateTime(d, 50000), Some(DateTime(d, 40000)), DeRegistered)],
                   [Observation("AB12", "Java", DateTime(d, 45000))])
            == Success([ReportEntry("AB12", "Java", DateTime(d, 45000))])
  {
    var sessions := [Session("AB12", "Java", DateTime(d, 50000), Some(DateTime(d, 40000)), DeRegistered)];
    var observations := [Observation("AB12", "Java", DateTime(d, 45000))];
    assert HasSessionFor(sessions, "AB12") by { assert sessions[0].plate == "AB12"; }
    assert sessions[1..] == [];
    assert AnyOutside(observations[0], sessions) == Some(true);
    assert observations[..0] == [];
    assert Outside(sessions, observations[..0]) == Success([]);
    assert Outside(sessions, observations) == Success([] + [observations[0]]);
    assert Unregistered(sessions, observations[..0]) == [];
    assert Unregistered(sessions, observations) == [];
    assert Unregistered(sessions, observations) + Outside(sessions, observations).value == [observations[0]];
    assert ToReport([observations[0]]) == [ReportEntry("AB12", "Java", DateTime(d, 45000))];
  }
}
