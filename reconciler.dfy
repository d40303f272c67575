/**
 * listUnregisteredVehicles over the day's sessions and the day's patrol
 * observations (the two repository queries that pick them by date are not
 * part of this model). Part one reports every observation whose plate has no
 * session at all; part two adds every observation for which some session on
 * the same plate and street was de-registered before it and registered after
 * it. Comparing against an active session, whose unregister time is null,
 * throws; that is the MissingUnregisterTime failure.
 */
module Reconciler {
  import opened Wrappers
  import opened Time
  import opened Entities

  datatype ReconcileError = MissingUnregisterTime   // NullPointerException in isAfter(null)

  /** The session plates contain this plate. */
  predicate HasSessionFor(sessions: seq<Session>, plate: string)
  {
    exists j :: 0 <= j < |sessions| && sessions[j].plate == plate
  }

  /** The anyMatch condition of part two, for one session. */
  predicate OutsideSession(o: Observation, p: Session)
  {
    o.plate == p.plate && o.street == p.street && p.unregisteredAt.Some?
    && IsAfter(o.observedAt, p.unregisteredAt.value) && IsBefore(o.observedAt, p.registeredAt)
  }

  /** A session on the observation's plate and street that is still open. */
  predicate OpenMatch(o: Observation, p: Session)
  {
    o.plate == p.plate && o.street == p.street && p.unregisteredAt.None?
  }

  /**
   * parkingDetails.stream().anyMatch(...) for one observation, evaluated left
   * to right with short-circuiting: None when it reaches an open session on the
   * same plate and street before finding a match, and throws there.
   */
  function AnyOutside(o: Observation, sessions: seq<Session>): (r: Option<bool>)
    ensures r == Some(true) ==> exists j :: 0 <= j < |sessions| && OutsideSession(o, sessions[j])
    ensures r == Some(false) ==> forall j :: 0 <= j < |sessions| ==> !OutsideSession(o, sessions[j])
    ensures r == Some(false) ==> forall j :: 0 <= j < |sessions| ==> !OpenMatch(o, sessions[j])
    ensures r.None? ==> exists j :: 0 <= j < |sessions| && OpenMatch(o, sessions[j])
    ensures (forall j :: 0 <= j < |sessions| ==> !OpenMatch(o, sessions[j])) ==> r.Some?
    // which of the two happens is decided by the first session that settles it
    ensures r.None? ==> exists j :: 0 <= j < |sessions| && OpenMatch(o, sessions[j])
                          && forall k :: 0 <= k < j ==> !OutsideSession(o, sessions[k])
    ensures r == Some(true) ==> exists j :: 0 <= j < |sessions| && OutsideSession(o, sessions[j])
                                  && forall k :: 0 <= k < j ==> !OpenMatch(o, sessions[k])
  {
    if sessions == [] then Some(false)
    else
      var p := sessions[0];
      var rest := AnyOutside(o, sessions[1..]);
      assert forall j :: 1 <= j < |sessions| ==> sessions[j] == sessions[1..][j - 1];
      if o.plate == p.plate && o.street == p.street then
        match p.unregisteredAt
        case None => None
        case Some(u) =>
          if IsAfter(o.observedAt, u) && IsBefore(o.observedAt, p.registeredAt) then Some(true)
          else rest
      else rest
  }

  /** Part one: the observations, in order, whose plate has no session. */
  function Unregistered(sessions: seq<Session>, observations: seq<Observation>): (r: seq<Observation>)
  {
    if observations == [] then []
    else
      var n := |observations| - 1;
      var prev := Unregistered(sessions, observations[..n]);
      if !HasSessionFor(sessions, observations[n].plate) then prev + [observations[n]] else prev
  }

  /** Part two: the observations, in order, that anyMatch accepts; it fails
      as soon as anyMatch throws for one of them. */
  function Outside(sessions: seq<Session>, observations: seq<Observation>): (r: Result<seq<Observation>, ReconcileError>)
  {
    if observations == [] then Success([])
    else
      var n := |observations| - 1;
      var o := observations[n];
      match Outside(sessions, observations[..n])
      case Failure(e) => Failure(e)
      case Success(prev) =>
        match AnyOutside(o, sessions)
        case None => Failure(MissingUnregisterTime)
        case Some(hit) => Success(if hit then prev + [o] else prev)
  }

  /** The projection onto report lines. */
  function ToReport(data: seq<Observation>): (r: seq<ReportEntry>)
    ensures |r| == |data|
    ensures forall i :: 0 <= i < |data| ==>
              r[i] == ReportEntry(data[i].plate, data[i].street, data[i].observedAt)
  {
    seq(|data|, i requires 0 <= i < |data| => ReportEntry(data[i].plate, data[i].street, data[i].observedAt))
  }

  /** The report: part one, then part two, projected. */
  function Report(sessions: seq<Session>, observations: seq<Observation>): Result<seq<ReportEntry>, ReconcileError>
  {
    match Outside(sessions, observations)
    case Failure(e) => Failure(e)
    case Success(outside) => Success(ToReport(Unregistered(sessions, observations) + outside))
  }

  /** Part one keeps exactly the observations whose plate has no session. */
  lemma {:induction false} UnregisteredExactly(sessions: seq<Session>, observations: seq<Observation>)
    ensures forall x :: x in Unregistered(sessions, observations) ==>
              x in observations && !HasSessionFor(sessions, x.plate)
    ensures forall i :: 0 <= i < |observations| && !HasSessionFor(sessions, observations[i].plate)
              ==> observations[i] in Unregistered(sessions, observations)
  {
    if observations != [] {
      var n := |observations| - 1;
      UnregisteredExactly(sessions, observations[..n]);
      assert observations == observations[..n] + [observations[n]];
    }
  }

  /** Part two fails exactly when anyMatch throws for some observation, and
      otherwise keeps only observations anyMatch accepts. */
  lemma {:induction false} OutsideExactly(sessions: seq<Session>, observations: seq<Observation>)
    ensures Outside(sessions, observations).Failure?
            <==> exists i :: 0 <= i < |observations| && AnyOutside(observations[i], sessions).None?
    ensures Outside(sessions, observations).Success? ==>
              forall x :: x in Outside(sessions, observations).value ==>
                x in observations && AnyOutside(x, sessions) == Some(true)
    ensures Outside(sessions, observations).Success? ==>
              forall i :: 0 <= i < |observations| && AnyOutside(observations[i], sessions) == Some(true)
                ==> observations[i] in Outside(sessions, observations).value
  {
    if observations != [] {
      var n := |observations| - 1;
      OutsideExactly(sessions, observations[..n]);
      assert observations == observations[..n] + [observations[n]];
      assert forall i :: 0 <= i < n ==> observations[i] == observations[..n][i];
    }
  }

  /** Against closed sessions that were closed no earlier than opened, anyMatch
      neither throws nor matches. */
  lemma NoneOutsideOrderedSessions(o: Observation, sessions: seq<Session>)
    requires forall j :: 0 <= j < |sessions| ==>
               sessions[j].unregisteredAt.Some?
               && Epoch(sessions[j].registeredAt) <= Epoch(sessions[j].unregisteredAt.value)
    ensures AnyOutside(o, sessions) == Some(false)
  {
    assert forall j :: 0 <= j < |sessions| ==> !OpenMatch(o, sessions[j]);
    assert forall j :: 0 <= j < |sessions| ==> !OutsideSession(o, sessions[j]);
  }

  /** Once part two has failed on a prefix it fails on the whole list. */
  lemma {:induction false} OutsideFailurePersists(sessions: seq<Session>, observations: seq<Observation>, i: nat)
    requires i <= |observations|
    requires Outside(sessions, observations[..i]).Failure?
    ensures Outside(sessions, observations).Failure?
    decreases |observations| - i
  {
    if i == |observations| {
      assert observations[..i] == observations;
    } else {
      assert observations[..i + 1][..i] == observations[..i];
      OutsideFailurePersists(sessions, observations, i + 1);
    }
  }

  /** listUnregisteredVehicles: builds the report list in place, part one by
      forEach/add, part two by a filtered addAll, then maps it to report lines. */
  method ListUnregisteredVehicles(sessions: seq<Session>, observations: seq<Observation>)
    returns (r: Result<seq<ReportEntry>, ReconcileError>)
    ensures r == Report(sessions, observations)
  {
    var reportData: seq<Observation> := [];
    var i := 0;
    while i < |observations|
      invariant 0 <= i <= |observations|
      invariant reportData == Unregistered(sessions, observations[..i])
    {
      var item := observations[i];
      assert observations[..i + 1][..i] == observations[..i];
      if !HasSessionFor(sessions, item.plate) {
        reportData := reportData + [item];
      }
      i := i + 1;
    }
    assert observations[..i] == observations;

    var outside: seq<Observation> := [];
    i := 0;
    while i < |observations|
      invariant 0 <= i <= |observations|
      invariant Outside(sessions, observations[..i]) == Success(outside)
    {
      var m := observations[i];
      assert observations[..i + 1][..i] == observations[..i];
      var hit := AnyOutside(m, sessions);
      if hit.None? {
        assert Outside(sessions, observations[..i + 1]).Failure?;
        OutsideFailurePersists(sessions, observations, i + 1);
        assert Outside(sessions, observations).error.MissingUnregisterTime?;
        return Failure(MissingUnregisterTime);
      }
      if hit.value {
        outside := outside + [m];
      }
      i := i + 1;
    }
    assert observations[..i] == observations;
    reportData := reportData + outside;
    r := Success(ToReport(reportData));
  }

  /**
   * No observation is in both parts, and each part keeps an observation at
   * most as often as it occurs: the report holds a sub-multiset of the
   * observations, so it is never longer than they are.
   */
  lemma {:induction false} ReportWithinObservations(sessions: seq<Session>, observations: seq<Observation>)
    requires Outside(sessions, observations).Success?
    ensures var both := Unregistered(sessions, observations) + Outside(sessions, observations).value;
            multiset(both) <= multiset(observations) && |both| <= |observations|
    ensures forall x :: x in Unregistered(sessions, observations) ==> x !in Outside(sessions, observations).value
  {
    UnregisteredExactly(sessions, observations);
    OutsideExactly(sessions, observations);
    if observations != [] {
      var n := |observations| - 1;
      var o := observations[n];
      var init := observations[..n];
      assert observations == init + [o];
      ReportWithinObservations(sessions, init);
      var a, b := Unregistered(sessions, init), Outside(sessions, init).value;
      if !HasSessionFor(sessions, o.plate) {
        // no session on the plate: anyMatch sees nothing to match
        assert AnyOutside(o, sessions) == Some(false);
      }
      assert multiset(Unregistered(sessions, observations) + Outside(sessions, observations).value)
          <= multiset(a + b) + multiset{o};
    }
  }

  /** Whenever every session is closed no earlier than it was opened, no
      observation lies after its close and before its opening: part two is
      empty and the report is exactly part one, in order. */
  lemma {:induction false} OrderedSessionsReportOnlyUnregistered(sessions: seq<Session>, observations: seq<Observation>)
    requires forall j :: 0 <= j < |sessions| ==>
               sessions[j].unregisteredAt.Some?
               && Epoch(sessions[j].registeredAt) <= Epoch(sessions[j].unregisteredAt.value)
    ensures Outside(sessions, observations) == Success([])
    ensures Report(sessions, observations) == Success(ToReport(Unregistered(sessions, observations)))
  {
    if observations != [] {
      var n := |observations| - 1;
      OrderedSessionsReportOnlyUnregistered(sessions, observations[..n]);
      NoneOutsideOrderedSessions(observations[n], sessions);
    }
    assert Unregistered(sessions, observations) + [] == Unregistered(sessions, observations);
  }

  /**
   * The report as evidently intended: an open session, whose unregister time
   * is null, simply does not match the interval test instead of aborting the
   * job. Part two keeps the observations some closed session on the same
   * plate and street places after its de-registration and before its
   * registration.
   */
  function OutsideTolerant(sessions: seq<Session>, observations: seq<Observation>): (r: seq<Observation>)
  {
    if observations == [] then []
    else
      var n := |observations| - 1;
      var prev := OutsideTolerant(sessions, observations[..n]);
      var o := observations[n];
      if exists j :: 0 <= j < |sessions| && OutsideSession(o, sessions[j]) then prev + [o] else prev
  }

  function ReportTolerant(sessions: seq<Session>, observations: seq<Observation>): seq<ReportEntry>
  {
    ToReport(Unregistered(sessions, observations) + OutsideTolerant(sessions, observations))
  }

  /** Part two of the intended report keeps exactly the observations some
      closed session on their plate and street places outside itself. */
  lemma {:induction false} OutsideTolerantExactly(sessions: seq<Session>, observations: seq<Observation>)
    ensures forall x :: x in OutsideTolerant(sessions, observations) ==>
              x in observations && exists j :: 0 <= j < |sessions| && OutsideSession(x, sessions[j])
    ensures forall i :: 0 <= i < |observations| && (exists j :: 0 <= j < |sessions| && OutsideSession(observations[i], sessions[j]))
              ==> observations[i] in OutsideTolerant(sessions, observations)
  {
    if observations != [] {
      var n := |observations| - 1;
      OutsideTolerantExactly(sessions, observations[..n]);
      assert observations == observations[..n] + [observations[n]];
      assert forall i :: 0 <= i < n ==> observations[i] == observations[..n][i];
    }
  }

  /** Wherever the report as written succeeds, it equals the intended report. */
  lemma {:induction false} TolerantAgreesWhenNoFailure(sessions: seq<Session>, observations: seq<Observation>)
    requires Outside(sessions, observations).Success?
    ensures Outside(sessions, observations).value == OutsideTolerant(sessions, observations)
    ensures Report(sessions, observations) == Success(ReportTolerant(sessions, observations))
  {
    if observations != [] {
      var n := |observations| - 1;
      TolerantAgreesWhenNoFailure(sessions, observations[..n]);
      var o := observations[n];
      var hit := AnyOutside(o, sessions);
      assert hit.Some?;
      assert hit.value <==> exists j :: 0 <= j < |sessions| && OutsideSession(o, sessions[j]);
    }
  }

  /** In the intended report, a sighting of a plate that has sessions, all of
      them still open, is never reported, whatever its time. */
  lemma SightingOfRegisteredCarNotReported(sessions: seq<Session>, observations: seq<Observation>, o: Observation)
    requires HasSessionFor(sessions, o.plate)
    requires forall j :: 0 <= j < |sessions| && sessions[j].plate == o.plate ==> sessions[j].unregisteredAt.None?
    ensures o !in Unregistered(sessions, observations) + OutsideTolerant(sessions, observations)
  {
    UnregisteredExactly(sessions, observations);
    OutsideTolerantExactly(sessions, observations);
  }
}
