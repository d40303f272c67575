/**
 * registerParkingDetails and deRegisterParkingDetails (with the state change
 * of calculateParkingCost) over the store of sessions, which is a sequence
 * here. The clock is a parameter: `now` is the caller's LocalDateTime.now().
 */
module Registry {
  import opened Wrappers
  import opened Time
  import opened Status
  import opened Errors
  import opened Entities
  import opened Billing

  /** What de-registration hands back: the billable minutes and the fee in hundredths. */
  datatype Receipt = Receipt(minutes: int, amount: int)

  predicate IsActive(s: Session, plate: string)
  {
    s.plate == plate && s.status == Registered
  }

  predicate HasActive(sessions: seq<Session>, plate: string)
  {
    exists i :: 0 <= i < |sessions| && IsActive(sessions[i], plate)
  }

  /** At most one Registered session per plate, and a session carries an
      unregister time exactly when it is DeRegistered. */
  ghost predicate WellFormed(sessions: seq<Session>)
  {
    (forall i, j :: 0 <= i < j < |sessions| && sessions[i].status == Registered && sessions[j].status == Registered
       ==> sessions[i].plate != sessions[j].plate)
    && (forall i :: 0 <= i < |sessions| ==> (sessions[i].status == DeRegistered <==> sessions[i].unregisteredAt.Some?))
  }

  /** findByLicenceNumberAndParkingStatus(plate, Registered): where the plate's active session is, if any. */
  function FindActive(sessions: seq<Session>, plate: string): (r: Option<nat>)
    ensures r.None? <==> !HasActive(sessions, plate)
    ensures r.Some? ==> r.value < |sessions| && IsActive(sessions[r.value], plate)
    ensures r.Some? ==> forall k :: 0 <= k < r.value ==> !IsActive(sessions[k], plate)
  {
    if |sessions| == 0 then None
    else if IsActive(sessions[0], plate) then Some(0)
    else match FindActive(sessions[1..], plate)
      case None =>
        assert forall i :: 1 <= i < |sessions| ==> sessions[i] == sessions[1..][i - 1];
        None
      case Some(i) =>
        assert forall k :: 1 <= k < i + 1 ==> sessions[k] == sessions[1..][k - 1];
        Some(i + 1)
  }

  /** ParkingDetailDto.toParkingDetails: a new session starts Registered, without an unregister time. */
  function NewSession(plate: string, street: string, now: DateTime): (s: Session)
    ensures IsActive(s, plate) && s.unregisteredAt.None?
    ensures s.street == street && s.registeredAt == now
  {
    Session(plate, street, now, None, Registered)
  }

  /** The setters of calculateParkingCost: DeRegistered, unregistered at `now`. */
  function Close(s: Session, now: DateTime): (c: Session)
    ensures !IsActive(c, s.plate) && c.unregisteredAt == Some(now)
    ensures c.plate == s.plate && c.street == s.street && c.registeredAt == s.registeredAt
  {
    s.(status := DeRegistered, unregisteredAt := Some(now))
  }

  /** The charge for a closed session: billable minutes and the street's fee. */
  function Charge(closed: Session, now: DateTime, rates: map<string, int>): (r: Result<Receipt, ServiceError>)
    ensures r.Failure? <==> closed.street !in rates
    ensures r.Failure? ==> r.error == RateNotFound
    ensures r.Success? ==> r.value.minutes == BillableMinutes(closed.registeredAt, now)
                           && r.value.amount == rates[closed.street] * r.value.minutes
  {
    var minutes := BillableMinutes(closed.registeredAt, now);
    match Fee(rates, closed.street, minutes)
    case Failure(e) => Failure(e)
    case Success(amount) => Success(Receipt(minutes, amount))
  }

  class SessionRegistry {
    var sessions: seq<Session>

    ghost predicate Valid()
      reads this
    {
      WellFormed(sessions)
    }

    constructor ()
      ensures Valid() && sessions == []
    {
      sessions := [];
    }

    /** registerParkingDetails: refused while the plate has a Registered
        session on any street; otherwise the new session is stored. */
    method Register(plate: string, street: string, now: DateTime) returns (r: Result<Session, ServiceError>)
      requires Valid()
      modifies this
      ensures Valid()
      ensures r.Failure? <==> HasActive(old(sessions), plate)
      ensures r.Failure? ==> r.error == AlreadyRegistered && sessions == old(sessions)
      ensures r.Success? ==> r.value == NewSession(plate, street, now) && sessions == old(sessions) + [r.value]
      ensures HasActive(sessions, plate)
    {
      var alreadyRegistered := FindActive(sessions, plate);
      if alreadyRegistered.Some? {
        return Failure(AlreadyRegistered);
      }
      var detail := NewSession(plate, street, now);
      sessions := sessions + [detail];
      assert IsActive(sessions[|sessions| - 1], plate);
      r := Success(detail);
    }

    /**
     * deRegisterParkingDetails: refused when the plate has no Registered
     * session. Otherwise that session is closed at `now` and saved, and only
     * then is the fee computed, so a street missing from the price table
     * fails the call with the session already closed.
     */
    method Deregister(plate: string, now: DateTime, rates: map<string, int>) returns (r: Result<Receipt, ServiceError>)
      requires Valid()
      modifies this
      ensures Valid()
      ensures !HasActive(sessions, plate)
      ensures r == Failure(RegistrationNotFound) <==> !HasActive(old(sessions), plate)
      ensures !HasActive(old(sessions), plate) ==> sessions == old(sessions)
      ensures HasActive(old(sessions), plate) ==>
                var i := FindActive(old(sessions), plate).value;
                var closed := Close(old(sessions)[i], now);
                sessions == old(sessions)[i := closed] && r == Charge(closed, now, rates)
    {
      var detail := FindActive(sessions, plate);
      if detail.None? {
        return Failure(RegistrationNotFound);
      }
      var i := detail.value;
      var closed := Close(sessions[i], now);
      ghost var before := sessions;
      sessions := sessions[i := closed];
      forall k | 0 <= k < |sessions| && k != i
        ensures !IsActive(sessions[k], plate)
      {
        assert IsActive(before[i], plate);
        assert sessions[k] == before[k];
        if k < i {
          assert !(before[k].status == Registered && before[i].status == Registered && before[k].plate == before[i].plate);
        } else {
          assert !(before[i].status == Registered && before[k].status == Registered && before[i].plate == before[k].plate);
        }
      }
      r := Charge(closed, now, rates);
    }
  }

  /** Registering a plate twice fails the second time, and de-registering it
      twice fails the second time, whatever the streets and clocks. */
  method RegisterAndDeregisterTwice(plate: string, street: string, t0: DateTime, t1: DateTime, t2: DateTime,
                                    rates: map<string, int>)
    returns (first: Result<Session, ServiceError>, second: Result<Session, ServiceError>,
             out: Result<Receipt, ServiceError>, again: Result<Receipt, ServiceError>)
    ensures first == Success(NewSession(plate, street, t0))
    ensures second == Failure(AlreadyRegistered)
    ensures out == Charge(Close(NewSession(plate, street, t0), t2), t2, rates)
    ensures again == Failure(RegistrationNotFound)
  {
    var registry := new SessionRegistry();
    first := registry.Register(plate, street, t0);
    second := registry.Register(plate, "elsewhere", t1);
    out := registry.Deregister(plate, t2, rates);
    again := registry.Deregister(plate, t2, rates);
  }
}
