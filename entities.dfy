/** The records the service works on: a parking session (ParkingDetail),
    a patrol sighting (ParkingMonitoringDetail) and a report line (ReportDetails). */
module Entities {
  import opened Wrappers
  import opened Time
  import opened Status

  /** One register/de-register lifecycle; unregisteredAt stays absent (null) until de-registration. */
  datatype Session = Session(
    plate: string,
    street: string,
    registeredAt: DateTime,
    unregisteredAt: Option<DateTime>,
    status: ParkingStatus)

  datatype Observation = Observation(plate: string, street: string, observedAt: DateTime)

  datatype ReportEntry = ReportEntry(plate: string, street: string, observedAt: DateTime)
}
