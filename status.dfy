/** The two states a parking session can be in (ParkingStatusEnum). */
module Status {

  datatype ParkingStatus = Registered | DeRegistered
}
