/** The exceptions the parking service raises towards its callers. */
module Errors {

  datatype ServiceError =
    | AlreadyRegistered      // AlreadyRegisteredException
    | RegistrationNotFound   // RegistrationNotFoundException
    | RateNotFound           // the street has no entry in the price table
}
