/** Failure-compatible wrappers used for the source's `undefined` results and thrown errors. */
module Wrappers {

  /** A value that may be absent (JavaScript `undefined` from `find` or a missing key). */
  datatype Option<+T> = None | Some(value: T)

  /** A value, or the error the source would have thrown. */
  datatype Result<+T, +E> = Success(value: T) | Failure(error: E)

  /** An operation that returns nothing, or the error it would have thrown. */
  datatype Outcome<+E> = Pass | Fail(error: E)
}

/** The errors the source throws, one constructor per distinct message. */
module Errors {

  datatype Error =
    | LicensePlateRequired    // "license_plate is required" / "license_plate is invalid"
    | VehicleTypeRequired     // "vehicle_type is required" (an empty type)
    | TimestampRequired       // "entryTimestamp is required" / "exitTimestamp is required" (time 0)
    | VehicleTypeInvalid      // "vehicle_type is invalid"
    | SpotSizeRequired        // "spot_size is required" (an empty size or type name)
    | SpotSizeInvalid         // "Invalid spot size"
    | LevelNumberRequired     // "levelNumber is required"
    | NoOfSpotsRequired       // "noOfSpots is required" (a count of 0)
    | NoOfSpotsNotPositive    // "noOfSpots should be greater than 0"
    | LevelNotFound           // "level not found" / "level is not found"
    | IdRequired              // "id is required"
    | VehicleNotFound         // "vehicle not found" / "vehicle is not found"
    | AlreadyParked           // "Vehical is already parked"
    | NoSpotAvailable         // "No spot is available"
    | TicketNotFound          // "ticket is not found"
    | NotParked               // "vehicle is not parked"
    | TicketAlreadyExited     // "Ticket already exited"
    | InvalidExitTime         // "Invalid exit time"
    | PricingNotFound         // "pricing not found for <type>"
    | PriceRequired           // "price is required" / "newPrice is required" (a price of 0)
    | PriceNotPositive        // "price must be greater than 0" / "newPrice should be greater than 0"
    | SpotOccupied            // "spot is already occupied"
    | SpotNotAvailable        // "spot is not available"
    | SpotAlreadyVacant       // "spot is already vacant"
    | SpotNotAssociated       // "spot is not associated with any ticket"
}
