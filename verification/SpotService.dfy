/** services/SpotService.js: binding a vehicle to a spot, and the vehicle-type / spot-size compatibility rule. */
module SpotServices {
  import opened Wrappers
  import opened Errors
  import opened VehicleEntity
  import opened SpotEntity
  import opened SpotRepo

  /** The compatibility matrix, written as the source's two exclusions: a car does not fit a
      motorcycle spot, and a bus fits neither a compact nor a motorcycle spot. */
  predicate Fits(vehicleType: VehicleType, size: SpotSize)
  {
    && !(vehicleType == Car && size == SpotSize.Motorcycle)
    && !(vehicleType == Bus && (size == Compact || size == SpotSize.Motorcycle))
  }

  /** The same matrix read positively: a motorcycle fits every size, a car fits compact and large
      spots, and a bus fits only a large spot. */
  lemma FitsMatrix(vehicleType: VehicleType, size: SpotSize)
    ensures Fits(vehicleType, size) <==>
      || vehicleType == VehicleType.Motorcycle
      || (vehicleType == Car && (size == Compact || size == Large))
      || (vehicleType == Bus && size == Large)
  {
  }

  /** `canVehicleFit`: an occupied spot is an error; otherwise whether the vehicle's type fits the size. */
  function CanVehicleFit(vehicle: Vehicle, spot: Spot): (r: Result<bool, Error>)
    reads spot
    ensures r.Failure? <==> spot.vehicle != null
    ensures r.Failure? ==> r.error == SpotOccupied
    ensures r.Success? ==> (r.value <==> Fits(vehicle.vehicleType, spot.size))
    ensures r == Success(true) <==>
      (spot.vehicle == null &&
       (vehicle.vehicleType == VehicleType.Motorcycle || spot.size == Large ||
        (vehicle.vehicleType == Car && spot.size == Compact)))
  {
    if spot.vehicle != null then Failure(SpotOccupied)
    else Success(Fits(vehicle.GetType(), spot.size))
  }

  /** `canVehicleFit` as written: `get_type` yields `undefined`, so neither exclusion ever applies. */
  function CanVehicleFitAsWritten(vehicle: Vehicle, spot: Spot): Result<bool, Error>
    reads spot
  {
    if spot.vehicle != null then Failure(SpotOccupied)
    else
      match vehicle.GetTypeAsWritten()
      case None => Success(true)
      case Some(t) => Success(Fits(t, spot.size))
  }

  /** As written, every vacant spot accepts every vehicle: a bus is let into a motorcycle spot,
      which the intended rule refuses. */
  lemma AsWrittenAcceptsBusInMotorcycleSpot(vehicle: Vehicle, spot: Spot)
    requires vehicle.vehicleType == Bus && spot.size == SpotSize.Motorcycle && spot.vehicle == null
    ensures CanVehicleFitAsWritten(vehicle, spot) == Success(true)
    ensures CanVehicleFit(vehicle, spot) == Success(false)
  {
  }

  /** The spot service. It keeps the spot store that the level store of the facility shares. */
  class SpotService {
    const spotRepository: SpotRepository

    constructor (spotRepository: SpotRepository)
      ensures this.spotRepository == spotRepository
    {
      this.spotRepository := spotRepository;
    }

    /** `park`: binds the vehicle and marks the spot unavailable when `CanVehicleFit` holds; an occupied
        spot or an incompatible size fails and leaves the spot unchanged. The availability flag itself
        is not consulted. */
    method Park(spot: Spot, vehicle: Vehicle) returns (r: Outcome<Error>)
      modifies spot
      ensures r.Pass? <==> old(spot.vehicle) == null && Fits(vehicle.vehicleType, spot.size)
      ensures old(spot.vehicle) != null ==> r == Fail(SpotOccupied)
      ensures old(spot.vehicle) == null && !Fits(vehicle.vehicleType, spot.size) ==> r == Fail(SpotNotAvailable)
      ensures r.Pass? ==> spot.vehicle == vehicle && !spot.available
      ensures r.Fail? ==> spot.vehicle == old(spot.vehicle) && spot.available == old(spot.available)
    {
      var fit := CanVehicleFit(vehicle, spot);
      if fit.Failure? {
        return Fail(fit.error);
      }
      if !fit.value {
        return Fail(SpotNotAvailable);
      }
      spot.SetVehicle(vehicle);
      spot.SetAvailable(false);
      return Pass;
    }

    /** `unpark`: a vacant spot fails and is left unchanged; otherwise the vehicle is cleared and the
        spot is available again. After `Park` and then `Unpark` the spot is available and empty. */
    method Unpark(spot: Spot) returns (r: Outcome<Error>)
      modifies spot
      ensures r.Fail? <==> old(spot.vehicle) == null
      ensures r.Fail? ==> r.error == SpotAlreadyVacant && spot.vehicle == old(spot.vehicle) && spot.available == old(spot.available)
      ensures r.Pass? ==> spot.vehicle == null && spot.available
    {
      if spot.vehicle == null {
        return Fail(SpotAlreadyVacant);
      }
      spot.SetVehicle(null);
      spot.SetAvailable(true);
      return Pass;
    }
  }
}
