/** services/VehicleService.js: validated registration and lookup of vehicles. */
module VehicleServices {
  import opened Wrappers
  import opened Errors
  import opened VehicleEntity
  import opened VehicleRepo

  /** The vehicle service over its registry. */
  class VehicleService {
    const vehicleRepository: VehicleRepository

    constructor (vehicleRepository: VehicleRepository)
      ensures this.vehicleRepository == vehicleRepository
    {
      this.vehicleRepository := vehicleRepository;
    }

    /** `addVehicle`: rejects an empty plate, then a type name that is not a vehicle type, before
        storing anything; otherwise registers a new vehicle of that plate and type. */
    method AddVehicle(licensePlate: string, vehicleType: string) returns (r: Result<Vehicle, Error>)
      requires vehicleRepository.Valid()
      modifies vehicleRepository
      ensures vehicleRepository.Valid()
      ensures licensePlate == "" ==> r == Failure(LicensePlateRequired)
      ensures licensePlate != "" && VehicleTypeNamed(vehicleType).None? ==> r == Failure(VehicleTypeInvalid)
      ensures r.Success? <==> licensePlate != "" && VehicleTypeNamed(vehicleType).Some?
      ensures r.Failure? ==> vehicleRepository.vehicles == old(vehicleRepository.vehicles)
      ensures r.Failure? ==> vehicleRepository.autoIncrement == old(vehicleRepository.autoIncrement)
      ensures r.Success? ==>
        && fresh(r.value) && r.value.licensePlate == licensePlate
        && VehicleTypeNamed(vehicleType) == Some(r.value.vehicleType)
        && r.value.entryTime == None && r.value.exitTime == None
      ensures r.Success? ==>
        && vehicleRepository.vehicles == old(vehicleRepository.vehicles)[old(vehicleRepository.autoIncrement) := r.value]
        && vehicleRepository.autoIncrement == old(vehicleRepository.autoIncrement) + 1
    {
      if licensePlate == "" {
        return Failure(LicensePlateRequired);
      }
      var named := VehicleTypeNamed(vehicleType);
      if named.None? {
        return Failure(VehicleTypeInvalid);
      }
      var v := new Vehicle(licensePlate, named.value, None);
      var stored := vehicleRepository.AddVehicle(v);
      return Success(stored);
    }

    /** `getVehicleById`: the vehicle stored under that id, or "vehicle not found". */
    function GetVehicleById(id: int): (r: Result<Vehicle, Error>)
      reads vehicleRepository
      ensures r.Failure? <==> id < 0 || id !in vehicleRepository.vehicles
      ensures r.Failure? ==> r.error == VehicleNotFound
      ensures r.Success? ==> r.value in vehicleRepository.vehicles.Values
      ensures vehicleRepository.Valid() && id == 0 ==> r.Failure?
    {
      match vehicleRepository.FindVehicleById(id)
      case None => Failure(VehicleNotFound)
      case Some(v) => Success(v)
    }

    /** `getVehicleByLicensePlate`: rejects an empty plate; otherwise the registry's lookup. */
    function GetVehicleByLicensePlate(licensePlate: string): (r: Result<Option<Vehicle>, Error>)
      reads vehicleRepository
      ensures r.Failure? <==> licensePlate == ""
      ensures r.Failure? ==> r.error == LicensePlateRequired
      ensures r.Success? && r.value.Some? ==>
                r.value.value in vehicleRepository.vehicles.Values && r.value.value.licensePlate == licensePlate
      ensures vehicleRepository.Valid() && r.Success? ==>
                (r.value.None? <==> forall v :: v in vehicleRepository.vehicles.Values ==> v.licensePlate != licensePlate)
    {
      if licensePlate == "" then Failure(LicensePlateRequired)
      else vehicleRepository.FindVehicleByLicensePlate(licensePlate)
    }

    /** `getAllVehicles`: every registered vehicle, one entry per id. */
    function GetAllVehicles(): (r: seq<Vehicle>)
      reads vehicleRepository
      ensures forall v :: v in r ==> v in vehicleRepository.vehicles.Values
      ensures vehicleRepository.Valid() ==> forall v :: v in vehicleRepository.vehicles.Values ==> v in r
      ensures vehicleRepository.Valid() ==> |r| == |vehicleRepository.vehicles|
    {
      vehicleRepository.FindAllVehicles()
    }

    /** `getVehicleTypes`: the three vehicle types, each once. */
    function GetVehicleTypes(): (r: seq<VehicleType>)
      ensures |r| == 3
      ensures forall t: VehicleType :: t in r
      ensures forall i, j :: 0 <= i < j < |r| ==> r[i] != r[j]
      ensures forall i :: 0 <= i < |r| ==> VehicleTypeNamed(r[i].Name()) == Some(r[i])
    {
      var r := [Car, VehicleType.Motorcycle, Bus];
      assert forall t: VehicleType :: t in r by {
        forall t: VehicleType ensures t in r {
          if t == Car {
            assert r[0] == t;
          } else if t == VehicleType.Motorcycle {
            assert r[1] == t;
          } else {
            assert r[2] == t;
          }
        }
      }
      r
    }
  }
}
