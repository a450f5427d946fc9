/** repositories/VehicleRepository.js: the registry of vehicles under auto-incrementing ids. */
module VehicleRepo {
  import opened Wrappers
  import opened Errors
  import opened VehicleEntity
  import opened KeyOrder

  /** Index of the first vehicle of `list` with that plate. */
  function FirstWithPlate(list: seq<Vehicle>, plate: string): (r: Option<nat>)
    ensures r.Some? ==> r.value < |list| && list[r.value].licensePlate == plate
    ensures r.Some? ==> forall k :: 0 <= k < r.value ==> list[k].licensePlate != plate
    ensures r.None? ==> forall k :: 0 <= k < |list| ==> list[k].licensePlate != plate
  {
    if list == [] then None
    else if list[0].licensePlate == plate then Some(0)
    else match FirstWithPlate(list[1..], plate)
      case None => None
      case Some(k) => Some(k + 1)
  }

  /** The vehicles of `list`, in order, of type `vehicleType`. */
  function OfType(list: seq<Vehicle>, vehicleType: VehicleType): (r: seq<Vehicle>)
    ensures |r| <= |list|
    ensures forall v :: v in r ==> v in list && v.vehicleType == vehicleType
    ensures forall v :: v in list && v.vehicleType == vehicleType ==> v in r
  {
    if list == [] then []
    else
      var rest := OfType(list[1..], vehicleType);
      if list[0].vehicleType == vehicleType then [list[0]] + rest else rest
  }

  /** `OfType` keeps list order: filtering a concatenation concatenates the filtered parts. */
  lemma {:induction false} OfTypeAppend(a: seq<Vehicle>, b: seq<Vehicle>, vehicleType: VehicleType)
    ensures OfType(a + b, vehicleType) == OfType(a, vehicleType) + OfType(b, vehicleType)
    decreases |a|
  {
    if a == [] {
      assert a + b == b;
    } else {
      assert (a + b)[0] == a[0];
      assert (a + b)[1..] == a[1..] + b;
      OfTypeAppend(a[1..], b, vehicleType);
    }
  }

  /** The keys of `m` in [lo, hi) whose vehicle has type `vehicleType`. */
  ghost function KeysOfTypeBetween(m: map<nat, Vehicle>, vehicleType: VehicleType, lo: nat, hi: nat): set<nat>
  {
    set k | k in m && lo <= k < hi && m[k].vehicleType == vehicleType
  }

  /** Peeling the lowest key off the range [lo, hi). */
  lemma KeysOfTypeStep(m: map<nat, Vehicle>, vehicleType: VehicleType, lo: nat, hi: nat)
    requires lo < hi
    ensures KeysOfTypeBetween(m, vehicleType, lo, hi) ==
              (if lo in m && m[lo].vehicleType == vehicleType then {lo} else {}) + KeysOfTypeBetween(m, vehicleType, lo + 1, hi)
  {
    var below := KeysOfTypeBetween(m, vehicleType, lo + 1, hi);
    forall k | k in KeysOfTypeBetween(m, vehicleType, lo, hi) && k != lo
      ensures k in below
    {
    }
  }

  /** Filtering the key-ordered listing by type leaves one vehicle per key of that type. */
  lemma {:induction false} OfTypeCountsKeys(m: map<nat, Vehicle>, vehicleType: VehicleType, lo: nat, hi: nat)
    ensures |OfType(ValuesInKeyOrder(m, lo, hi), vehicleType)| == |KeysOfTypeBetween(m, vehicleType, lo, hi)|
    decreases hi - lo
  {
    if lo >= hi {
      assert KeysOfTypeBetween(m, vehicleType, lo, hi) == {};
    } else {
      OfTypeCountsKeys(m, vehicleType, lo + 1, hi);
      KeysOfTypeStep(m, vehicleType, lo, hi);
      var head := if lo in m then [m[lo]] else [];
      OfTypeAppend(head, ValuesInKeyOrder(m, lo + 1, hi), vehicleType);
      assert |OfType(head, vehicleType)| == if lo in m && m[lo].vehicleType == vehicleType then 1 else 0;
    }
  }

  /** The registry. Ids are handed out from 1 upwards and never reused; removal deletes a key. */
  class VehicleRepository {
    var vehicles: map<nat, Vehicle>
    var autoIncrement: nat

    /** Every stored id was handed out before the counter's current value. */
    ghost predicate Valid()
      reads this
    {
      && autoIncrement >= 1
      && forall k :: k in vehicles ==> 1 <= k < autoIncrement
    }

    constructor ()
      ensures Valid() && vehicles == map[] && autoIncrement == 1
    {
      vehicles := map[];
      autoIncrement := 1;
    }

    /** `findAllVehicles`: every stored vehicle, in id order, one entry per id. */
    function FindAllVehicles(): (r: seq<Vehicle>)
      reads this
      ensures forall v :: v in r ==> v in vehicles.Values
      ensures Valid() ==> forall v :: v in vehicles.Values ==> v in r
      ensures Valid() ==> |r| == |vehicles|
    {
      var r := ValuesInKeyOrder(vehicles, 1, autoIncrement);
      assert Valid() ==> (forall v :: v in vehicles.Values ==> v in r) && |r| == |vehicles| by {
        if Valid() {
          forall v | v in vehicles.Values ensures v in r {
            var k :| k in vehicles && vehicles[k] == v;
          }
          ValuesInKeyOrderLength(vehicles, 1, autoIncrement);
          assert KeysBetween(vehicles, 1, autoIncrement) == vehicles.Keys;
        }
      }
      r
    }

    /** `addVehicle`: stores a copy of the vehicle (same plate and type, no entry time) under the next
        id. Plates are not checked for duplicates, so the count always grows by exactly one. */
    method AddVehicle(vehicle: Vehicle) returns (v: Vehicle)
      requires Valid()
      modifies this
      ensures Valid() && fresh(v)
      ensures v.licensePlate == vehicle.licensePlate && v.vehicleType == vehicle.GetType()
      ensures v.entryTime == None && v.exitTime == None
      ensures vehicles == old(vehicles)[old(autoIncrement) := v] && autoIncrement == old(autoIncrement) + 1
      ensures FindVehicleById(old(autoIncrement)) == Some(v)
      ensures |vehicles| == |old(vehicles)| + 1
    {
      v := new Vehicle(vehicle.licensePlate, vehicle.GetType(), None);
      vehicles := vehicles[autoIncrement := v];
      autoIncrement := autoIncrement + 1;
    }

    /** `findVehicleById`: the vehicle stored under that id, if any; ids never handed out find nothing. */
    function FindVehicleById(id: int): (r: Option<Vehicle>)
      reads this
      ensures r.Some? ==> r.value in vehicles.Values
      ensures r.None? <==> id < 0 || id !in vehicles
      ensures Valid() && !(1 <= id < autoIncrement) ==> r.None?
    {
      if id >= 0 && id in vehicles then Some(vehicles[id]) else None
    }

    /** `findVehicleByLicensePlate`: an empty plate is rejected; otherwise a stored vehicle with that
        plate (the one with the smallest id), or nothing when no stored vehicle has it. */
    function FindVehicleByLicensePlate(plate: string): (r: Result<Option<Vehicle>, Error>)
      reads this
      ensures r.Failure? <==> plate == ""
      ensures r.Failure? ==> r.error == LicensePlateRequired
      ensures r.Success? && r.value.Some? ==> r.value.value in vehicles.Values && r.value.value.licensePlate == plate
      ensures Valid() && r.Success? ==>
                (r.value.None? <==> forall v :: v in vehicles.Values ==> v.licensePlate != plate)
    {
      if plate == "" then Failure(LicensePlateRequired)
      else
        var all := FindAllVehicles();
        match FirstWithPlate(all, plate)
        case Some(i) => Success(Some(all[i]))
        case None => Success(None)
    }

    /** `findVehicleByVehicleType`: rejects an empty or unknown type name; otherwise exactly the stored
        vehicles of that type. */
    function FindVehicleByVehicleType(vehicleType: string): (r: Result<seq<Vehicle>, Error>)
      reads this
      ensures vehicleType == "" ==> r == Failure(VehicleTypeRequired)
      ensures vehicleType != "" && VehicleTypeNamed(vehicleType).None? ==> r == Failure(VehicleTypeInvalid)
      ensures r.Success? <==> VehicleTypeNamed(vehicleType).Some?
      ensures r.Success? ==> forall v :: v in r.value ==> v in vehicles.Values && v.vehicleType.Name() == vehicleType
      ensures Valid() && r.Success? ==>
                forall v :: v in vehicles.Values && v.vehicleType.Name() == vehicleType ==> v in r.value
    {
      if vehicleType == "" then Failure(VehicleTypeRequired)
      else match VehicleTypeNamed(vehicleType)
        case None => Failure(VehicleTypeInvalid)
        case Some(t) => Success(OfType(FindAllVehicles(), t))
    }

    /** `removeVehicle`: rejects a zero id and an id with no vehicle; otherwise deletes exactly that entry. */
    method RemoveVehicle(id: int) returns (r: Outcome<Error>)
      requires Valid()
      modifies this
      ensures Valid() && autoIncrement == old(autoIncrement)
      ensures id == 0 ==> r == Fail(IdRequired)
      ensures id != 0 && old(FindVehicleById(id)).None? ==> r == Fail(VehicleNotFound)
      ensures r.Fail? ==> vehicles == old(vehicles)
      ensures r.Pass? <==> id > 0 && id in old(vehicles)
      ensures r.Pass? ==> vehicles == old(vehicles) - {id}
      ensures r.Pass? ==> CountVehicles() == old(CountVehicles()) - 1
    {
      if id == 0 {
        return Fail(IdRequired);
      }
      if id < 0 || id !in vehicles {
        return Fail(VehicleNotFound);
      }
      vehicles := vehicles - {id};
      return Pass;
    }

    /** `countVehicles`: the number of stored vehicles. */
    function CountVehicles(): (r: nat)
      reads this
      ensures Valid() ==> r == |vehicles|
    {
      |FindAllVehicles()|
    }

    /** `countVehiculesByType`: the number of stored vehicles of that type (one per id holding one),
        never more than the total;
        an empty or unknown type name is rejected as by `FindVehicleByVehicleType`. */
    function CountVehiculesByType(vehicleType: string): (r: Result<nat, Error>)
      reads this
      ensures r.Success? <==> VehicleTypeNamed(vehicleType).Some?
      ensures r.Failure? ==> FindVehicleByVehicleType(vehicleType) == Failure(r.error)
      ensures r.Success? ==> r.value <= CountVehicles()
      ensures Valid() && r.Success? ==>
                r.value == |set k | k in vehicles && vehicles[k].vehicleType == VehicleTypeNamed(vehicleType).value|
    {
      match FindVehicleByVehicleType(vehicleType)
      case Failure(e) => Failure(e)
      case Success(list) =>
        var t := VehicleTypeNamed(vehicleType).value;
        OfTypeCountsKeys(vehicles, t, 1, autoIncrement);
        assert Valid() ==> KeysOfTypeBetween(vehicles, t, 1, autoIncrement) == set k | k in vehicles && vehicles[k].vehicleType == t;
        Success(|list|)
    }
  }
}
