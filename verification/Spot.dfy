/** entities/Spot.js: the spot sizes and the spot record. */
module SpotEntity {
  import opened Wrappers
  import opened VehicleEntity

  /** The three spot sizes, after the frozen object `SpotSize`. As with the vehicle types, its shorthand
      properties name undeclared identifiers; the strings returned by `Name` are its evident intent. */
  datatype SpotSize = Compact | Motorcycle | Large {
    function Name(): string {
      match this
      case Compact => "COMPACT"
      case Motorcycle => "MOTORCYCLE"
      case Large => "LARGE"
    }
  }

  /** `Object.values(SpotSize).includes(name)`: the size carrying that string value, if any. */
  function SpotSizeNamed(name: string): (r: Option<SpotSize>)
    ensures r.Some? ==> r.value.Name() == name
    ensures r.None? <==> name != "COMPACT" && name != "MOTORCYCLE" && name != "LARGE"
  {
    if name == "COMPACT" then Some(Compact)
    else if name == "MOTORCYCLE" then Some(SpotSize.Motorcycle)
    else if name == "LARGE" then Some(Large)
    else None
  }

  /** A parking spot. Size, level and row are fixed at construction (the source keeps the
      owning `ParkingLevel` and a `ParkingRow`; here their numbers). Only the availability
      flag and the occupying vehicle have setters, and the two setters are independent:
      the entity itself does not keep `available == (vehicle == null)`. */
  class Spot {
    const size: SpotSize
    const level: nat
    const row: nat
    var available: bool
    var vehicle: Vehicle?

    constructor (size: SpotSize, level: nat, row: nat)
      ensures this.size == size && this.level == level && this.row == row
      ensures available && vehicle == null
    {
      this.size := size;
      this.level := level;
      this.row := row;
      available := true;
      vehicle := null;
    }

    /** `set_available`: changes the flag and nothing else. */
    method SetAvailable(available: bool)
      modifies this
      ensures this.available == available && vehicle == old(vehicle)
    {
      this.available := available;
    }

    /** `set_vehicle`: changes the occupant and nothing else. */
    method SetVehicle(vehicle: Vehicle?)
      modifies this
      ensures this.vehicle == vehicle && available == old(available)
    {
      this.vehicle := vehicle;
    }
  }
}
