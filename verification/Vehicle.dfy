/** entities/Vehicle.js: the vehicle types and the vehicle record. */
module VehicleEntity {
  import opened Wrappers

  /** The three vehicle types, after the frozen object `VehicleType`. Its properties are written in
      shorthand naming identifiers that are declared nowhere, so as written the object never holds
      strings; the strings returned by `Name` are its evident intent. */
  datatype VehicleType = Car | Motorcycle | Bus {
    function Name(): string {
      match this
      case Car => "CAR"
      case Motorcycle => "MOTORCYCLE"
      case Bus => "BUS"
    }
  }

  /** `Object.values(VehicleType).includes(name)`: the type carrying that string value, if any. */
  function VehicleTypeNamed(name: string): (r: Option<VehicleType>)
    ensures r.Some? ==> r.value.Name() == name
    ensures r.None? <==> name != "CAR" && name != "MOTORCYCLE" && name != "BUS"
  {
    if name == "CAR" then Some(Car)
    else if name == "MOTORCYCLE" then Some(VehicleType.Motorcycle)
    else if name == "BUS" then Some(Bus)
    else None
  }

  /** A vehicle. The plate, type and entry time have no setters; only the exit time changes. */
  class Vehicle {
    const licensePlate: string
    const vehicleType: VehicleType
    const entryTime: Option<int>  // None when constructed with two arguments, as the repositories do
    var exitTime: Option<int>

    constructor (licensePlate: string, vehicleType: VehicleType, entryTime: Option<int>)
      ensures this.licensePlate == licensePlate && this.vehicleType == vehicleType
      ensures this.entryTime == entryTime && exitTime == None
    {
      this.licensePlate := licensePlate;
      this.vehicleType := vehicleType;
      this.entryTime := entryTime;
      exitTime := None;
    }

    /** `get_type`. The source returns `this.type`, a field that is never assigned (the
        constructor stores `vehicle_type`), so it always yields `undefined`; this model
        returns the stored type, which is what every caller expects. */
    function GetType(): VehicleType {
      vehicleType
    }

    /** What `get_type` yields as written: the unassigned field `type`, that is `undefined`. */
    function GetTypeAsWritten(): Option<VehicleType> {
      None
    }

    /** `set_exit_time`: only the exit time changes. */
    method SetExitTime(exitTime: Option<int>)
      modifies this
      ensures this.exitTime == exitTime
    {
      this.exitTime := exitTime;
    }
  }
}
