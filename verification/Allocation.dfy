/** The spot search of `parkVehicle` (services/ParkingLotService.js, services/ParkingLot.js): levels in
    creation order, and within a level its spots in order; the first available spot the vehicle fits
    is taken. */
module Allocation {
  import opened Wrappers
  import opened Errors
  import opened VehicleEntity
  import opened SpotEntity
  import opened LevelEntity
  import opened SpotServices

  /** A spot the search may take for a vehicle of that type: available, vacant and of a fitting size. */
  predicate IsCandidate(spot: Spot, vehicleType: VehicleType)
    reads spot
  {
    spot.available && spot.vehicle == null && Fits(vehicleType, spot.size)
  }

  /** The spots of the levels present (removed slots hold none). */
  ghost function SpotsOf(levels: seq<ParkingLevel?>): set<Spot>
    reads levels
  {
    set i, j | 0 <= i < |levels| && levels[i] != null && 0 <= j < |levels[i].rows| :: levels[i].rows[j]
  }

  /** The search within one level's spots, from position `j`. Unavailable spots are skipped, as
      `findAllSpotByAvailability(true, ...)` drops them; an available spot that still holds a vehicle
      makes `canVehicleFit` throw. The result is the position of the first candidate. */
  function ScanRows(rows: seq<Spot>, vehicleType: VehicleType, j: nat): (r: Result<Option<nat>, Error>)
    reads rows
    decreases |rows| - j
    ensures r.Success? && r.value.Some? ==>
      && j <= r.value.value < |rows| && IsCandidate(rows[r.value.value], vehicleType)
      && forall k :: j <= k < r.value.value ==> !IsCandidate(rows[k], vehicleType)
    ensures r.Success? && r.value.None? ==> forall k :: j <= k < |rows| ==> !IsCandidate(rows[k], vehicleType)
    ensures r.Failure? ==>
      r.error == SpotOccupied && exists k :: j <= k < |rows| && rows[k].available && rows[k].vehicle != null
  {
    if j >= |rows| then Success(None)
    else if !rows[j].available then ScanRows(rows, vehicleType, j + 1)
    else if rows[j].vehicle != null then Failure(SpotOccupied)
    else if Fits(vehicleType, rows[j].size) then Success(Some(j))
    else ScanRows(rows, vehicleType, j + 1)
  }

  /** The search over the levels from slot `i`: the (level slot, spot position) of the first candidate. */
  function ScanLevels(levels: seq<ParkingLevel?>, vehicleType: VehicleType, i: nat): (r: Result<Option<(nat, nat)>, Error>)
    reads levels, SpotsOf(levels)
    decreases |levels| - i
    ensures r.Success? && r.value.Some? ==>
      var (a, b) := r.value.value;
      && i <= a < |levels| && levels[a] != null && b < |levels[a].rows|
      && IsCandidate(levels[a].rows[b], vehicleType)
      && forall x, y ::
           (i <= x < |levels| && levels[x] != null && 0 <= y < |levels[x].rows| && (x < a || (x == a && y < b)))
           ==> !IsCandidate(levels[x].rows[y], vehicleType)
    ensures r.Success? && r.value.None? ==>
      forall x, y :: i <= x < |levels| && levels[x] != null && 0 <= y < |levels[x].rows| ==>
                     !IsCandidate(levels[x].rows[y], vehicleType)
    ensures r.Failure? ==>
      && r.error == SpotOccupied
      && exists x, y :: i <= x < |levels| && levels[x] != null && 0 <= y < |levels[x].rows| &&
                        levels[x].rows[y].available && levels[x].rows[y].vehicle != null
  {
    if i >= |levels| then Success(None)
    else if levels[i] == null then ScanLevels(levels, vehicleType, i + 1)
    else
      assert forall s :: s in levels[i].rows ==> s in SpotsOf(levels);
      match ScanRows(levels[i].rows, vehicleType, 0)
      case Failure(e) => Failure(e)
      case Success(Some(j)) => Success(Some((i, j)))
      case Success(None) => ScanLevels(levels, vehicleType, i + 1)
  }

  /** The spot the search settles on, if any. */
  function FirstFitSpot(levels: seq<ParkingLevel?>, vehicleType: VehicleType): (r: Option<Spot>)
    reads levels, SpotsOf(levels)
    ensures r.Some? ==> r.value in SpotsOf(levels) && IsCandidate(r.value, vehicleType)
    ensures r.None? <==> !ScanLevels(levels, vehicleType, 0).Success? || ScanLevels(levels, vehicleType, 0).value.None?
  {
    match ScanLevels(levels, vehicleType, 0)
    case Success(Some((a, b))) => Some(levels[a].rows[b])
    case _ => None
  }

  /** While every available spot is vacant, as the facility keeps it, the search never fails. */
  lemma ScanSucceedsWhenCoherent(levels: seq<ParkingLevel?>, vehicleType: VehicleType)
    requires forall s :: s in SpotsOf(levels) && s.available ==> s.vehicle == null
    ensures ScanLevels(levels, vehicleType, 0).Success?
  {
  }

  /** The nested loops of `parkVehicle`: each present level in turn, each of its available spots in
      turn, asking `canVehicleFit`. The result is exactly the search `ScanLevels` specifies. */
  method FindFirstFit(levels: seq<ParkingLevel?>, vehicle: Vehicle) returns (r: Result<Option<(nat, nat)>, Error>)
    ensures r == ScanLevels(levels, vehicle.vehicleType, 0)
  {
    var i := 0;
    while i < |levels|
      invariant 0 <= i <= |levels|
      invariant ScanLevels(levels, vehicle.vehicleType, 0) == ScanLevels(levels, vehicle.vehicleType, i)
    {
      if levels[i] != null {
        var rows := levels[i].rows;
        var j := 0;
        while j < |rows|
          invariant 0 <= j <= |rows|
          invariant ScanRows(rows, vehicle.vehicleType, 0) == ScanRows(rows, vehicle.vehicleType, j)
        {
          var spot := rows[j];
          if spot.available {
            var fit := CanVehicleFit(vehicle, spot);
            if fit.Failure? {
              return Failure(fit.error);
            }
            if fit.value {
              return Success(Some((i, j)));
            }
          }
          j := j + 1;
        }
      }
      i := i + 1;
    }
    return Success(None);
  }
}
