/** repositories/SpotRepository.js: the store of every spot ever created, and the queries over a list of spots. */
module SpotRepo {
  import opened Wrappers
  import opened VehicleEntity
  import opened SpotEntity

  /** Index of the first spot of `list` occupied by `vehicle` (compared by reference, as `===` does). */
  function IndexOfVehicle(list: seq<Spot>, vehicle: Vehicle): (r: Option<nat>)
    reads list
    ensures r.Some? ==> r.value < |list| && list[r.value].vehicle == vehicle
    ensures r.Some? ==> forall k :: 0 <= k < r.value ==> list[k].vehicle != vehicle
    ensures r.None? ==> forall k :: 0 <= k < |list| ==> list[k].vehicle != vehicle
  {
    if list == [] then None
    else if list[0].vehicle == vehicle then Some(0)
    else match IndexOfVehicle(list[1..], vehicle)
      case None => None
      case Some(k) => Some(k + 1)
  }

  /** The spots of `list`, in order, occupied by a vehicle of type `vehicleType`. */
  function OccupiedByType(list: seq<Spot>, vehicleType: VehicleType): (r: seq<Spot>)
    reads list
    ensures |r| <= |list|
    ensures forall s :: s in r ==> s in list && s.vehicle != null && s.vehicle.vehicleType == vehicleType
    ensures forall s :: s in list && s.vehicle != null && s.vehicle.vehicleType == vehicleType ==> s in r
  {
    if list == [] then []
    else
      var rest := OccupiedByType(list[1..], vehicleType);
      if list[0].vehicle != null && list[0].vehicle.vehicleType == vehicleType then [list[0]] + rest else rest
  }

  /** The first spot of `list` whose size is `size`. */
  function FirstOfSize(list: seq<Spot>, size: SpotSize): (r: Option<nat>)
    ensures r.Some? ==> r.value < |list| && list[r.value].size == size
    ensures r.Some? ==> forall k :: 0 <= k < r.value ==> list[k].size != size
    ensures r.None? ==> forall k :: 0 <= k < |list| ==> list[k].size != size
  {
    if list == [] then None
    else if list[0].size == size then Some(0)
    else match FirstOfSize(list[1..], size)
      case None => None
      case Some(k) => Some(k + 1)
  }

  /** The spots of `list`, in order, whose availability flag equals `available`. */
  function WithAvailability(list: seq<Spot>, available: bool): (r: seq<Spot>)
    reads list
    ensures |r| <= |list|
    ensures forall s :: s in r ==> s in list && s.available == available
    ensures forall s :: s in list && s.available == available ==> s in r
  {
    if list == [] then []
    else
      var rest := WithAvailability(list[1..], available);
      if list[0].available == available then [list[0]] + rest else rest
  }

  /** `OccupiedByType` keeps the order of its input: filtering a concatenation concatenates the filtered parts. */
  lemma {:induction false} OccupiedByTypeAppend(a: seq<Spot>, b: seq<Spot>, vehicleType: VehicleType)
    ensures OccupiedByType(a + b, vehicleType) == OccupiedByType(a, vehicleType) + OccupiedByType(b, vehicleType)
    decreases |a|
  {
    if a == [] {
      assert a + b == b;
    } else {
      assert (a + b)[0] == a[0];
      assert (a + b)[1..] == a[1..] + b;
      OccupiedByTypeAppend(a[1..], b, vehicleType);
    }
  }

  /** `WithAvailability` keeps the order of its input: filtering a concatenation concatenates the filtered parts. */
  lemma {:induction false} WithAvailabilityAppend(a: seq<Spot>, b: seq<Spot>, available: bool)
    ensures WithAvailability(a + b, available) == WithAvailability(a, available) + WithAvailability(b, available)
    decreases |a|
  {
    if a == [] {
      assert a + b == b;
    } else {
      assert (a + b)[0] == a[0];
      assert (a + b)[1..] == a[1..] + b;
      WithAvailabilityAppend(a[1..], b, available);
    }
  }

  /** The first allocation pass of `parkVehicle` looks for available spots already holding a vehicle of
      the requested type. Whenever every available spot is empty, as the facility keeps it, that pass finds nothing. */
  lemma FirstPassNeverMatches(list: seq<Spot>, vehicleType: VehicleType)
    requires forall s :: s in list && s.available ==> s.vehicle == null
    ensures OccupiedByType(WithAvailability(list, true), vehicleType) == []
  {
  }

  /** The store of all spots, in creation order. */
  class SpotRepository {
    var spots: seq<Spot>

    /** No spot is stored twice. */
    ghost predicate Valid()
      reads this
    {
      forall a, b :: 0 <= a < b < |spots| ==> spots[a] != spots[b]
    }

    constructor ()
      ensures spots == [] && Valid()
    {
      spots := [];
    }

    /** `createSpot`: appends exactly one new, available, empty spot and returns it. */
    method CreateSpot(size: SpotSize, level: nat, row: nat) returns (spot: Spot)
      requires Valid()
      modifies this
      ensures Valid() && fresh(spot)
      ensures spots == old(spots) + [spot]
      ensures spot.size == size && spot.level == level && spot.row == row
      ensures spot.available && spot.vehicle == null
    {
      spot := new Spot(size, level, row);
      spots := spots + [spot];
    }

    /** The list a query works on: the one given, else every stored spot. */
    function ListOrAll(spotList: Option<seq<Spot>>): seq<Spot>
      reads this
    {
      if spotList.Some? then spotList.value else spots
    }

    /** `findSpotByVehicle`: the first stored spot occupied by `vehicle`, or nothing. */
    function FindSpotByVehicle(vehicle: Vehicle): (r: Option<Spot>)
      reads this, spots
      ensures r.Some? ==> r.value in spots && r.value.vehicle == vehicle
      ensures r.None? <==> forall s :: s in spots ==> s.vehicle != vehicle
      ensures r.Some? ==> exists k :: 0 <= k < |spots| && spots[k] == r.value &&
                            forall j :: 0 <= j < k ==> spots[j].vehicle != vehicle
    {
      match IndexOfVehicle(spots, vehicle)
      case Some(k) => Some(spots[k])
      case None => None
    }

    /** `findSpotsByVehicleType`: exactly the spots of the list occupied by a vehicle of that type;
        on a list of available, empty spots it is empty. */
    function FindSpotsByVehicleType(vehicleType: VehicleType, spotList: Option<seq<Spot>>): (r: seq<Spot>)
      reads this, ListOrAll(spotList)
      ensures forall s :: s in r ==> s in ListOrAll(spotList) && s.vehicle != null && s.vehicle.vehicleType == vehicleType
      ensures forall s :: s in ListOrAll(spotList) && s.vehicle != null && s.vehicle.vehicleType == vehicleType ==> s in r
      ensures (forall s :: s in ListOrAll(spotList) ==> s.vehicle == null) ==> r == []
    {
      var r := OccupiedByType(ListOrAll(spotList), vehicleType);
      assert r != [] ==> r[0] in r;
      r
    }

    /** `findSpotBySize`: the first spot of the list with that size, or nothing. */
    function FindSpotBySize(size: SpotSize, spotList: Option<seq<Spot>>): (r: Option<Spot>)
      reads this
      ensures r.Some? ==> r.value in ListOrAll(spotList) && r.value.size == size
      ensures r.None? <==> forall s :: s in ListOrAll(spotList) ==> s.size != size
      ensures r.Some? ==> exists k :: 0 <= k < |ListOrAll(spotList)| && ListOrAll(spotList)[k] == r.value &&
                            forall j :: 0 <= j < k ==> ListOrAll(spotList)[j].size != size
    {
      var list := ListOrAll(spotList);
      match FirstOfSize(list, size)
      case Some(k) => Some(list[k])
      case None => None
    }

    /** `findAllSpotByAvailability`: exactly the spots of the list whose flag equals `available`. */
    function FindAllSpotByAvailability(available: bool, spotList: Option<seq<Spot>>): (r: seq<Spot>)
      reads this, ListOrAll(spotList)
      ensures forall s :: s in r ==> s in ListOrAll(spotList) && s.available == available
      ensures forall s :: s in ListOrAll(spotList) && s.available == available ==> s in r
    {
      WithAvailability(ListOrAll(spotList), available)
    }
  }
}
