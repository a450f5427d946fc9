/** The invariants the facility keeps across its stores: the spot store, the level store, the ticket
    log and the vehicle registry, as the orchestrators (services/ParkingLotService.js,
    services/ParkingLot.js) use them together. */
module Facility {
  import opened Wrappers
  import opened VehicleEntity
  import opened SpotEntity
  import opened TicketEntity
  import opened LevelEntity
  import opened SpotRepo
  import opened LevelRepo
  import opened TicketRepo
  import opened VehicleRepo
  import opened Allocation

  /** Every spot reachable from a level is in the spot store. */
  ghost predicate LevelsStored(levels: seq<ParkingLevel?>, spots: seq<Spot>)
    reads levels
  {
    forall s :: s in SpotsOf(levels) ==> s in spots
  }

  /** A spot is available exactly when it holds no vehicle. */
  ghost predicate SpotsCoherent(spots: seq<Spot>)
    reads spots
  {
    forall s :: s in spots ==> s.available == (s.vehicle == null)
  }

  /** No vehicle occupies two spots. */
  ghost predicate OneSpotPerVehicle(spots: seq<Spot>)
    reads spots
  {
    forall a, b :: 0 <= a < b < |spots| && spots[a].vehicle != null ==> spots[a].vehicle != spots[b].vehicle
  }

  /** Every occupant is a registered vehicle. */
  ghost predicate OccupantsRegistered(spots: seq<Spot>, vehicles: map<nat, Vehicle>)
    reads spots
  {
    forall s :: s in spots && s.vehicle != null ==> s.vehicle in vehicles.Values
  }

  /** No two registered vehicles share a plate. */
  ghost predicate PlatesDistinct(vehicles: map<nat, Vehicle>)
  {
    forall a, b :: a in vehicles && b in vehicles && vehicles[a].licensePlate == vehicles[b].licensePlate ==> a == b
  }

  /** An open ticket's spot is stored and holds a vehicle with the ticket's plate. */
  ghost predicate OpenTicketsHeld(tickets: map<nat, Ticket>, spots: seq<Spot>)
    reads tickets.Values, spots
  {
    forall t :: t in tickets.Values && t.IsOpen() ==>
      t.assignedSpot in spots && t.assignedSpot.vehicle != null && t.assignedSpot.vehicle.licensePlate == t.licensePlate
  }

  /** The invariants among the spot store, the ticket log and the registry. */
  ghost predicate StoresConsistent(sr: SpotRepository, tr: TicketRepository, vr: VehicleRepository)
    reads sr, sr.spots, tr, tr.tickets.Values, vr
  {
    && sr.Valid() && tr.Valid() && vr.Valid()
    && SpotsCoherent(sr.spots) && OneSpotPerVehicle(sr.spots) && OccupantsRegistered(sr.spots, vr.vehicles)
    && PlatesDistinct(vr.vehicles) && OpenTicketsHeld(tr.tickets, sr.spots) && OpenPlatesUnique(tr.tickets)
    && ClosedTicketsOrdered(tr.tickets)
  }

  /** The whole facility: the level store shares the spot store and every level's spots are stored in it. */
  ghost predicate Consistent(lr: PakingLotRepository, sr: SpotRepository, tr: TicketRepository, vr: VehicleRepository)
    reads lr, lr.levels, sr, sr.spots, tr, tr.tickets.Values, vr
  {
    && lr.spotRepository == sr && lr.Valid() && LevelsStored(lr.levels, sr.spots)
    && StoresConsistent(sr, tr, vr)
  }

  /** A registered vehicle that occupies no spot has no open ticket. */
  lemma UnparkedHasNoOpenTicket(sr: SpotRepository, tr: TicketRepository, vr: VehicleRepository, v: Vehicle)
    requires StoresConsistent(sr, tr, vr)
    requires v in vr.vehicles.Values && forall s :: s in sr.spots ==> s.vehicle != v
    ensures forall t :: t in tr.tickets.Values && t.IsOpen() ==> t.licensePlate != v.licensePlate
  {
    forall t | t in tr.tickets.Values && t.IsOpen()
      ensures t.licensePlate != v.licensePlate
    {
      var w := t.assignedSpot.vehicle;
      assert w in vr.vehicles.Values && w != v;
      var kw :| kw in vr.vehicles && vr.vehicles[kw] == w;
      var kv :| kv in vr.vehicles && vr.vehicles[kv] == v;
    }
  }

  /** A plate that no registered vehicle carries has no open ticket. */
  lemma UnknownPlateHasNoOpenTicket(sr: SpotRepository, tr: TicketRepository, vr: VehicleRepository, plate: string)
    requires StoresConsistent(sr, tr, vr)
    requires forall w :: w in vr.vehicles.Values ==> w.licensePlate != plate
    ensures forall t :: t in tr.tickets.Values && t.IsOpen() ==> t.licensePlate != plate
  {
    forall t | t in tr.tickets.Values && t.IsOpen()
      ensures t.licensePlate != plate
    {
      assert t.assignedSpot.vehicle in vr.vehicles.Values;
    }
  }

  /** The open ticket of a registered vehicle's plate is assigned the one spot that vehicle occupies. */
  lemma OpenTicketSpotHoldsVehicle(sr: SpotRepository, tr: TicketRepository, vr: VehicleRepository, v: Vehicle, t: Ticket)
    requires StoresConsistent(sr, tr, vr)
    requires v in vr.vehicles.Values && t in tr.tickets.Values && t.IsOpen() && t.licensePlate == v.licensePlate
    ensures t.assignedSpot in sr.spots && t.assignedSpot.vehicle == v
    ensures forall s :: s in sr.spots && s.vehicle == v ==> s == t.assignedSpot
  {
    var w := t.assignedSpot.vehicle;
    assert w in vr.vehicles.Values;
    var kw :| kw in vr.vehicles && vr.vehicles[kw] == w;
    var kv :| kv in vr.vehicles && vr.vehicles[kv] == v;
    assert kw == kv;
    forall s | s in sr.spots && s.vehicle == v
      ensures s == t.assignedSpot
    {
      var a :| 0 <= a < |sr.spots| && sr.spots[a] == s;
      var b :| 0 <= b < |sr.spots| && sr.spots[b] == t.assignedSpot;
    }
  }

  /** The plate of an open ticket belongs to a registered vehicle, the one in the ticket's spot: looking
      the vehicle up by that plate after finding the ticket never fails. */
  lemma OpenTicketVehicleRegistered(sr: SpotRepository, tr: TicketRepository, vr: VehicleRepository, t: Ticket)
    requires StoresConsistent(sr, tr, vr)
    requires t in tr.tickets.Values && t.IsOpen() && t.licensePlate != ""
    ensures RegisteredVehicle(vr, t.licensePlate) == Some(t.assignedSpot.vehicle)
  {
    var w := t.assignedSpot.vehicle;
    assert w in vr.vehicles.Values;
    var found := RegisteredVehicle(vr, t.licensePlate);
    assert found.Some?;
    var kw :| kw in vr.vehicles && vr.vehicles[kw] == w;
    var kv :| kv in vr.vehicles && vr.vehicles[kv] == found.value;
  }

  /** Registering a vehicle under a new key, with a plate no registered vehicle carries, keeps the
      plates distinct and every occupant registered. */
  lemma RegistrationKeepsPlatesDistinct(spots: seq<Spot>, vehicles: map<nat, Vehicle>, k: nat, v: Vehicle)
    requires OccupantsRegistered(spots, vehicles) && PlatesDistinct(vehicles)
    requires k !in vehicles && forall w :: w in vehicles.Values ==> w.licensePlate != v.licensePlate
    ensures OccupantsRegistered(spots, vehicles[k := v]) && PlatesDistinct(vehicles[k := v])
  {
    forall w | w in vehicles.Values
      ensures w in vehicles[k := v].Values
    {
      var j :| j in vehicles && vehicles[j] == w;
      assert vehicles[k := v][j] == w;
    }
  }

  /** Issuing a new open ticket under a fresh id, for a stored spot that holds a vehicle with the
      ticket's plate, keeps every open ticket's spot holding its vehicle. */
  lemma IssueKeepsTicketsHeld(tickets: map<nat, Ticket>, spots: seq<Spot>, k: nat, t: Ticket)
    requires OpenTicketsHeld(tickets, spots)
    requires t.assignedSpot in spots && t.assignedSpot.vehicle != null
    requires t.assignedSpot.vehicle.licensePlate == t.licensePlate
    ensures OpenTicketsHeld(tickets[k := t], spots)
  {
    forall u | u in tickets[k := t].Values
      ensures u == t || u in tickets.Values
    {
      var j :| j in tickets[k := t] && tickets[k := t][j] == u;
      if j != k {
        assert tickets[j] == u;
      }
    }
  }

  /** Appending available, empty spots to the store keeps the spot invariants and every open ticket held. */
  lemma AppendVacantKeepsSpots(spots: seq<Spot>, added: seq<Spot>, tickets: map<nat, Ticket>, vehicles: map<nat, Vehicle>)
    requires SpotsCoherent(spots) && OneSpotPerVehicle(spots)
    requires OccupantsRegistered(spots, vehicles) && OpenTicketsHeld(tickets, spots)
    requires forall k :: 0 <= k < |added| ==> added[k].available && added[k].vehicle == null
    ensures SpotsCoherent(spots + added) && OneSpotPerVehicle(spots + added)
    ensures OccupantsRegistered(spots + added, vehicles) && OpenTicketsHeld(tickets, spots + added)
  {
    var all := spots + added;
    forall s | s in all
      ensures s in spots || (s.available && s.vehicle == null)
    {
      var i :| 0 <= i < |all| && all[i] == s;
      if i >= |spots| {
        assert s == added[i - |spots|];
      }
    }
    forall a, b | 0 <= a < b < |all| && all[a].vehicle != null
      ensures all[a].vehicle != all[b].vehicle
    {
      if b < |spots| {
        assert all[a] == spots[a] && all[b] == spots[b];
      } else {
        assert all[b] == added[b - |spots|];
      }
    }
  }

  /** The registered vehicle with that plate, if any (`findVehicleByLicensePlate`, with the empty
      plate, which it rejects, finding nothing). */
  function RegisteredVehicle(vr: VehicleRepository, licensePlate: string): (r: Option<Vehicle>)
    reads vr
    ensures r.Some? ==> r.value in vr.vehicles.Values && r.value.licensePlate == licensePlate
    ensures vr.Valid() && licensePlate != "" ==>
              (r.None? <==> forall v :: v in vr.vehicles.Values ==> v.licensePlate != licensePlate)
  {
    match vr.FindVehicleByLicensePlate(licensePlate)
    case Success(found) => found
    case Failure(_) => None
  }

  /** The level store's `addPakingLevel`: a new empty level is appended, numbered one more than the
      number of levels created before; it holds no spot, so the invariants are kept. */
  method AddLevel(lr: PakingLotRepository, sr: SpotRepository, tr: TicketRepository, vr: VehicleRepository)
    returns (level: ParkingLevel)
    requires Consistent(lr, sr, tr, vr)
    modifies lr
    ensures Consistent(lr, sr, tr, vr) && fresh(level)
    ensures lr.levels == old(lr.levels) + [level]
    ensures level.levelNumber == |old(lr.levels)| + 1 && level.rows == []
    ensures lr.FindPakingLevelByLevelNumber(level.levelNumber) == Some(level)
  {
    level := lr.AddPakingLevel();
    forall s | s in SpotsOf(lr.levels)
      ensures s in SpotsOf(old(lr.levels))
    {
      var x, y :| 0 <= x < |lr.levels| && lr.levels[x] != null && 0 <= y < |lr.levels[x].rows| && lr.levels[x].rows[y] == s;
      assert x < |old(lr.levels)|;
    }
  }

  /** The level store's `addVehicleSpot` on a level that is present: exactly `noOfSpots` new available,
      empty spots of that size are appended to the level and to the spot store. New spots hold nothing,
      so the invariants are kept. */
  method GrowLevel(lr: PakingLotRepository, sr: SpotRepository, tr: TicketRepository, vr: VehicleRepository,
                   level: ParkingLevel, size: SpotSize, noOfSpots: nat)
    requires Consistent(lr, sr, tr, vr) && lr.FindPakingLevelByLevelNumber(level.levelNumber) == Some(level)
    modifies sr, level
    ensures Consistent(lr, sr, tr, vr)
    ensures |sr.spots| == |old(sr.spots)| + noOfSpots
    ensures
      var added := sr.spots[|old(sr.spots)|..];
      && sr.spots == old(sr.spots) + added
      && level.rows == old(level.rows) + added
      && forall k :: 0 <= k < |added| ==>
           && fresh(added[k]) && added[k].size == size && added[k].level == level.levelNumber
           && added[k].available && added[k].vehicle == null
  {
    assert lr.LevelsNumbered(level.levelNumber) <= {level};
    ghost var oldSpots := sr.spots;
    ghost var oldSpotsOf := SpotsOf(lr.levels);
    assert forall s :: s in level.rows ==> s in oldSpots;
    var grown := lr.AddVehicleSpot(level.levelNumber, size, noOfSpots);
    ghost var added := sr.spots[|oldSpots|..];
    assert forall s :: s in level.rows ==> s in sr.spots;
    forall s | s in SpotsOf(lr.levels)
      ensures s in sr.spots
    {
      var x, y :| 0 <= x < |lr.levels| && lr.levels[x] != null && 0 <= y < |lr.levels[x].rows| && lr.levels[x].rows[y] == s;
      if lr.levels[x] != level {
        assert s in oldSpotsOf;
      }
    }
    AppendVacantKeepsSpots(oldSpots, added, tr.tickets, vr.vehicles);
    assert sr.spots == oldSpots + added;
    assert lr.Valid();
    assert tr.Valid();
    assert vr.Valid();
    assert PlatesDistinct(vr.vehicles);
    assert OpenPlatesUnique(tr.tickets);
    assert ClosedTicketsOrdered(tr.tickets);
    assert LevelsStored(lr.levels, sr.spots);
  }
}
