/** services/ParkingLot.js: the facility driven over the repositories directly, with the unchecked rate
    table of `PricingStrategy`, which the source's class extends and this model holds as a component. */
module Lot {
  import opened Wrappers
  import opened Errors
  import opened VehicleEntity
  import opened SpotEntity
  import opened TicketEntity
  import opened LevelEntity
  import opened SpotRepo
  import opened LevelRepo
  import opened TicketRepo
  import opened VehicleRepo
  import opened SpotServices
  import opened Pricing
  import opened TicketServices
  import opened Allocation
  import opened Facility

  /** `setSpotNewPrice` as written, on the inherited table keyed by name: after the price checks the name
      must be a spot size, and the rate is then stored under that name with no further check. */
  function SetSpotNewPriceAsWritten(rates: map<string, real>, spotSize: string, newPrice: real): Result<map<string, real>, Error>
  {
    if spotSize == "" then Failure(SpotSizeRequired)
    else if PriceCheck(newPrice).Fail? then Failure(PriceCheck(newPrice).error)
    else if SpotSizeNamed(spotSize).None? then Failure(SpotSizeInvalid)
    else Success(rates[spotSize := newPrice])
  }

  /** As written, the car and bus rates can never be updated, while a spot size that is no vehicle type
      is accepted and stored under a key that no charge ever reads. */
  lemma SetSpotNewPriceAsWrittenMissesRates(rates: map<string, real>, newPrice: real)
    requires newPrice > 0.0
    ensures SetSpotNewPriceAsWritten(rates, "CAR", newPrice) == Failure(SpotSizeInvalid)
    ensures SetSpotNewPriceAsWritten(rates, "BUS", newPrice) == Failure(SpotSizeInvalid)
    ensures SetSpotNewPriceAsWritten(rates, "COMPACT", newPrice) == Success(rates["COMPACT" := newPrice])
    ensures VehicleTypeNamed("COMPACT").None?
  {
  }

  class ParkingLot {
    const spotRepository: SpotRepository
    const pakingLotRepository: PakingLotRepository
    const ticketRepository: TicketRepository
    const vehicleRepository: VehicleRepository
    const pricingStrategy: PricingStrategy

    /** The facility invariants over the stores, and a rate for every vehicle type. */
    ghost predicate Valid()
      reads pakingLotRepository, pakingLotRepository.levels, spotRepository, spotRepository.spots
      reads ticketRepository, ticketRepository.tickets.Values, vehicleRepository, pricingStrategy
    {
      Consistent(pakingLotRepository, spotRepository, ticketRepository, vehicleRepository) && pricingStrategy.Valid()
    }

    /** Fresh, empty stores (the level store sharing the spot store) and a rate per vehicle type. */
    constructor (carPrice: real, motorcyclePrice: real, busPrice: real)
      ensures Valid()
      ensures fresh(spotRepository) && fresh(pakingLotRepository) && fresh(ticketRepository) && fresh(vehicleRepository)
      ensures spotRepository.spots == [] && pakingLotRepository.levels == []
      ensures ticketRepository.tickets == map[] && vehicleRepository.vehicles == map[]
      ensures pricingStrategy.pricing == map[Car := carPrice, VehicleType.Motorcycle := motorcyclePrice, Bus := busPrice]
    {
      var spots := new SpotRepository();
      spotRepository := spots;
      pakingLotRepository := new PakingLotRepository(spots);
      ticketRepository := new TicketRepository();
      vehicleRepository := new VehicleRepository();
      var prices := map[Car := carPrice, VehicleType.Motorcycle := motorcyclePrice, Bus := busPrice];
      assert forall t: VehicleType :: t in prices by {
        forall t: VehicleType
          ensures t in prices
        {
          assert t.Car? || t.Motorcycle? || t.Bus?;
        }
      }
      pricingStrategy := new PricingStrategy(prices);
    }

    /** `addPakingLevel`: adds an empty level and returns its number, one more than the number of
        levels created before. */
    method AddPakingLevel() returns (levelNumber: nat)
      requires Valid()
      modifies pakingLotRepository
      ensures Valid()
      ensures levelNumber == |old(pakingLotRepository.levels)| + 1
      ensures |pakingLotRepository.levels| == levelNumber
      ensures pakingLotRepository.levels[..levelNumber - 1] == old(pakingLotRepository.levels)
      ensures pakingLotRepository.FindPakingLevelByLevelNumber(levelNumber).Some?
      ensures pakingLotRepository.levels[levelNumber - 1].rows == []
    {
      var level := AddLevel(pakingLotRepository, spotRepository, ticketRepository, vehicleRepository);
      levelNumber := level.levelNumber;
    }

    /** `getParkingLevel`: the level slots in creation order; slot i holds level i + 1. */
    function GetParkingLevel(): (r: seq<ParkingLevel?>)
      requires Valid()
      reads pakingLotRepository, pakingLotRepository.levels, spotRepository, spotRepository.spots
      reads ticketRepository, ticketRepository.tickets.Values, vehicleRepository, pricingStrategy
      ensures |r| == pakingLotRepository.autoIncrement - 1
      ensures forall i :: 0 <= i < |r| && r[i] != null ==> r[i].levelNumber == i + 1
      ensures forall i :: 0 <= i < |r| ==> (r[i] != null <==> pakingLotRepository.FindPakingLevelByLevelNumber(i + 1).Some?)
      ensures forall i :: 0 <= i < |r| && r[i] != null ==> pakingLotRepository.FindPakingLevelByLevelNumber(i + 1).value == r[i]
    {
      pakingLotRepository.FindAllPakingLevel()
    }

    /** `getSpotInLevel`: rejects level 0, then a missing level; otherwise the level's spots, all of
        them in the spot store. */
    function GetSpotInLevel(levelNumber: int): (r: Result<seq<Spot>, Error>)
      reads pakingLotRepository, pakingLotRepository.levels, spotRepository, spotRepository.spots
      reads ticketRepository, ticketRepository.tickets.Values, vehicleRepository, pricingStrategy
      ensures levelNumber == 0 ==> r == Failure(LevelNumberRequired)
      ensures levelNumber != 0 && pakingLotRepository.FindPakingLevelByLevelNumber(levelNumber).None? ==> r == Failure(LevelNotFound)
      ensures r.Success? ==> pakingLotRepository.FindPakingLevelByLevelNumber(levelNumber).Some?
      ensures r.Success? ==> r.value == pakingLotRepository.FindPakingLevelByLevelNumber(levelNumber).value.rows
      ensures Valid() && r.Success? ==> forall s :: s in r.value ==> s in spotRepository.spots
    {
      if levelNumber == 0 then Failure(LevelNumberRequired)
      else match pakingLotRepository.FindPakingLevelByLevelNumber(levelNumber)
        case None => Failure(LevelNotFound)
        case Some(level) =>
          assert forall s :: s in level.rows ==> s in SpotsOf(pakingLotRepository.levels);
          Success(level.rows)
    }

    /** `addSpotInLevelByVehicleType`: the checks in the source's order (level number 0, empty size,
        count 0, negative count, unknown size, missing level), none of which changes anything; then
        exactly `noOfSpots` new available, empty spots of that size are added to the level and to the
        spot store. */
    method AddSpotInLevelByVehicleType(levelNumber: int, spotSize: string, noOfSpots: int) returns (r: Outcome<Error>)
      requires Valid()
      modifies spotRepository, pakingLotRepository.LevelsNumbered(levelNumber)
      ensures Valid()
      ensures levelNumber == 0 ==> r == Fail(LevelNumberRequired)
      ensures levelNumber != 0 && spotSize == "" ==> r == Fail(SpotSizeRequired)
      ensures levelNumber != 0 && spotSize != "" && noOfSpots == 0 ==> r == Fail(NoOfSpotsRequired)
      ensures levelNumber != 0 && spotSize != "" && noOfSpots < 0 ==> r == Fail(NoOfSpotsNotPositive)
      ensures levelNumber != 0 && spotSize != "" && noOfSpots > 0 && SpotSizeNamed(spotSize).None? ==> r == Fail(SpotSizeInvalid)
      ensures r.Pass? <==>
        && levelNumber != 0 && spotSize != "" && noOfSpots > 0 && SpotSizeNamed(spotSize).Some?
        && old(pakingLotRepository.FindPakingLevelByLevelNumber(levelNumber)).Some?
      ensures levelNumber != 0 && spotSize != "" && noOfSpots > 0 && SpotSizeNamed(spotSize).Some? &&
              old(pakingLotRepository.FindPakingLevelByLevelNumber(levelNumber)).None?
              ==> r == Fail(LevelNotFound)
      ensures r.Fail? ==> spotRepository.spots == old(spotRepository.spots)
      ensures r.Fail? ==> forall l :: l in pakingLotRepository.levels && l != null ==> l.rows == old(l.rows)
      ensures r.Pass? ==> |spotRepository.spots| == |old(spotRepository.spots)| + noOfSpots
      ensures r.Pass? ==>
        var level := pakingLotRepository.levels[levelNumber - 1];
        var added := spotRepository.spots[|old(spotRepository.spots)|..];
        && spotRepository.spots == old(spotRepository.spots) + added
        && level.rows == old(level.rows) + added
        && forall k :: 0 <= k < |added| ==>
             && fresh(added[k]) && added[k].size.Name() == spotSize && added[k].level == levelNumber
             && added[k].available && added[k].vehicle == null
    {
      if levelNumber == 0 {
        return Fail(LevelNumberRequired);
      }
      if spotSize == "" {
        return Fail(SpotSizeRequired);
      }
      if noOfSpots == 0 {
        return Fail(NoOfSpotsRequired);
      }
      if noOfSpots <= 0 {
        return Fail(NoOfSpotsNotPositive);
      }
      var size := SpotSizeNamed(spotSize);
      if size.None? {
        return Fail(SpotSizeInvalid);
      }
      var found := pakingLotRepository.FindPakingLevelByLevelNumber(levelNumber);
      if found.None? {
        return Fail(LevelNotFound);
      }
      GrowLevel(pakingLotRepository, spotRepository, ticketRepository, vehicleRepository, found.value, size.value, noOfSpots);
      return Pass;
    }

    /** `parkVehicle`: rejects an empty plate, a zero entry time, then an empty type name. A plate not
        yet registered is registered with that type, which must name a vehicle type; a registered
        vehicle keeps its own type. A vehicle already in a spot is refused. Otherwise the vehicle takes
        the first spot of the first-fit search (levels in creation order, spots in order), and a new
        open ticket is stored for it; when no spot fits, nothing but the registration has changed. */
    method ParkVehicle(licensePlate: string, vehicleType: string, entryTimestamp: int) returns (r: Result<Ticket, Error>)
      requires Valid()
      modifies vehicleRepository, ticketRepository, spotRepository.spots
      ensures Valid()
      ensures licensePlate == "" ==> r == Failure(LicensePlateRequired)
      ensures licensePlate != "" && entryTimestamp == 0 ==> r == Failure(TimestampRequired)
      ensures licensePlate != "" && entryTimestamp != 0 && vehicleType == "" ==> r == Failure(VehicleTypeRequired)
      ensures (licensePlate != "" && entryTimestamp != 0 && vehicleType != "" &&
               old(RegisteredVehicle(vehicleRepository, licensePlate)).None? &&
               VehicleTypeNamed(vehicleType).None?) ==> r == Failure(VehicleTypeInvalid)
      ensures r.Failure? ==> r.error != SpotOccupied
      ensures r.Success? ==>
        && fresh(r.value) && r.value.IsOpen() && r.value.licensePlate == licensePlate
        && r.value.entryTimestamp == entryTimestamp
        && r.value.assignedSpot in spotRepository.spots
        && r.value.assignedSpot.vehicle != null && r.value.assignedSpot.vehicle.licensePlate == licensePlate
    {
      if licensePlate == "" {
        return Failure(LicensePlateRequired);
      }
      if entryTimestamp == 0 {
        return Failure(TimestampRequired);
      }
      if vehicleType == "" {
        return Failure(VehicleTypeRequired);
      }
      var vehicle := RegisterIfNew(licensePlate, vehicleType);
      if vehicle.Failure? {
        return Failure(vehicle.error);
      }
      r := ParkRegistered(vehicle.value, entryTimestamp);
    }

    /** The registration step of `parkVehicle`: a registered plate yields its vehicle and changes
        nothing; an unknown plate is refused unless the name is a vehicle type, and is then stored in the
        registry. A new vehicle occupies no spot and shares no plate, so the invariants are kept. */
    method RegisterIfNew(licensePlate: string, vehicleType: string) returns (r: Result<Vehicle, Error>)
      requires Valid() && licensePlate != ""
      modifies vehicleRepository
      ensures Valid()
      ensures r.Success? ==> r.value in vehicleRepository.vehicles.Values && r.value.licensePlate == licensePlate
      ensures old(RegisteredVehicle(vehicleRepository, licensePlate)).Some? ==>
        r == Success(old(RegisteredVehicle(vehicleRepository, licensePlate)).value)
      ensures old(RegisteredVehicle(vehicleRepository, licensePlate)).None? && VehicleTypeNamed(vehicleType).None? ==>
        r == Failure(VehicleTypeInvalid)
      ensures old(RegisteredVehicle(vehicleRepository, licensePlate)).None? && VehicleTypeNamed(vehicleType).Some? ==>
        && r.Success? && fresh(r.value) && Some(r.value.vehicleType) == VehicleTypeNamed(vehicleType)
        && vehicleRepository.vehicles == old(vehicleRepository.vehicles)[old(vehicleRepository.autoIncrement) := r.value]
      ensures r.Failure? || old(RegisteredVehicle(vehicleRepository, licensePlate)).Some? ==>
        vehicleRepository.vehicles == old(vehicleRepository.vehicles)
    {
      var known := RegisteredVehicle(vehicleRepository, licensePlate);
      if known.Some? {
        return Success(known.value);
      }
      var named := VehicleTypeNamed(vehicleType);
      if named.None? {
        return Failure(VehicleTypeInvalid);
      }
      var given := new Vehicle(licensePlate, named.value, None);
      var stored := Enrol(given);
      return Success(stored);
    }

    /** The storing step of `parkVehicle` (the registry's `addVehicle`): a copy of the vehicle is stored
        under the next id. Its plate was unknown and it occupies no spot, so the invariants are kept. */
    method Enrol(given: Vehicle) returns (v: Vehicle)
      requires Valid() && given.licensePlate != "" && RegisteredVehicle(vehicleRepository, given.licensePlate).None?
      modifies vehicleRepository
      ensures Valid() && fresh(v)
      ensures v.licensePlate == given.licensePlate && v.vehicleType == given.vehicleType
      ensures vehicleRepository.vehicles == old(vehicleRepository.vehicles)[old(vehicleRepository.autoIncrement) := v]
      ensures v in vehicleRepository.vehicles.Values
    {
      ghost var oldVehicles := vehicleRepository.vehicles;
      ghost var key := vehicleRepository.autoIncrement;
      v := vehicleRepository.AddVehicle(given);
      RegistrationKeepsPlatesDistinct(spotRepository.spots, oldVehicles, key, v);
      assert v == vehicleRepository.vehicles[key];
      assert vehicleRepository.Valid();
      assert PlatesDistinct(vehicleRepository.vehicles);
      assert OccupantsRegistered(spotRepository.spots, vehicleRepository.vehicles);
      assert SpotsCoherent(spotRepository.spots);
      assert OneSpotPerVehicle(spotRepository.spots);
      assert OpenTicketsHeld(ticketRepository.tickets, spotRepository.spots);
      assert OpenPlatesUnique(ticketRepository.tickets);
      assert ClosedTicketsOrdered(ticketRepository.tickets);
      assert LevelsStored(pakingLotRepository.levels, spotRepository.spots);
    }

    /** `parkVehicle` once the vehicle is known and registered: refused when it already occupies a spot;
        otherwise it takes the first spot of the first-fit search, or is refused when none fits. Only a
        successful call changes anything. */
    method ParkRegistered(vehicle: Vehicle, entryTimestamp: int) returns (r: Result<Ticket, Error>)
      requires Valid() && vehicle in vehicleRepository.vehicles.Values
      modifies ticketRepository, spotRepository.spots
      ensures Valid()
      ensures old(spotRepository.FindSpotByVehicle(vehicle)).Some? ==> r == Failure(AlreadyParked)
      ensures r == Failure(NoSpotAvailable) <==>
        old(spotRepository.FindSpotByVehicle(vehicle)).None? && old(FirstFitSpot(pakingLotRepository.levels, vehicle.vehicleType)).None?
      ensures r.Failure? ==> r.error == AlreadyParked || r.error == NoSpotAvailable
      ensures r.Failure? ==>
        ticketRepository.tickets == old(ticketRepository.tickets) && ticketRepository.autoIncrement == old(ticketRepository.autoIncrement)
      ensures r.Failure? ==> unchanged(old(spotRepository.spots))
      ensures r.Success? ==>
        && fresh(r.value) && r.value.IsOpen() && r.value.licensePlate == vehicle.licensePlate
        && r.value.entryTimestamp == entryTimestamp
        && r.value.ticketId == old(ticketRepository.autoIncrement)
        && ticketRepository.tickets == old(ticketRepository.tickets)[r.value.ticketId := r.value]
        && ticketRepository.autoIncrement == old(ticketRepository.autoIncrement) + 1
        && Some(r.value.assignedSpot) == old(FirstFitSpot(pakingLotRepository.levels, vehicle.vehicleType))
        && r.value.assignedSpot in spotRepository.spots
        && r.value.assignedSpot.vehicle == vehicle && !r.value.assignedSpot.available
      ensures r.Success? ==>
        forall s :: s in spotRepository.spots && s != r.value.assignedSpot ==> s.vehicle == old(s.vehicle) && s.available == old(s.available)
    {
      if spotRepository.FindSpotByVehicle(vehicle).Some? {
        return Failure(AlreadyParked);
      }
      ScanSucceedsWhenCoherent(pakingLotRepository.levels, vehicle.vehicleType);
      var fit := FindFirstFit(pakingLotRepository.levels, vehicle);
      if fit.value.None? {
        return Failure(NoSpotAvailable);
      }
      var spot := pakingLotRepository.levels[fit.value.value.0].rows[fit.value.value.1];
      assert spot in spotRepository.spots;
      Occupy(vehicle, spot);
      var ticket := IssueTicket(vehicle, spot, entryTimestamp);
      return Success(ticket);
    }

    /** The binding step of `parkVehicle`: the candidate spot takes the vehicle and becomes unavailable.
        A parked vehicle needs no ticket for the invariants to hold, and since the vehicle was in no spot
        its plate has no open ticket. */
    method Occupy(vehicle: Vehicle, spot: Spot)
      requires Valid()
      requires vehicle in vehicleRepository.vehicles.Values
      requires forall s :: s in spotRepository.spots ==> s.vehicle != vehicle
      requires spot in SpotsOf(pakingLotRepository.levels) && IsCandidate(spot, vehicle.vehicleType)
      modifies spot
      ensures Valid()
      ensures spot in spotRepository.spots && spot.vehicle == vehicle && !spot.available
      ensures NoOpenTicketFor(ticketRepository.tickets, vehicle.licensePlate)
    {
      UnparkedHasNoOpenTicket(spotRepository, ticketRepository, vehicleRepository, vehicle);
      assert forall t :: t in ticketRepository.tickets.Values && t.IsOpen() ==> t.assignedSpot != spot;
      spot.SetVehicle(vehicle);
      spot.SetAvailable(false);
      assert SpotsCoherent(spotRepository.spots);
      assert OneSpotPerVehicle(spotRepository.spots);
      assert OccupantsRegistered(spotRepository.spots, vehicleRepository.vehicles);
      assert OpenTicketsHeld(ticketRepository.tickets, spotRepository.spots);
      assert OpenPlatesUnique(ticketRepository.tickets);
      assert ClosedTicketsOrdered(ticketRepository.tickets);
      assert LevelsStored(pakingLotRepository.levels, spotRepository.spots);
    }

    /** The ticket step of `parkVehicle` (the ticket log's `addTicket`): a new open ticket for the
        occupied spot, under the next id. Its plate had no open ticket, so each plate still has at most one. */
    method IssueTicket(vehicle: Vehicle, spot: Spot, entryTimestamp: int) returns (ticket: Ticket)
      requires Valid()
      requires spot in spotRepository.spots && spot.vehicle == vehicle
      requires NoOpenTicketFor(ticketRepository.tickets, vehicle.licensePlate)
      modifies ticketRepository
      ensures Valid()
      ensures fresh(ticket) && ticket.IsOpen() && ticket.assignedSpot == spot
      ensures ticket.licensePlate == vehicle.licensePlate && ticket.entryTimestamp == entryTimestamp
      ensures ticket.ticketId == old(ticketRepository.autoIncrement)
      ensures ticketRepository.tickets == old(ticketRepository.tickets)[ticket.ticketId := ticket]
      ensures ticketRepository.autoIncrement == old(ticketRepository.autoIncrement) + 1
    {
      ghost var issued := ticketRepository.tickets;
      ticket := ticketRepository.AddTicket(vehicle.licensePlate, entryTimestamp, spot);
      IssueKeepsTicketsHeld(issued, spotRepository.spots, ticket.ticketId, ticket);
    }

    /** What an unpark of `licensePlate` may change: the plate's open ticket and that ticket's spot. */
    function ExitFrame(licensePlate: string): set<object>
      requires Valid()
      reads pakingLotRepository, pakingLotRepository.levels, spotRepository, spotRepository.spots
      reads ticketRepository, ticketRepository.tickets.Values, vehicleRepository, pricingStrategy
    {
      match ticketRepository.FindEntryTicketByVehicleLicensePlate(licensePlate)
      case None => {}
      case Some(ticket) => {ticket, ticket.assignedSpot}
    }

    /** `unParkVehicle`: rejects an empty plate, a zero exit time and a plate with no open ticket. The
        vehicle of an open ticket is always registered and in that ticket's spot, so "vehicle is not
        found" and "vehicle is not parked" never happen. An exit before the entry is refused. Every
        failure leaves the tickets and spots as they were. Otherwise the ticket is closed at the exit
        time, its price is the vehicle type's rate times the hours stayed, with no check on the
        amount, so a stay of no time is priced 0, and the spot is freed. */
    method UnParkVehicle(licensePlate: string, exitTimestamp: int) returns (r: Result<real, Error>)
      requires Valid()
      modifies ExitFrame(licensePlate)
      ensures Valid()
      ensures licensePlate == "" ==> r == Failure(LicensePlateRequired)
      ensures licensePlate != "" && exitTimestamp == 0 ==> r == Failure(TimestampRequired)
      ensures licensePlate != "" && exitTimestamp != 0 && old(NoOpenTicketFor(ticketRepository.tickets, licensePlate)) ==>
        r == Failure(TicketNotFound)
      ensures r.Failure? ==>
        r.error == LicensePlateRequired || r.error == TimestampRequired || r.error == TicketNotFound || r.error == InvalidExitTime
      ensures r.Failure? ==> unchanged(old(ticketRepository.tickets.Values)) && unchanged(old(spotRepository.spots))
      ensures r.Success? <==>
        && licensePlate != "" && exitTimestamp != 0
        && old(ticketRepository.FindEntryTicketByVehicleLicensePlate(licensePlate)).Some?
        && old(ticketRepository.FindEntryTicketByVehicleLicensePlate(licensePlate)).value.entryTimestamp <= exitTimestamp
      ensures r.Success? ==>
        && old(RegisteredVehicle(vehicleRepository, licensePlate)).Some?
        && var ticket := old(ticketRepository.FindEntryTicketByVehicleLicensePlate(licensePlate)).value;
           && ticket.exitTimestamp == Some(exitTimestamp) && ticket.price == r.value
           && r.value == pricingStrategy.CalculateCharge(old(RegisteredVehicle(vehicleRepository, licensePlate)).value.vehicleType,
                                                         DurationHours(ticket.entryTimestamp, exitTimestamp))
           && ticket.assignedSpot.vehicle == null && ticket.assignedSpot.available
      ensures (licensePlate != "" && exitTimestamp != 0 &&
               old(ticketRepository.FindEntryTicketByVehicleLicensePlate(licensePlate)).Some? &&
               old(ticketRepository.FindEntryTicketByVehicleLicensePlate(licensePlate)).value.entryTimestamp == exitTimestamp) ==>
        r == Success(0.0)
    {
      if licensePlate == "" {
        return Failure(LicensePlateRequired);
      }
      if exitTimestamp == 0 {
        return Failure(TimestampRequired);
      }
      var ticket := ticketRepository.FindEntryTicketByVehicleLicensePlate(licensePlate);
      if ticket.None? {
        return Failure(TicketNotFound);
      }
      OpenTicketVehicleRegistered(spotRepository, ticketRepository, vehicleRepository, ticket.value);
      var vehicle := RegisteredVehicle(vehicleRepository, licensePlate).value;
      r := Depart(vehicle, ticket.value, exitTimestamp);
    }

    /** The exit step of `unParkVehicle` for a registered vehicle and its open ticket, whose spot is the
        one holding the vehicle: an exit before the entry is refused and changes nothing; otherwise the
        ticket is closed, priced at the vehicle type's rate times the hours stayed, and the spot freed. */
    method Depart(vehicle: Vehicle, ticket: Ticket, exitTimestamp: int) returns (r: Result<real, Error>)
      requires Valid()
      requires vehicle in vehicleRepository.vehicles.Values && ticket in ticketRepository.tickets.Values
      requires ticket.IsOpen() && ticket.licensePlate == vehicle.licensePlate
      modifies ticket, ticket.assignedSpot
      ensures Valid()
      ensures r.Success? <==> ticket.entryTimestamp <= exitTimestamp
      ensures r.Failure? ==> r.error == InvalidExitTime && unchanged(ticket, ticket.assignedSpot)
      ensures r.Success? ==>
        && ticket.exitTimestamp == Some(exitTimestamp) && ticket.price == r.value
        && r.value == pricingStrategy.CalculateCharge(vehicle.vehicleType, DurationHours(ticket.entryTimestamp, exitTimestamp))
        && ticket.assignedSpot.vehicle == null && ticket.assignedSpot.available
    {
      OpenTicketSpotHoldsVehicle(spotRepository, ticketRepository, vehicleRepository, vehicle, ticket);
      var spot := spotRepository.FindSpotByVehicle(vehicle).value;
      assert spot == ticket.assignedSpot;
      var closed := Close(vehicle, ticket, exitTimestamp);
      if closed.Fail? {
        return Failure(closed.error);
      }
      var charge := Settle(vehicle, ticket, spot, exitTimestamp);
      return Success(charge);
    }

    /** The charging step of `unParkVehicle` for a registered vehicle, its closed ticket and the spot
        holding it: the charge is the vehicle type's rate times the hours stayed, the ticket takes it as
        its price, and the spot is freed. */
    method Settle(vehicle: Vehicle, ticket: Ticket, spot: Spot, exitTimestamp: int) returns (charge: real)
      requires Valid()
      requires ticket in ticketRepository.tickets.Values && ticket.exitTimestamp == Some(exitTimestamp)
      requires spot in spotRepository.spots && spot.vehicle == vehicle
      requires NoOpenTicketFor(ticketRepository.tickets, vehicle.licensePlate)
      modifies ticket, spot
      ensures Valid()
      ensures charge == pricingStrategy.CalculateCharge(vehicle.vehicleType, DurationHours(ticket.entryTimestamp, exitTimestamp))
      ensures ticket.price == charge && ticket.exitTimestamp == Some(exitTimestamp)
      ensures spot.vehicle == null && spot.available
    {
      var duration := DurationHours(ticket.entryTimestamp, exitTimestamp);
      charge := pricingStrategy.CalculateCharge(vehicle.vehicleType, duration);
      RecordCharge(ticket, charge);
      Vacate(vehicle, spot);
    }

    /** The closing step of `unParkVehicle` (the ticket log's `setExitTimestamp`): an exit before the entry
        is refused and changes nothing; otherwise the ticket is closed, and its plate, which had no other
        open ticket, now has none. */
    method Close(vehicle: Vehicle, ticket: Ticket, exitTimestamp: int) returns (r: Outcome<Error>)
      requires Valid()
      requires ticket in ticketRepository.tickets.Values && ticket.IsOpen() && ticket.licensePlate == vehicle.licensePlate
      modifies ticket
      ensures Valid()
      ensures r.Pass? <==> ticket.entryTimestamp <= exitTimestamp
      ensures r.Fail? ==> r.error == InvalidExitTime && unchanged(ticket)
      ensures r.Pass? ==> ticket.exitTimestamp == Some(exitTimestamp) && ticket.price == old(ticket.price)
      ensures r.Pass? ==> NoOpenTicketFor(ticketRepository.tickets, vehicle.licensePlate)
    {
      assert forall u :: u in ticketRepository.tickets.Values && u != ticket && u.IsOpen() ==> u.licensePlate != vehicle.licensePlate by {
        forall u | u in ticketRepository.tickets.Values && u != ticket && u.IsOpen()
          ensures u.licensePlate != vehicle.licensePlate
        {
          var a :| a in ticketRepository.tickets && ticketRepository.tickets[a] == u;
          var b :| b in ticketRepository.tickets && ticketRepository.tickets[b] == ticket;
        }
      }
      r := ticketRepository.SetExitTimestamp(ticket, exitTimestamp);
    }

    /** The pricing step of `unParkVehicle` (the ticket log's `setTicketPrice`): a closed ticket takes the
        charge, whatever its sign; nothing else changes. */
    method RecordCharge(ticket: Ticket, charge: real)
      requires Valid()
      requires ticket in ticketRepository.tickets.Values && !ticket.IsOpen()
      modifies ticket
      ensures Valid()
      ensures ticket.price == charge && ticket.exitTimestamp == old(ticket.exitTimestamp)
    {
      ticketRepository.SetTicketPrice(ticket, charge);
    }

    /** The freeing step of `unParkVehicle`: the vehicle's spot becomes empty and available. No open
        ticket names the spot, since the vehicle's plate has none. */
    method Vacate(vehicle: Vehicle, spot: Spot)
      requires Valid()
      requires spot in spotRepository.spots && spot.vehicle == vehicle
      requires NoOpenTicketFor(ticketRepository.tickets, vehicle.licensePlate)
      modifies spot
      ensures Valid()
      ensures spot.vehicle == null && spot.available
    {
      assert forall u :: u in ticketRepository.tickets.Values && u.IsOpen() ==> u.assignedSpot != spot;
      spot.SetVehicle(null);
      spot.SetAvailable(true);
    }

    /** `setSpotNewPrice`: rejects an empty type name, a zero price and a negative price, then a name
        that is no vehicle type, changing nothing; otherwise that type's rate becomes the new price,
        which is then the charge for one hour. */
    method SetSpotNewPrice(vehicleType: string, newPrice: real) returns (r: Outcome<Error>)
      requires Valid()
      modifies pricingStrategy
      ensures Valid()
      ensures vehicleType == "" ==> r == Fail(SpotSizeRequired)
      ensures vehicleType != "" && newPrice == 0.0 ==> r == Fail(PriceRequired)
      ensures vehicleType != "" && newPrice < 0.0 ==> r == Fail(PriceNotPositive)
      ensures vehicleType != "" && newPrice > 0.0 && VehicleTypeNamed(vehicleType).None? ==> r == Fail(VehicleTypeInvalid)
      ensures r.Pass? <==> vehicleType != "" && newPrice > 0.0 && VehicleTypeNamed(vehicleType).Some?
      ensures r.Fail? ==> pricingStrategy.pricing == old(pricingStrategy.pricing)
      ensures r.Pass? ==>
        && pricingStrategy.pricing == old(pricingStrategy.pricing)[VehicleTypeNamed(vehicleType).value := newPrice]
        && pricingStrategy.CalculateCharge(VehicleTypeNamed(vehicleType).value, 1.0) == newPrice
    {
      if vehicleType == "" {
        return Fail(SpotSizeRequired);
      }
      var check := PriceCheck(newPrice);
      if check.Fail? {
        return check;
      }
      var named := VehicleTypeNamed(vehicleType);
      if named.None? {
        return Fail(VehicleTypeInvalid);
      }
      pricingStrategy.SetSpotPrice(named.value, newPrice);
      return Pass;
    }
  }
}
