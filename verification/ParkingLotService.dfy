/** services/ParkingLotService.js: the facility as the services compose it. Levels and their spots,
    parking with first-fit allocation and ticketing, unparking with charging, and the rate update. */
module LotService {
  import opened Wrappers
  import opened Errors
  import opened VehicleEntity
  import opened SpotEntity
  import opened TicketEntity
  import opened LevelEntity
  import opened SpotRepo
  import opened LevelRepo
  import opened TicketRepo
  import opened VehicleRepo
  import opened SpotServices
  import opened Pricing
  import opened TicketServices
  import opened VehicleServices
  import opened Allocation
  import opened Facility

  /** The checks `setSpotNewPrice` makes as written, followed by those of the pricing service's
      `setSpotPrice`: the name must be a spot size, and then a vehicle type. */
  function SetSpotNewPriceChecksAsWritten(spotSize: string, newPrice: real): Outcome<Error>
  {
    if spotSize == "" then Fail(SpotSizeRequired)
    else if PriceCheck(newPrice).Fail? then PriceCheck(newPrice)
    else if SpotSizeNamed(spotSize).None? then Fail(SpotSizeInvalid)
    else if VehicleTypeNamed(spotSize).None? then Fail(VehicleTypeInvalid)
    else Pass
  }

  /** As written, the only rate that can ever be updated is the motorcycle's: the name has to be both a
      spot size and a vehicle type. The car and bus rates are refused. */
  lemma SetSpotNewPriceAsWrittenOnlyMotorcycle(name: string, newPrice: real)
    ensures SetSpotNewPriceChecksAsWritten(name, newPrice) == Pass <==> name == "MOTORCYCLE" && newPrice > 0.0
    ensures newPrice > 0.0 ==> SetSpotNewPriceChecksAsWritten("CAR", newPrice) == Fail(SpotSizeInvalid)
    ensures newPrice > 0.0 ==> SetSpotNewPriceChecksAsWritten("BUS", newPrice) == Fail(SpotSizeInvalid)
  {
  }

  /** As written, `unParkVehicle` hands the charge to `addPrice`, which refuses 0: leaving at the very
      instant of entry is refused, whatever the rate, after the ticket has already been closed. */
  lemma ZeroStayRefusedAsWritten(rate: real, timestamp: int)
    ensures PriceCheck(rate * DurationHours(timestamp, timestamp)) == Fail(PriceRequired)
  {
  }

  class ParkingLotService {
    const spotService: SpotService
    const ticketService: TicketService
    const vehicleService: VehicleService
    const pricingService: PricingService
    const pakingLotRepository: PakingLotRepository

    /** The stores behind the services. */
    function Spots(): SpotRepository { spotService.spotRepository }
    function Tickets(): TicketRepository { ticketService.ticketRepository }
    function Vehicles(): VehicleRepository { vehicleService.vehicleRepository }

    /** The facility invariants over the stores. */
    ghost predicate Valid()
      reads pakingLotRepository, pakingLotRepository.levels, Spots(), Spots().spots
      reads Tickets(), Tickets().tickets.Values, Vehicles()
    {
      Consistent(pakingLotRepository, Spots(), Tickets(), Vehicles())
    }

    /** The level store is new and shares the spot service's store. The services' stores are
        expected to agree with one another (as they do when all start empty). */
    constructor (spotService: SpotService, ticketService: TicketService, vehicleService: VehicleService,
                 pricingService: PricingService)
      requires StoresConsistent(spotService.spotRepository, ticketService.ticketRepository, vehicleService.vehicleRepository)
      ensures Valid() && fresh(pakingLotRepository) && pakingLotRepository.levels == []
      ensures this.spotService == spotService && this.ticketService == ticketService
      ensures this.vehicleService == vehicleService && this.pricingService == pricingService
    {
      this.spotService := spotService;
      this.ticketService := ticketService;
      this.vehicleService := vehicleService;
      this.pricingService := pricingService;
      pakingLotRepository := new PakingLotRepository(spotService.spotRepository);
    }

    /** `addPakingLevel`: adds an empty level and returns its number, one more than the number of
        levels created before. */
    method AddPakingLevel() returns (levelNumber: nat)
      requires Valid()
      modifies pakingLotRepository
      ensures Valid()
      ensures levelNumber == |old(pakingLotRepository.levels)| + 1
      ensures |pakingLotRepository.levels| == levelNumber
      ensures pakingLotRepository.levels[..levelNumber - 1] == old(pakingLotRepository.levels)
      ensures pakingLotRepository.FindPakingLevelByLevelNumber(levelNumber).Some?
      ensures pakingLotRepository.levels[levelNumber - 1].rows == []
    {
      var level := AddLevel(pakingLotRepository, Spots(), Tickets(), Vehicles());
      levelNumber := level.levelNumber;
    }

    /** `getParkingLevel`: the level slots in creation order; slot i holds level i + 1. */
    function GetParkingLevel(): (r: seq<ParkingLevel?>)
      requires Valid()
      reads pakingLotRepository, pakingLotRepository.levels, Spots(), Spots().spots
      reads Tickets(), Tickets().tickets.Values, Vehicles()
      ensures |r| == pakingLotRepository.autoIncrement - 1
      ensures forall i :: 0 <= i < |r| && r[i] != null ==> r[i].levelNumber == i + 1
      ensures forall i :: 0 <= i < |r| ==> (r[i] != null <==> pakingLotRepository.FindPakingLevelByLevelNumber(i + 1).Some?)
      ensures forall i :: 0 <= i < |r| && r[i] != null ==> pakingLotRepository.FindPakingLevelByLevelNumber(i + 1).value == r[i]
    {
      pakingLotRepository.FindAllPakingLevel()
    }

    /** `getSpotInLevel`: rejects level 0, then a missing level; otherwise the level's spots, all of
        them in the spot store. */
    function GetSpotInLevel(levelNumber: int): (r: Result<seq<Spot>, Error>)
      reads pakingLotRepository, pakingLotRepository.levels, Spots(), Spots().spots
      reads Tickets(), Tickets().tickets.Values, Vehicles()
      ensures levelNumber == 0 ==> r == Failure(LevelNumberRequired)
      ensures levelNumber != 0 && pakingLotRepository.FindPakingLevelByLevelNumber(levelNumber).None? ==> r == Failure(LevelNotFound)
      ensures r.Success? ==> pakingLotRepository.FindPakingLevelByLevelNumber(levelNumber).Some?
      ensures r.Success? ==> r.value == pakingLotRepository.FindPakingLevelByLevelNumber(levelNumber).value.rows
      ensures Valid() && r.Success? ==> forall s :: s in r.value ==> s in Spots().spots
    {
      if levelNumber == 0 then Failure(LevelNumberRequired)
      else match pakingLotRepository.FindPakingLevelByLevelNumber(levelNumber)
        case None => Failure(LevelNotFound)
        case Some(level) =>
          assert forall s :: s in level.rows ==> s in SpotsOf(pakingLotRepository.levels);
          Success(level.rows)
    }

    /** `addSpotInLevelByVehicleType`: the checks in the source's order (level number 0, empty size,
        count 0, negative count, unknown size, missing level), none of which changes anything; then
        exactly `noOfSpots` new available, empty spots of that size are added to the level and to the
        spot store. */
    method AddSpotInLevelByVehicleType(levelNumber: int, spotSize: string, noOfSpots: int) returns (r: Outcome<Error>)
      requires Valid()
      modifies Spots(), pakingLotRepository.LevelsNumbered(levelNumber)
      ensures Valid()
      ensures levelNumber == 0 ==> r == Fail(LevelNumberRequired)
      ensures levelNumber != 0 && spotSize == "" ==> r == Fail(SpotSizeRequired)
      ensures levelNumber != 0 && spotSize != "" && noOfSpots == 0 ==> r == Fail(NoOfSpotsRequired)
      ensures levelNumber != 0 && spotSize != "" && noOfSpots < 0 ==> r == Fail(NoOfSpotsNotPositive)
      ensures levelNumber != 0 && spotSize != "" && noOfSpots > 0 && SpotSizeNamed(spotSize).None? ==> r == Fail(SpotSizeInvalid)
      ensures r.Pass? <==>
        && levelNumber != 0 && spotSize != "" && noOfSpots > 0 && SpotSizeNamed(spotSize).Some?
        && old(pakingLotRepository.FindPakingLevelByLevelNumber(levelNumber)).Some?
      ensures levelNumber != 0 && spotSize != "" && noOfSpots > 0 && SpotSizeNamed(spotSize).Some? &&
              old(pakingLotRepository.FindPakingLevelByLevelNumber(levelNumber)).None?
              ==> r == Fail(LevelNotFound)
      ensures r.Fail? ==> Spots().spots == old(Spots().spots)
      ensures r.Fail? ==> forall l :: l in pakingLotRepository.levels && l != null ==> l.rows == old(l.rows)
      ensures r.Pass? ==> |Spots().spots| == |old(Spots().spots)| + noOfSpots
      ensures r.Pass? ==>
        var level := pakingLotRepository.levels[levelNumber - 1];
        var added := Spots().spots[|old(Spots().spots)|..];
        && Spots().spots == old(Spots().spots) + added
        && level.rows == old(level.rows) + added
        && forall k :: 0 <= k < |added| ==>
             && fresh(added[k]) && added[k].size.Name() == spotSize && added[k].level == levelNumber
             && added[k].available && added[k].vehicle == null
    {
      if levelNumber == 0 {
        return Fail(LevelNumberRequired);
      }
      if spotSize == "" {
        return Fail(SpotSizeRequired);
      }
      if noOfSpots == 0 {
        return Fail(NoOfSpotsRequired);
      }
      if noOfSpots <= 0 {
        return Fail(NoOfSpotsNotPositive);
      }
      var size := SpotSizeNamed(spotSize);
      if size.None? {
        return Fail(SpotSizeInvalid);
      }
      var found := pakingLotRepository.FindPakingLevelByLevelNumber(levelNumber);
      if found.None? {
        return Fail(LevelNotFound);
      }
      GrowLevel(pakingLotRepository, Spots(), Tickets(), Vehicles(), found.value, size.value, noOfSpots);
      return Pass;
    }

    /** `parkVehicle`: rejects an empty plate, then an empty type name. A plate not yet registered is
        registered with that type, which must name a vehicle type; a registered vehicle keeps its own
        type. A vehicle already in a spot is refused. Otherwise the vehicle takes the first spot of the
        first-fit search (levels in creation order, spots in order), and a new open ticket is issued
        for it; when no spot fits, nothing but the registration has changed. The invariants are kept,
        and the search never meets an occupied available spot. */
    method ParkVehicle(licensePlate: string, vehicleType: string, entryTimestamp: int) returns (r: Result<Ticket, Error>)
      requires Valid()
      modifies Vehicles(), Tickets(), Spots().spots
      ensures Valid()
      ensures licensePlate == "" ==> r == Failure(LicensePlateRequired)
      ensures licensePlate != "" && entryTimestamp == 0 ==> r == Failure(TimestampRequired)
      ensures licensePlate != "" && entryTimestamp != 0 && vehicleType == "" ==> r == Failure(VehicleTypeRequired)
      ensures (licensePlate != "" && entryTimestamp != 0 && vehicleType != "" && old(RegisteredVehicle(Vehicles(), licensePlate)).None? &&
               VehicleTypeNamed(vehicleType).None?) ==> r == Failure(VehicleTypeInvalid)
      ensures r.Failure? ==> r.error != SpotOccupied
      ensures r.Success? ==>
        && fresh(r.value) && r.value.IsOpen() && r.value.licensePlate == licensePlate
        && r.value.entryTimestamp == entryTimestamp
        && r.value.assignedSpot in Spots().spots
        && r.value.assignedSpot.vehicle != null && r.value.assignedSpot.vehicle.licensePlate == licensePlate
    {
      if licensePlate == "" {
        return Failure(LicensePlateRequired);
      }
      if entryTimestamp == 0 {
        return Failure(TimestampRequired);
      }
      if vehicleType == "" {
        return Failure(VehicleTypeRequired);
      }
      var vehicle := RegisterIfNew(licensePlate, vehicleType);
      if vehicle.Failure? {
        return Failure(vehicle.error);
      }
      r := ParkRegistered(vehicle.value, entryTimestamp);
    }

    /** The binding step of `parkVehicle`: the candidate spot takes the vehicle, and the ticket is issued.
        The vehicle is registered and in no spot, so its plate has no open ticket yet. */
    method ParkAt(vehicle: Vehicle, spot: Spot, entryTimestamp: int) returns (ticket: Ticket)
      requires Valid()
      requires vehicle in Vehicles().vehicles.Values
      requires forall s :: s in Spots().spots ==> s.vehicle != vehicle
      requires spot in SpotsOf(pakingLotRepository.levels) && IsCandidate(spot, vehicle.vehicleType)
      modifies Tickets(), spot
      ensures Valid()
      ensures fresh(ticket) && ticket.IsOpen()
      ensures ticket.licensePlate == vehicle.licensePlate && ticket.entryTimestamp == entryTimestamp
      ensures ticket.ticketId == old(Tickets().autoIncrement)
      ensures Tickets().tickets == old(Tickets().tickets)[ticket.ticketId := ticket]
      ensures Tickets().autoIncrement == old(Tickets().autoIncrement) + 1
      ensures ticket.assignedSpot == spot && spot.vehicle == vehicle && !spot.available
    {
      Occupy(vehicle, spot);
      ticket := IssueTicket(vehicle, spot, entryTimestamp);
    }

    /** The spot step of `parkVehicle` (the spot service's `parkVehicle`): the candidate spot takes the
        vehicle. A parked vehicle needs no ticket for the invariants to hold, and since the vehicle was
        in no spot its plate has no open ticket. */
    method Occupy(vehicle: Vehicle, spot: Spot)
      requires Valid()
      requires vehicle in Vehicles().vehicles.Values
      requires forall s :: s in Spots().spots ==> s.vehicle != vehicle
      requires spot in SpotsOf(pakingLotRepository.levels) && IsCandidate(spot, vehicle.vehicleType)
      modifies spot
      ensures Valid()
      ensures spot in Spots().spots && spot.vehicle == vehicle && !spot.available
      ensures NoOpenTicketFor(Tickets().tickets, vehicle.licensePlate)
    {
      UnparkedHasNoOpenTicket(Spots(), Tickets(), Vehicles(), vehicle);
      assert forall t :: t in Tickets().tickets.Values && t.IsOpen() ==> t.assignedSpot != spot;
      var parked := spotService.Park(spot, vehicle);
      assert OpenTicketsHeld(Tickets().tickets, Spots().spots);
    }

    /** The ticket step of `parkVehicle` (the ticket service's `createTicket`): a new open ticket for the
        occupied spot, under the next id. Its plate had no open ticket, so each plate still has at most one. */
    method IssueTicket(vehicle: Vehicle, spot: Spot, entryTimestamp: int) returns (ticket: Ticket)
      requires Valid()
      requires spot in Spots().spots && spot.vehicle == vehicle
      requires NoOpenTicketFor(Tickets().tickets, vehicle.licensePlate)
      modifies Tickets()
      ensures Valid()
      ensures fresh(ticket) && ticket.IsOpen() && ticket.assignedSpot == spot
      ensures ticket.licensePlate == vehicle.licensePlate && ticket.entryTimestamp == entryTimestamp
      ensures ticket.ticketId == old(Tickets().autoIncrement)
      ensures Tickets().tickets == old(Tickets().tickets)[ticket.ticketId := ticket]
      ensures Tickets().autoIncrement == old(Tickets().autoIncrement) + 1
    {
      ghost var issued := Tickets().tickets;
      ticket := ticketService.CreateTicket(vehicle, entryTimestamp, spot);
      IssueKeepsTicketsHeld(issued, Spots().spots, ticket.ticketId, ticket);
    }

    /** `parkVehicle` once the vehicle is known and registered: refused when it already occupies a spot;
        otherwise it takes the first spot of the first-fit search, or is refused when none fits. Only a
        successful call changes anything. */
    method ParkRegistered(vehicle: Vehicle, entryTimestamp: int) returns (r: Result<Ticket, Error>)
      requires Valid() && vehicle in Vehicles().vehicles.Values
      modifies Tickets(), Spots().spots
      ensures Valid()
      ensures old(Spots().FindSpotByVehicle(vehicle)).Some? ==> r == Failure(AlreadyParked)
      ensures r == Failure(NoSpotAvailable) <==>
        old(Spots().FindSpotByVehicle(vehicle)).None? && old(FirstFitSpot(pakingLotRepository.levels, vehicle.vehicleType)).None?
      ensures r.Failure? ==> r.error == AlreadyParked || r.error == NoSpotAvailable
      ensures r.Failure? ==> Tickets().tickets == old(Tickets().tickets) && Tickets().autoIncrement == old(Tickets().autoIncrement)
      ensures r.Failure? ==> forall s :: s in Spots().spots ==> s.vehicle == old(s.vehicle) && s.available == old(s.available)
      ensures r.Success? ==>
        && fresh(r.value) && r.value.IsOpen() && r.value.licensePlate == vehicle.licensePlate
        && r.value.entryTimestamp == entryTimestamp
        && r.value.ticketId == old(Tickets().autoIncrement)
        && Tickets().tickets == old(Tickets().tickets)[r.value.ticketId := r.value]
        && Tickets().autoIncrement == old(Tickets().autoIncrement) + 1
        && Some(r.value.assignedSpot) == old(FirstFitSpot(pakingLotRepository.levels, vehicle.vehicleType))
        && r.value.assignedSpot in Spots().spots
        && r.value.assignedSpot.vehicle == vehicle && !r.value.assignedSpot.available
      ensures r.Success? ==>
        forall s :: s in Spots().spots && s != r.value.assignedSpot ==> s.vehicle == old(s.vehicle) && s.available == old(s.available)
    {
      if Spots().FindSpotByVehicle(vehicle).Some? {
        return Failure(AlreadyParked);
      }
      ScanSucceedsWhenCoherent(pakingLotRepository.levels, vehicle.vehicleType);
      var fit := FindFirstFit(pakingLotRepository.levels, vehicle);
      if fit.value.None? {
        return Failure(NoSpotAvailable);
      }
      var spot := pakingLotRepository.levels[fit.value.value.0].rows[fit.value.value.1];
      var ticket := ParkAt(vehicle, spot, entryTimestamp);
      return Success(ticket);
    }

    /** The registration step of `parkVehicle`: a registered plate yields its vehicle and changes
        nothing; an unknown plate is registered with the named type, which must be a vehicle type. A new
        vehicle occupies no spot and shares no plate, so the invariants are kept. */
    method RegisterIfNew(licensePlate: string, vehicleType: string) returns (r: Result<Vehicle, Error>)
      requires Valid() && licensePlate != ""
      modifies Vehicles()
      ensures Valid()
      ensures unchanged(Spots().spots) && unchanged(SpotsOf(pakingLotRepository.levels))
      ensures r.Success? ==> r.value in Vehicles().vehicles.Values && r.value.licensePlate == licensePlate
      ensures old(RegisteredVehicle(Vehicles(), licensePlate)).Some? ==> r == Success(old(RegisteredVehicle(Vehicles(), licensePlate)).value)
      ensures old(RegisteredVehicle(Vehicles(), licensePlate)).None? && VehicleTypeNamed(vehicleType).None? ==> r == Failure(VehicleTypeInvalid)
      ensures old(RegisteredVehicle(Vehicles(), licensePlate)).None? && VehicleTypeNamed(vehicleType).Some? ==>
        && r.Success? && fresh(r.value) && Some(r.value.vehicleType) == VehicleTypeNamed(vehicleType)
        && Vehicles().vehicles == old(Vehicles().vehicles)[old(Vehicles().autoIncrement) := r.value]
      ensures r.Failure? || old(RegisteredVehicle(Vehicles(), licensePlate)).Some? ==> Vehicles().vehicles == old(Vehicles().vehicles)
    {
      var known := RegisteredVehicle(Vehicles(), licensePlate);
      if known.Some? {
        return Success(known.value);
      }
      ghost var oldVehicles := Vehicles().vehicles;
      ghost var key := Vehicles().autoIncrement;
      r := vehicleService.AddVehicle(licensePlate, vehicleType);
      if r.Success? {
        RegistrationKeepsPlatesDistinct(Spots().spots, oldVehicles, key, r.value);
        assert r.value == Vehicles().vehicles[key];
      }
    }

    /** `unParkVehicle`: rejects an empty plate, a zero exit time, an unregistered plate and a plate with
        no open ticket, changing nothing. Otherwise the ticket is closed at the exit time (an exit before
        the entry is refused, changing nothing), and its charge is the rate for the vehicle's type times the
        hours stayed; once the charge is recorded the vehicle leaves its spot. The vehicle of an open ticket
        is always in that ticket's spot, so "vehicle is not parked" never happens. */
    method UnParkVehicle(licensePlate: string, exitTimestamp: int) returns (r: Result<real, Error>)
      requires Valid()
      modifies ExitFrame(licensePlate)
      ensures Valid()
      ensures licensePlate == "" ==> r == Failure(LicensePlateRequired)
      ensures licensePlate != "" && exitTimestamp == 0 ==> r == Failure(TimestampRequired)
      ensures licensePlate != "" && exitTimestamp != 0 && old(RegisteredVehicle(Vehicles(), licensePlate)).None? ==> r == Failure(VehicleNotFound)
      ensures (licensePlate != "" && exitTimestamp != 0 && old(RegisteredVehicle(Vehicles(), licensePlate)).Some? &&
               old(NoOpenTicketFor(Tickets().tickets, licensePlate))) ==> r == Failure(TicketNotFound)
      ensures r.Failure? ==> r.error != NotParked
      ensures r.Failure? && r.error in {LicensePlateRequired, TimestampRequired, VehicleNotFound, TicketNotFound, InvalidExitTime} ==>
        StoresUnchanged()
      ensures r.Failure? && r.error in {PricingNotFound, PriceNotPositive} ==>
        && old(Tickets().FindEntryTicketByVehicleLicensePlate(licensePlate)).Some?
        && var ticket := old(Tickets().FindEntryTicketByVehicleLicensePlate(licensePlate)).value;
           ticket.exitTimestamp == Some(exitTimestamp) && ticket.price == old(ticket.price) && unchanged(ticket.assignedSpot)
      ensures r.Success? <==>
        && licensePlate != "" && exitTimestamp != 0
        && old(RegisteredVehicle(Vehicles(), licensePlate)).Some?
        && old(Tickets().FindEntryTicketByVehicleLicensePlate(licensePlate)).Some?
        && Chargeable(old(RegisteredVehicle(Vehicles(), licensePlate)).value.vehicleType,
                      old(Tickets().FindEntryTicketByVehicleLicensePlate(licensePlate)).value.entryTimestamp, exitTimestamp)
      ensures r.Success? ==>
        && old(RegisteredVehicle(Vehicles(), licensePlate)).Some? && old(Tickets().FindEntryTicketByVehicleLicensePlate(licensePlate)).Some?
        && var ticket := old(Tickets().FindEntryTicketByVehicleLicensePlate(licensePlate)).value;
           && ticket.exitTimestamp == Some(exitTimestamp) && ticket.price == r.value
           && Success(r.value) == pricingService.CalculateCharge(old(RegisteredVehicle(Vehicles(), licensePlate)).value.vehicleType,
                                                                 DurationHours(ticket.entryTimestamp, exitTimestamp))
           && ticket.assignedSpot.vehicle == null && ticket.assignedSpot.available
    {
      if licensePlate == "" {
        return Failure(LicensePlateRequired);
      }
      if exitTimestamp == 0 {
        return Failure(TimestampRequired);
      }
      r := UnParkRegistered(licensePlate, exitTimestamp);
    }

    /** What an unpark of `licensePlate` may change: the plate's open ticket and that ticket's spot. */
    function ExitFrame(licensePlate: string): set<object>
      requires Valid()
      reads pakingLotRepository, pakingLotRepository.levels, Spots(), Spots().spots
      reads Tickets(), Tickets().tickets.Values, Vehicles()
    {
      match Tickets().FindEntryTicketByVehicleLicensePlate(licensePlate)
      case None => {}
      case Some(ticket) => {ticket, ticket.assignedSpot}
    }

    /** Every ticket and every spot of the stores existed in the previous state, and none differs from it
        in any field it has. */
    twostate predicate StoresUnchanged()
      reads Spots(), Tickets(), Tickets().tickets.Values, Spots().spots
    {
      && (forall t :: t in Tickets().tickets.Values ==>
            old(allocated(t)) && t.exitTimestamp == old(t.exitTimestamp) && t.price == old(t.price))
      && (forall s :: s in Spots().spots ==>
            old(allocated(s)) && s.vehicle == old(s.vehicle) && s.available == old(s.available))
    }

    /** Whether a stay of a vehicle of type `vehicleType` from `entryTimestamp` to `exitTimestamp` can be
        charged: the exit is not before the entry, and the rate for the type gives a charge that is defined
        and not negative. */
    predicate Chargeable(vehicleType: VehicleType, entryTimestamp: int, exitTimestamp: int)
      reads pricingService
    {
      && entryTimestamp <= exitTimestamp
      && var charge := pricingService.CalculateCharge(vehicleType, DurationHours(entryTimestamp, exitTimestamp));
         charge.Success? && charge.value >= 0.0
    }

    /** The part of `unParkVehicle` after the plate and exit time are known to be given: the plate must be
        registered and have an open ticket, and the exit then goes through `Release`. */
    method UnParkRegistered(licensePlate: string, exitTimestamp: int) returns (r: Result<real, Error>)
      requires Valid() && licensePlate != "" && exitTimestamp != 0
      modifies ExitFrame(licensePlate)
      ensures Valid()
      ensures old(RegisteredVehicle(Vehicles(), licensePlate)).None? ==> r == Failure(VehicleNotFound)
      ensures old(RegisteredVehicle(Vehicles(), licensePlate)).Some? && old(NoOpenTicketFor(Tickets().tickets, licensePlate)) ==>
        r == Failure(TicketNotFound)
      ensures r.Failure? ==> r.error in {VehicleNotFound, TicketNotFound, InvalidExitTime, PricingNotFound, PriceNotPositive}
      ensures r.Failure? && r.error in {VehicleNotFound, TicketNotFound, InvalidExitTime} ==> StoresUnchanged()
      ensures r.Failure? && r.error in {PricingNotFound, PriceNotPositive} ==>
        && old(Tickets().FindEntryTicketByVehicleLicensePlate(licensePlate)).Some?
        && var ticket := old(Tickets().FindEntryTicketByVehicleLicensePlate(licensePlate)).value;
           ticket.exitTimestamp == Some(exitTimestamp) && ticket.price == old(ticket.price) && unchanged(ticket.assignedSpot)
      ensures r.Success? <==>
        && old(RegisteredVehicle(Vehicles(), licensePlate)).Some?
        && old(Tickets().FindEntryTicketByVehicleLicensePlate(licensePlate)).Some?
        && Chargeable(old(RegisteredVehicle(Vehicles(), licensePlate)).value.vehicleType,
                      old(Tickets().FindEntryTicketByVehicleLicensePlate(licensePlate)).value.entryTimestamp, exitTimestamp)
      ensures r.Success? ==>
        && old(RegisteredVehicle(Vehicles(), licensePlate)).Some? && old(Tickets().FindEntryTicketByVehicleLicensePlate(licensePlate)).Some?
        && var ticket := old(Tickets().FindEntryTicketByVehicleLicensePlate(licensePlate)).value;
           && ticket.exitTimestamp == Some(exitTimestamp) && ticket.price == r.value
           && Success(r.value) == pricingService.CalculateCharge(old(RegisteredVehicle(Vehicles(), licensePlate)).value.vehicleType,
                                                                 DurationHours(ticket.entryTimestamp, exitTimestamp))
           && ticket.assignedSpot.vehicle == null && ticket.assignedSpot.available
    {
      var vehicle := RegisteredVehicle(Vehicles(), licensePlate);
      if vehicle.None? {
        return Failure(VehicleNotFound);
      }
      var ticket := ticketService.FindTicketByVehicleForExit(vehicle.value);
      if ticket.None? {
        return Failure(TicketNotFound);
      }
      assert ticket == Tickets().FindEntryTicketByVehicleLicensePlate(licensePlate);
      r := Release(vehicle.value, ticket.value, exitTimestamp);
    }

    /** The exit step of `unParkVehicle` for a registered vehicle and its open ticket: the ticket's spot is
        the one holding the vehicle. The ticket is closed first (an exit before the entry is refused and
        changes nothing); then the charge is computed, and an unset rate or a negative charge is refused
        with the ticket left closed and the vehicle in place; otherwise the charge, 0 for a stay of no
        time, is recorded and the spot is freed. */
    method Release(vehicle: Vehicle, ticket: Ticket, exitTimestamp: int) returns (r: Result<real, Error>)
      requires Valid()
      requires vehicle in Vehicles().vehicles.Values && ticket in Tickets().tickets.Values
      requires ticket.IsOpen() && ticket.licensePlate == vehicle.licensePlate
      modifies ticket, ticket.assignedSpot
      ensures Valid()
      ensures exitTimestamp < ticket.entryTimestamp ==>
        r == Failure(InvalidExitTime) && ticket.IsOpen() && ticket.assignedSpot.vehicle == vehicle
      ensures ticket.entryTimestamp <= exitTimestamp ==> ticket.exitTimestamp == Some(exitTimestamp)
      ensures (ticket.entryTimestamp <= exitTimestamp &&
               pricingService.CalculateCharge(vehicle.vehicleType, DurationHours(ticket.entryTimestamp, exitTimestamp)).Failure?) ==>
        r == Failure(PricingNotFound)
      ensures r.Success? <==> Chargeable(vehicle.vehicleType, ticket.entryTimestamp, exitTimestamp)
      ensures r.Failure? ==> r.error == InvalidExitTime || r.error == PricingNotFound || r.error == PriceNotPositive
      ensures (exitTimestamp == ticket.entryTimestamp &&
               pricingService.CalculateCharge(vehicle.vehicleType, 0.0).Success?) ==> r == Success(0.0)
      ensures r.Failure? ==> ticket.price == old(ticket.price) && ticket.assignedSpot.vehicle == vehicle
      ensures r.Failure? ==> unchanged(ticket.assignedSpot)
      ensures r == Failure(InvalidExitTime) ==> StoresUnchanged()
      ensures r.Success? ==>
        && Success(r.value) == pricingService.CalculateCharge(vehicle.vehicleType, DurationHours(ticket.entryTimestamp, exitTimestamp))
        && ticket.price == r.value && ticket.assignedSpot.vehicle == null && ticket.assignedSpot.available
    {
      OpenTicketSpotHoldsVehicle(Spots(), Tickets(), Vehicles(), vehicle, ticket);
      var spot := Spots().FindSpotByVehicle(vehicle).value;
      var closed := Close(vehicle, ticket, exitTimestamp);
      if closed.Failure? {
        return Failure(closed.error);
      }
      var duration := ticketService.CalculateDuration(ticket);
      var charge := pricingService.CalculateCharge(vehicle.vehicleType, duration);
      if charge.Failure? {
        return Failure(charge.error);
      }
      if charge.value < 0.0 {
        return Failure(PriceNotPositive);
      }
      RecordCharge(ticket, charge.value);
      Vacate(vehicle, spot);
      return Success(charge.value);
    }

    /** The closing step of `unParkVehicle` (the ticket service's `addExitTime`): an exit before the entry
        is refused and changes nothing; otherwise the ticket is closed, and its plate, which had no other
        open ticket, now has none. */
    method Close(vehicle: Vehicle, ticket: Ticket, exitTimestamp: int) returns (r: Result<Ticket, Error>)
      requires Valid()
      requires ticket in Tickets().tickets.Values && ticket.IsOpen() && ticket.licensePlate == vehicle.licensePlate
      modifies ticket
      ensures Valid()
      ensures r.Success? <==> ticket.entryTimestamp <= exitTimestamp
      ensures r.Failure? ==> r.error == InvalidExitTime && unchanged(ticket)
      ensures r.Success? ==> ticket.exitTimestamp == Some(exitTimestamp)
      ensures r.Success? ==> NoOpenTicketFor(Tickets().tickets, vehicle.licensePlate)
      ensures ticket.price == old(ticket.price)
    {
      assert forall u :: u in Tickets().tickets.Values && u != ticket && u.IsOpen() ==> u.licensePlate != vehicle.licensePlate by {
        forall u | u in Tickets().tickets.Values && u != ticket && u.IsOpen()
          ensures u.licensePlate != vehicle.licensePlate
        {
          var a :| a in Tickets().tickets && Tickets().tickets[a] == u;
          var b :| b in Tickets().tickets && Tickets().tickets[b] == ticket;
        }
      }
      r := ticketService.AddExitTime(ticket, exitTimestamp);
    }

    /** The pricing step of `unParkVehicle` (the ticket log's `setTicketPrice`): a closed ticket takes the
        charge; nothing else changes. */
    method RecordCharge(ticket: Ticket, charge: real)
      requires Valid()
      requires ticket in Tickets().tickets.Values && !ticket.IsOpen()
      modifies ticket
      ensures Valid()
      ensures ticket.price == charge && ticket.exitTimestamp == old(ticket.exitTimestamp)
    {
      ticketService.ticketRepository.SetTicketPrice(ticket, charge);
    }

    /** The freeing step of `unParkVehicle` (the spot service's `unpark`): the vehicle's spot becomes
        empty and available. No open ticket names the spot, since the vehicle's plate has none. */
    method Vacate(vehicle: Vehicle, spot: Spot)
      requires Valid()
      requires spot in Spots().spots && spot.vehicle == vehicle
      requires NoOpenTicketFor(Tickets().tickets, vehicle.licensePlate)
      modifies spot
      ensures Valid()
      ensures spot.vehicle == null && spot.available
    {
      assert forall u :: u in Tickets().tickets.Values && u.IsOpen() ==> u.assignedSpot != spot;
      var freed := spotService.Unpark(spot);
    }

    /** `setSpotNewPrice`: rejects an empty type name, a zero price and a negative price, then an unknown
        vehicle type, changing nothing; otherwise that type's rate becomes the new price, which is what
        `checkPrice` then reports. */
    method SetSpotNewPrice(vehicleType: string, newPrice: real) returns (r: Outcome<Error>)
      requires Valid()
      modifies pricingService
      ensures Valid()
      ensures vehicleType == "" ==> r == Fail(SpotSizeRequired)
      ensures vehicleType != "" && newPrice == 0.0 ==> r == Fail(PriceRequired)
      ensures vehicleType != "" && newPrice < 0.0 ==> r == Fail(PriceNotPositive)
      ensures vehicleType != "" && newPrice > 0.0 && VehicleTypeNamed(vehicleType).None? ==> r == Fail(VehicleTypeInvalid)
      ensures r.Pass? <==> vehicleType != "" && newPrice > 0.0 && VehicleTypeNamed(vehicleType).Some?
      ensures r.Fail? ==> pricingService.pricing == old(pricingService.pricing)
      ensures r.Pass? ==>
        && pricingService.pricing == old(pricingService.pricing)[VehicleTypeNamed(vehicleType).value := newPrice]
        && pricingService.CheckPrice(vehicleType) == Success(newPrice)
    {
      if vehicleType == "" {
        return Fail(SpotSizeRequired);
      }
      var check := PriceCheck(newPrice);
      if check.Fail? {
        return check;
      }
      r := pricingService.SetSpotPrice(vehicleType, newPrice);
    }
  }
}
