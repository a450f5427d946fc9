/** services/TicketService.js: issuing tickets, closing them, pricing them, and the stay duration. */
module TicketServices {
  import opened Wrappers
  import opened Errors
  import opened VehicleEntity
  import opened SpotEntity
  import opened TicketEntity
  import opened TicketRepo
  import opened Pricing

  /** Milliseconds in an hour. */
  const MillisPerHour: real := 3600000.0

  /** Hours from `entryTimestamp` to `exitTimestamp`, both in milliseconds. */
  function DurationHours(entryTimestamp: int, exitTimestamp: int): (r: real)
    ensures exitTimestamp >= entryTimestamp ==> r >= 0.0
    ensures r == 0.0 <==> exitTimestamp == entryTimestamp
    ensures r * MillisPerHour == (exitTimestamp - entryTimestamp) as real
  {
    (exitTimestamp - entryTimestamp) as real / MillisPerHour
  }

  /** Durations of consecutive intervals add up. */
  lemma DurationAdds(a: int, b: int, c: int)
    ensures DurationHours(a, b) + DurationHours(b, c) == DurationHours(a, c)
  {
  }

  /** The ticket service over its ticket log. */
  class TicketService {
    const ticketRepository: TicketRepository

    constructor (ticketRepository: TicketRepository)
      ensures this.ticketRepository == ticketRepository
    {
      this.ticketRepository := ticketRepository;
    }

    /** `createTicket`: logs a new open ticket for the vehicle's plate, the entry time and the spot.
        The source also demands that the spot still be available, which fails for the spot its only
        caller has just bound; the ticket is meant to be issued after binding, so that check is not kept. */
    method CreateTicket(vehicle: Vehicle, entryTimestamp: int, assignedSpot: Spot) returns (ticket: Ticket)
      requires ticketRepository.Valid()
      modifies ticketRepository
      ensures ticketRepository.Valid() && fresh(ticket)
      ensures ticket.licensePlate == vehicle.licensePlate && ticket.entryTimestamp == entryTimestamp
      ensures ticket.assignedSpot == assignedSpot && ticket.IsOpen() && ticket.price == 0.0
      ensures ticket.ticketId == old(ticketRepository.autoIncrement)
      ensures forall k :: k in old(ticketRepository.tickets) ==> k < ticket.ticketId
      ensures ticketRepository.tickets == old(ticketRepository.tickets)[ticket.ticketId := ticket]
      ensures ticketRepository.autoIncrement == old(ticketRepository.autoIncrement) + 1
      ensures OpenPlatesUnique(ticketRepository.tickets) <==>
        old(OpenPlatesUnique(ticketRepository.tickets) && NoOpenTicketFor(ticketRepository.tickets, vehicle.licensePlate))
      ensures ClosedTicketsOrdered(ticketRepository.tickets) == old(ClosedTicketsOrdered(ticketRepository.tickets))
    {
      ticket := ticketRepository.AddTicket(vehicle.licensePlate, entryTimestamp, assignedSpot);
    }

    /** `findTicketByVehicleForExit`: the open ticket of the vehicle's plate, if any. (As written the
        source first tests `get_type()`, which is always `undefined`, and so always throws.) */
    function FindTicketByVehicleForExit(vehicle: Vehicle): (r: Option<Ticket>)
      requires ticketRepository.Valid()
      reads ticketRepository, ticketRepository.tickets.Values
      ensures r.Some? ==> r.value in ticketRepository.tickets.Values
      ensures r.Some? ==> r.value.licensePlate == vehicle.licensePlate && r.value.IsOpen()
      ensures r.None? <==> forall t :: t in ticketRepository.tickets.Values ==>
                             !(t.licensePlate == vehicle.licensePlate && t.IsOpen())
    {
      ticketRepository.FindEntryTicketByVehicleLicensePlate(vehicle.licensePlate)
    }

    /** `findTicketBySpot`: an empty spot is associated with no ticket; otherwise the open ticket of the
        occupant's plate, if any. */
    function FindTicketBySpot(spot: Spot): (r: Result<Option<Ticket>, Error>)
      requires ticketRepository.Valid()
      reads spot, ticketRepository, ticketRepository.tickets.Values
      ensures r.Failure? <==> spot.vehicle == null
      ensures r.Failure? ==> r.error == SpotNotAssociated
      ensures r.Success? && r.value.Some? ==> r.value.value in ticketRepository.tickets.Values
      ensures r.Success? && r.value.Some? ==>
                r.value.value.licensePlate == spot.vehicle.licensePlate && r.value.value.IsOpen()
      ensures r.Success? ==> (r.value.None? <==> forall t :: t in ticketRepository.tickets.Values ==>
                               !(t.licensePlate == spot.vehicle.licensePlate && t.IsOpen()))
    {
      if spot.vehicle == null then Failure(SpotNotAssociated)
      else Success(ticketRepository.FindEntryTicketByVehicleLicensePlate(spot.vehicle.licensePlate))
    }

    /** `addExitTime`: closes the ticket through the log's checks and returns that same ticket. */
    method AddExitTime(ticket: Ticket, exitTimestamp: int) returns (r: Result<Ticket, Error>)
      modifies ticket
      ensures r.Success? <==> old(ExitCheck(ticket, exitTimestamp)) == Pass
      ensures r.Failure? ==> old(ExitCheck(ticket, exitTimestamp)) == Fail(r.error)
      ensures r.Failure? ==> unchanged(ticket)
      ensures r.Success? ==> r.value == ticket && ticket.exitTimestamp == Some(exitTimestamp)
      ensures r.Success? ==> ticket.entryTimestamp <= exitTimestamp
      ensures ticket.price == old(ticket.price)
    {
      var outcome := ticketRepository.SetExitTimestamp(ticket, exitTimestamp);
      if outcome.Fail? {
        return Failure(outcome.error);
      }
      return Success(ticket);
    }

    /** `addPrice`: rejects a zero ("missing") or negative price; otherwise sets only the price and
        returns the same ticket. */
    method AddPrice(ticket: Ticket, price: real) returns (r: Result<Ticket, Error>)
      modifies ticket
      ensures r.Success? <==> price > 0.0
      ensures r.Failure? ==> PriceCheck(price) == Fail(r.error) && ticket.price == old(ticket.price)
      ensures r.Success? ==> r.value == ticket && ticket.price == price
      ensures ticket.exitTimestamp == old(ticket.exitTimestamp)
    {
      var check := PriceCheck(price);
      if check.Fail? {
        return Failure(check.error);
      }
      ticketRepository.SetTicketPrice(ticket, price);
      return Success(ticket);
    }

    /** `calculateDuration`: hours from entry to exit of a closed ticket. On an open ticket the source
        subtracts from `null`, which counts as 0. */
    function CalculateDuration(ticket: Ticket): (r: real)
      reads ticket
      ensures !ticket.IsOpen() && ticket.exitTimestamp.value >= ticket.entryTimestamp ==> r >= 0.0
      ensures !ticket.IsOpen() ==> (r == 0.0 <==> ticket.exitTimestamp.value == ticket.entryTimestamp)
      ensures !ticket.IsOpen() ==> r * MillisPerHour == (ticket.exitTimestamp.value - ticket.entryTimestamp) as real
    {
      match ticket.exitTimestamp
      case Some(exit) => DurationHours(ticket.entryTimestamp, exit)
      case None => DurationHours(ticket.entryTimestamp, 0)
    }
  }
}
