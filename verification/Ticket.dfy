/** entities/Ticket.js: the record of one parking episode. */
module TicketEntity {
  import opened Wrappers
  import opened SpotEntity

  /** A ticket. Id, plate, entry time and assigned spot have no setters; the exit
      timestamp (None until the vehicle leaves) and the price are set in place. */
  class Ticket {
    const ticketId: nat
    const licensePlate: string
    const entryTimestamp: int
    const assignedSpot: Spot
    var exitTimestamp: Option<int>
    var price: real

    constructor (ticketId: nat, licensePlate: string, entryTimestamp: int, assignedSpot: Spot)
      ensures this.ticketId == ticketId && this.licensePlate == licensePlate
      ensures this.entryTimestamp == entryTimestamp && this.assignedSpot == assignedSpot
      ensures exitTimestamp == None && price == 0.0
    {
      this.ticketId := ticketId;
      this.licensePlate := licensePlate;
      this.entryTimestamp := entryTimestamp;
      this.assignedSpot := assignedSpot;
      exitTimestamp := None;
      price := 0.0;
    }

    /** A ticket is open while its exit timestamp is unset. */
    predicate IsOpen()
      reads this
    {
      exitTimestamp.None?
    }

    /** `set_exitTimestamp`: changes the exit timestamp and nothing else. */
    method SetExitTimestamp(exitTimestamp: int)
      modifies this
      ensures this.exitTimestamp == Some(exitTimestamp) && price == old(price)
    {
      this.exitTimestamp := Some(exitTimestamp);
    }

    /** `set_price`: changes the price and nothing else. */
    method SetPrice(price: real)
      modifies this
      ensures this.price == price && exitTimestamp == old(exitTimestamp)
    {
      this.price := price;
    }
  }
}
