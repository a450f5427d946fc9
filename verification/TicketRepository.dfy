/** repositories/TicketRepository.js: the append-only ticket log with auto-incrementing ids. */
module TicketRepo {
  import opened Wrappers
  import opened Errors
  import opened SpotEntity
  import opened TicketEntity
  import opened KeyOrder

  /** Index of the first ticket of `list` with that plate and no exit timestamp. */
  function FirstOpenFor(list: seq<Ticket>, plate: string): (r: Option<nat>)
    reads list
    ensures r.Some? ==> r.value < |list| && list[r.value].licensePlate == plate && list[r.value].IsOpen()
    ensures r.Some? ==> forall k :: 0 <= k < r.value ==> !(list[k].licensePlate == plate && list[k].IsOpen())
    ensures r.None? ==> forall k :: 0 <= k < |list| ==> !(list[k].licensePlate == plate && list[k].IsOpen())
  {
    if list == [] then None
    else if list[0].licensePlate == plate && list[0].IsOpen() then Some(0)
    else match FirstOpenFor(list[1..], plate)
      case None => None
      case Some(k) => Some(k + 1)
  }

  /** The tickets of `list`, in order, with that plate and an exit timestamp. */
  function ClosedFor(list: seq<Ticket>, plate: string): (r: seq<Ticket>)
    reads list
    ensures |r| <= |list|
    ensures forall t :: t in r ==> t in list && t.licensePlate == plate && !t.IsOpen()
    ensures forall t :: t in list && t.licensePlate == plate && !t.IsOpen() ==> t in r
  {
    if list == [] then []
    else
      var rest := ClosedFor(list[1..], plate);
      if list[0].licensePlate == plate && !list[0].IsOpen() then [list[0]] + rest else rest
  }

  /** The checks `setExitTimestamp` makes, in order: the ticket must still be open, and the exit may
      not precede the entry (an exit at the entry instant is allowed). */
  function ExitCheck(ticket: Ticket, exitTimestamp: int): (r: Outcome<Error>)
    reads ticket
    ensures r == Pass <==> ticket.IsOpen() && ticket.entryTimestamp <= exitTimestamp
    ensures !ticket.IsOpen() ==> r == Fail(TicketAlreadyExited)
    ensures ticket.IsOpen() && exitTimestamp < ticket.entryTimestamp ==> r == Fail(InvalidExitTime)
  {
    if !ticket.IsOpen() then Fail(TicketAlreadyExited)
    else if ticket.entryTimestamp > exitTimestamp then Fail(InvalidExitTime)
    else Pass
  }

  /** No plate has two open tickets in `tickets`. */
  ghost predicate OpenPlatesUnique(tickets: map<nat, Ticket>)
    reads tickets.Values
  {
    forall a, b ::
      (a in tickets && b in tickets && tickets[a].IsOpen() && tickets[b].IsOpen() &&
       tickets[a].licensePlate == tickets[b].licensePlate) ==> a == b
  }

  /** No open ticket of `tickets` carries that plate. */
  ghost predicate NoOpenTicketFor(tickets: map<nat, Ticket>, plate: string)
    reads tickets.Values
  {
    forall t :: t in tickets.Values && t.IsOpen() ==> t.licensePlate != plate
  }

  /** A closed ticket never exits before it entered. */
  ghost predicate ClosedTicketsOrdered(tickets: map<nat, Ticket>)
    reads tickets.Values
  {
    forall t :: t in tickets.Values && !t.IsOpen() ==> t.entryTimestamp <= t.exitTimestamp.value
  }

  /** Adding an open ticket under a new id keeps one open ticket per plate exactly when no open
      ticket had its plate, and leaves the closed tickets as they were. */
  lemma AddOpenTicket(tickets: map<nat, Ticket>, k: nat, t: Ticket)
    requires k !in tickets && t.IsOpen()
    ensures OpenPlatesUnique(tickets[k := t]) <==> OpenPlatesUnique(tickets) && NoOpenTicketFor(tickets, t.licensePlate)
    ensures ClosedTicketsOrdered(tickets[k := t]) == ClosedTicketsOrdered(tickets)
  {
    var after := tickets[k := t];
    forall u | u in after.Values
      ensures u == t || u in tickets.Values
    {
      var j :| j in after && after[j] == u;
      if j != k {
        assert tickets[j] == u;
      }
    }
    forall u | u in tickets.Values
      ensures u in after.Values
    {
      var j :| j in tickets && tickets[j] == u;
      assert after[j] == u;
    }
    assert after[k] == t;
    assert after.Values == tickets.Values + {t};
    if OpenPlatesUnique(tickets) && NoOpenTicketFor(tickets, t.licensePlate) {
      forall a, b | a in after && b in after && after[a].IsOpen() && after[b].IsOpen() &&
                    after[a].licensePlate == after[b].licensePlate
        ensures a == b
      {
        if a != k && b != k {
          assert tickets[a] == after[a] && tickets[b] == after[b];
        }
      }
    }
    if OpenPlatesUnique(after) {
      forall u | u in tickets.Values && u.IsOpen()
        ensures u.licensePlate != t.licensePlate
      {
        var j :| j in tickets && tickets[j] == u;
        assert after[j] == u && after[k] == t;
      }
      forall a, b | a in tickets && b in tickets && tickets[a].IsOpen() && tickets[b].IsOpen() &&
                    tickets[a].licensePlate == tickets[b].licensePlate
        ensures a == b
      {
        assert after[a] == tickets[a] && after[b] == tickets[b];
      }
    }
  }

  /** The ticket log. Nothing is ever removed, so the keys are exactly the ids handed out so far. */
  class TicketRepository {
    var tickets: map<nat, Ticket>
    var autoIncrement: nat

    /** Ids are 1, 2, ..., autoIncrement - 1, and each ticket is stored under its own id. */
    ghost predicate Valid()
      reads this
    {
      && autoIncrement >= 1
      && (forall k :: k in tickets <==> 1 <= k < autoIncrement)
      && forall k :: k in tickets ==> tickets[k].ticketId == k
    }

    /** No plate has two open tickets. */
    ghost predicate OneOpenPerPlate()
      reads this, tickets.Values
    {
      OpenPlatesUnique(tickets)
    }

    constructor ()
      ensures Valid() && tickets == map[] && autoIncrement == 1
    {
      tickets := map[];
      autoIncrement := 1;
    }

    /** `getAllTickets`: every ticket, in id order. */
    function GetAllTickets(): (r: seq<Ticket>)
      reads this
      ensures forall t :: t in r ==> t in tickets.Values
      ensures Valid() ==> forall t :: t in tickets.Values ==> t in r
      ensures Valid() ==> |r| == autoIncrement - 1 && forall i :: 0 <= i < |r| ==> r[i] == tickets[i + 1] && r[i].ticketId == i + 1
    {
      var r := ValuesInKeyOrder(tickets, 1, autoIncrement);
      assert forall t :: t in tickets.Values ==> exists k :: k in tickets && tickets[k] == t;
      assert Valid() ==> forall t :: t in tickets.Values ==> t in r by {
        if Valid() {
          forall t | t in tickets.Values ensures t in r {
            var k :| k in tickets && tickets[k] == t;
            assert 1 <= k < autoIncrement;
          }
        }
      }
      r
    }

    /** `addTicket`: stores a new open ticket under the next id, greater than every id handed out before. */
    method AddTicket(licensePlate: string, entryTimestamp: int, assignedSpot: Spot) returns (ticket: Ticket)
      requires Valid()
      modifies this
      ensures Valid() && fresh(ticket)
      ensures ticket.ticketId == old(autoIncrement) && autoIncrement == old(autoIncrement) + 1
      ensures forall k :: k in old(tickets) ==> k < ticket.ticketId
      ensures tickets == old(tickets)[ticket.ticketId := ticket]
      ensures ticket.licensePlate == licensePlate && ticket.entryTimestamp == entryTimestamp
      ensures ticket.assignedSpot == assignedSpot && ticket.IsOpen() && ticket.price == 0.0
      ensures OpenPlatesUnique(tickets) <==> old(OpenPlatesUnique(tickets) && NoOpenTicketFor(tickets, licensePlate))
      ensures ClosedTicketsOrdered(tickets) == old(ClosedTicketsOrdered(tickets))
    {
      ticket := new Ticket(autoIncrement, licensePlate, entryTimestamp, assignedSpot);
      tickets := tickets[autoIncrement := ticket];
      autoIncrement := autoIncrement + 1;
      assert Valid();
      assert OpenPlatesUnique(old(tickets)) == old(OpenPlatesUnique(tickets));
      assert NoOpenTicketFor(old(tickets), licensePlate) == old(NoOpenTicketFor(tickets, licensePlate));
      assert ClosedTicketsOrdered(old(tickets)) == old(ClosedTicketsOrdered(tickets));
      AddOpenTicket(old(tickets), ticket.ticketId, ticket);
    }

    /** `findTicketById`: the ticket stored under that id; there is one exactly for the ids handed out. */
    function FindTicketById(ticketId: int): (r: Option<Ticket>)
      reads this
      ensures r.Some? ==> r.value in tickets.Values
      ensures Valid() ==> (r.Some? <==> 1 <= ticketId < autoIncrement)
      ensures Valid() && r.Some? ==> r.value.ticketId == ticketId
    {
      if ticketId >= 0 && ticketId in tickets then Some(tickets[ticketId]) else None
    }

    /** `findEntryTicketByVehicleLicensePlate`: the open ticket with that plate and the smallest id, if any. */
    function FindEntryTicketByVehicleLicensePlate(plate: string): (r: Option<Ticket>)
      requires Valid()
      reads this, tickets.Values
      ensures r.Some? ==> r.value in tickets.Values && r.value.licensePlate == plate && r.value.IsOpen()
      ensures r.Some? ==> forall k :: k in tickets && k < r.value.ticketId ==>
                            !(tickets[k].licensePlate == plate && tickets[k].IsOpen())
      ensures r.None? <==> forall t :: t in tickets.Values ==> !(t.licensePlate == plate && t.IsOpen())
    {
      var all := GetAllTickets();
      match FirstOpenFor(all, plate)
      case Some(i) => Some(all[i])
      case None =>
        assert forall t :: t in tickets.Values ==> !(t.licensePlate == plate && t.IsOpen()) by {
          forall t | t in tickets.Values ensures !(t.licensePlate == plate && t.IsOpen()) {
            assert t in all;
          }
        }
        None
    }

    /** `findExitTicketByVehicleLicensePlate`: exactly the closed tickets with that plate, in id order. */
    function FindExitTicketByVehicleLicensePlate(plate: string): (r: seq<Ticket>)
      requires Valid()
      reads this, tickets.Values
      ensures forall t :: t in r ==> t in tickets.Values && t.licensePlate == plate && !t.IsOpen()
      ensures forall t :: t in tickets.Values && t.licensePlate == plate && !t.IsOpen() ==> t in r
    {
      ClosedFor(GetAllTickets(), plate)
    }

    /** While no plate has two open tickets, the open-ticket lookup and the closed-ticket lookup split a
        plate's tickets: each is either the one open ticket or among the closed ones, never both. */
    lemma EntryExitPartition(plate: string, t: Ticket)
      requires Valid() && OneOpenPerPlate()
      requires t in tickets.Values && t.licensePlate == plate
      ensures FindEntryTicketByVehicleLicensePlate(plate) == Some(t) <==> t !in FindExitTicketByVehicleLicensePlate(plate)
    {
      var entry := FindEntryTicketByVehicleLicensePlate(plate);
      if t.IsOpen() {
        assert entry.Some?;
        var a :| a in tickets && tickets[a] == t;
        var b :| b in tickets && tickets[b] == entry.value;
        assert a == b;
      }
    }

    /** `setExitTimestamp`: closes the ticket when `ExitCheck` passes, and otherwise changes nothing. */
    method SetExitTimestamp(ticket: Ticket, exitTimestamp: int) returns (r: Outcome<Error>)
      modifies ticket
      ensures r == old(ExitCheck(ticket, exitTimestamp))
      ensures r.Pass? ==> ticket.exitTimestamp == Some(exitTimestamp)
      ensures r.Fail? ==> unchanged(ticket)
      ensures ticket.price == old(ticket.price)
    {
      r := ExitCheck(ticket, exitTimestamp);
      if r.Pass? {
        ticket.SetExitTimestamp(exitTimestamp);
      }
    }

    /** `setTicketPrice`: changes the ticket's price and nothing else. */
    method SetTicketPrice(ticket: Ticket, price: real)
      modifies ticket
      ensures ticket.price == price && ticket.exitTimestamp == old(ticket.exitTimestamp)
    {
      ticket.SetPrice(price);
    }
  }
}
