/**
  The ticket ledger: buying, amending and returning tickets, each of which
  moves the owning event's `available_tickets` counter and may change its
  status.

  The methods follow the source's order of steps exactly, including where it
  saves: `Update` writes the event's new counter BEFORE it checks the
  quantity and the 30-minute edit window, and a non-organizer `Delete`
  never saves the event itself (only `update_status` may). The contracts
  therefore speak both of the in-memory objects and of their saved rows
  (`stored`).
*/
module Tickets {
  import opened Common
  import opened Statuses
  import opened Accounts
  import Catalog
  import Events

  /** Minutes after purchase during which an attendee may change a ticket. */
  const EditWindow := 30

  const UserRequired := "El usuario es requerido"
  const TicketTypeRequired := "El tipo de ticket es requerido"
  const QuantityInvalid := "La cantidad de tickets debe ser un número entero mayor a 0"
  const SalesClosed := "No se pueden comprar entradas para este evento"
  const NotEnoughTickets := "No hay suficientes entradas disponibles"
  const UpdateQuantityInvalid := "La cantidad de tickets debe ser mayor a 0"
  const UpdateWindowClosed := "El ticket solo se puede modificar en los 30 minutos posteriores a su creacion"
  const DeleteWindowClosed := "El ticket solo se puede eliminar en los 30 minutos posteriores a su creacion"

  /** Statuses in which no ticket may be bought. */
  predicate SalesClosedFor(status: Status) {
    status == SoldOut || status == Finished || status == Cancelled
  }

  /** The columns of a ticket row that the ledger changes. */
  datatype TicketRow = TicketRow(ticketType: Catalog.TicketType, quantity: int, totalPrice: int,
                                 oldTotalPrice: Option<int>, modifiedDate: Option<int>)

  class Ticket {
    const id: nat
    const event: Events.Event
    const user: User
    const buyDate: int
    var ticketType: Catalog.TicketType
    var quantity: int
    /** Integer cents. */
    var totalPrice: int
    var oldTotalPrice: Option<int>
    var modifiedDate: Option<int>
    /** The row as last saved; None once the ticket is deleted. */
    var stored: Option<TicketRow>

    function Row(): (r: TicketRow)
      reads this
    {
      TicketRow(ticketType, quantity, totalPrice, oldTotalPrice, modifiedDate)
    }

    /** What every ticket the ledger creates or amends keeps: it holds at
        least one seat (`Ticket.validate` and `Ticket.update` refuse a
        quantity of 0 or less). */
    predicate Valid()
      reads this
    {
      quantity > 0
    }

    /** The quantity the saved row holds (0 when there is no row). */
    function StoredQuantity(): (q: int)
      reads this
      ensures stored.None? ==> q == 0
      ensures stored.Some? ==> q == stored.value.quantity
    {
      if stored.Some? then stored.value.quantity else 0
    }

    /** `Ticket.objects.create(...)`; the ticket code is the new row's id. */
    constructor Create(id: nat, event: Events.Event, user: User, ticketType: Catalog.TicketType,
                       quantity: int, totalPrice: int, buyDate: int)
      ensures this.id == id && this.event == event && this.user == user && this.buyDate == buyDate
      ensures this.ticketType == ticketType && this.quantity == quantity
      ensures this.totalPrice == totalPrice && oldTotalPrice == None && modifiedDate == None
      ensures stored == Some(Row())
    {
      this.id := id;
      this.event := event;
      this.user := user;
      this.buyDate := buyDate;
      this.ticketType := ticketType;
      this.quantity := quantity;
      this.totalPrice := totalPrice;
      this.oldTotalPrice := None;
      this.modifiedDate := None;
      this.stored := Some(TicketRow(ticketType, quantity, totalPrice, None, None));
    }

    /** `Ticket.validate` for a given event: a user, a ticket type, a positive
        quantity, and an event that is still selling. (The source reads
        `event.status` unconditionally, so an absent event is a crash, not an
        "event" error; the event is therefore always given here.) */
    static function Validate(eventStatus: Status, user: Option<User>, ticketType: Catalog.TicketType?,
                             quantity: int): (errors: Errors)
      ensures errors.Keys <= {"user", "ticket_type", "quantity", "status"}
      ensures "user" in errors <==> user.None?
      ensures "ticket_type" in errors <==> ticketType == null
      ensures "quantity" in errors <==> quantity <= 0
      ensures "status" in errors <==> SalesClosedFor(eventStatus)
      ensures "user" in errors ==> errors["user"] == UserRequired
      ensures "ticket_type" in errors ==> errors["ticket_type"] == TicketTypeRequired
      ensures "quantity" in errors ==> errors["quantity"] == QuantityInvalid
      ensures "status" in errors ==> errors["status"] == SalesClosed
    {
      var e1 := if user.None? then map["user" := UserRequired] else map[];
      var e2 := if ticketType == null then e1["ticket_type" := TicketTypeRequired] else e1;
      var e3 := if quantity <= 0 then e2["quantity" := QuantityInvalid] else e2;
      if SalesClosedFor(eventStatus) then e3["status" := SalesClosed] else e3
    }

    /** `Ticket.new`: on a validation error or when fewer tickets are left
        than asked for, nothing changes; otherwise the counter drops by
        exactly `quantity`, the event becomes SOLD_OUT when it reaches 0, the
        event is saved, and a ticket priced `price * quantity` is created
        whose code is its id. */
    static method New(id: nat, event: Events.Event, user: Option<User>, ticketType: Catalog.TicketType?,
                      quantity: int, now: int)
      returns (ok: bool, errors: Errors, code: nat, ticket: Ticket?)
      modifies event`availableTickets, event`status, event`stored
      ensures var v := Validate(old(event.status), user, ticketType, quantity);
              v != map[] ==> !ok && errors == v
      ensures var v := Validate(old(event.status), user, ticketType, quantity);
              v == map[] && old(event.availableTickets) < quantity ==>
                !ok && errors == map["error" := NotEnoughTickets]
      ensures ok <==> Validate(old(event.status), user, ticketType, quantity) == map[]
                      && quantity <= old(event.availableTickets)
      ensures !ok ==> ticket == null && unchanged(event)
      ensures ok ==> errors == map[] && user.Some? && ticketType != null
      ensures ok ==> event.availableTickets == old(event.availableTickets) - quantity
      ensures ok ==> event.status == (if event.availableTickets == 0 then SoldOut else old(event.status))
      ensures ok ==> event.stored == event.Row()
      ensures ok ==> ticket != null && fresh(ticket) && code == ticket.id == id
      ensures ok ==> ticket.event == event && ticket.user == user.value && ticket.buyDate == now
      ensures ok ==> ticket.ticketType == ticketType && ticket.quantity == quantity
      ensures ok ==> ticket.totalPrice == ticketType.price * quantity && ticket.oldTotalPrice == None && ticket.modifiedDate == None
      ensures ok ==> ticket.stored == Some(ticket.Row()) && ticket.Valid()
      // a counter that was not negative does not become negative
      ensures old(event.availableTickets) >= 0 && old(event.stored.availableTickets) >= 0 ==>
        event.availableTickets >= 0 && event.stored.availableTickets >= 0
    {
      errors := Validate(event.status, user, ticketType, quantity);
      if errors != map[] {
        return false, errors, 0, null;
      }
      if event.availableTickets < quantity {
        return false, map["error" := NotEnoughTickets], 0, null;
      }
      event.availableTickets := event.availableTickets - quantity;
      if event.availableTickets == 0 {
        event.status := SoldOut;
      }
      event.Save();
      ticket := new Ticket.Create(id, event, user.value, ticketType, quantity,
                                  ticketType.price * quantity, now);
      code := ticket.id;
      ok := true;
    }

    /** `Ticket.update`, step by step as written:
        1. the counter moves by the quantity difference, in memory;
        2. a negative counter is reported and nothing is saved;
        3. otherwise SOLD_OUT is set at 0 and the EVENT IS SAVED;
        4. only then are a non-positive quantity and, for a ticket whose owner
           is not an organizer, the 30-minute window (strictly later than
           `buy_date + 30` is refused) checked;
        5. on success the ticket gets the new type and quantity, the old
           total in `old_total_price`, the new total, a modification time,
           and is saved; the second counter adjustment subtracts zero. */
    method Update(newType: Catalog.TicketType, newQuantity: int, now: int)
      returns (ok: bool, errors: Errors)
      modifies this, event`availableTickets, event`status, event`stored
      // the in-memory counter always moves by exactly the quantity difference
      ensures event.availableTickets == old(event.availableTickets) - (newQuantity - old(quantity))
      ensures ok <==> event.availableTickets >= 0 && newQuantity > 0
                      && (user.isOrganizer || now <= buyDate + EditWindow)
      // step 2: nothing saved
      ensures event.availableTickets < 0 ==>
        errors == map["error" := NotEnoughTickets] && event.status == old(event.status)
        && event.stored == old(event.stored) && unchanged(this)
      // step 3: the counter is saved whatever happens next
      ensures event.availableTickets >= 0 ==>
        event.status == (if event.availableTickets == 0 then SoldOut else old(event.status))
        && event.stored == event.Row()
      // step 4: the ticket keeps its row
      ensures event.availableTickets >= 0 && newQuantity <= 0 ==>
        errors == map["quantity" := UpdateQuantityInvalid] && unchanged(this)
      ensures event.availableTickets >= 0 && newQuantity > 0 && !user.isOrganizer && now > buyDate + EditWindow ==>
        errors == map["error" := UpdateWindowClosed] && modifiedDate == Some(now)
        && ticketType == old(ticketType) && quantity == old(quantity) && totalPrice == old(totalPrice)
        && oldTotalPrice == old(oldTotalPrice) && stored == old(stored)
      // step 5
      ensures ok ==> errors == map[] && ticketType == newType && quantity == newQuantity
      ensures ok ==> oldTotalPrice == Some(old(totalPrice)) && totalPrice == newType.price * newQuantity
      ensures ok ==> modifiedDate == Some(now) && stored == Some(Row())
      // the ticket holds a seat afterwards when it did before or the update succeeded
      ensures Valid() <==> ok || old(Valid())
      // the SAVED counter never goes negative (the in-memory one may, at step 2)
      ensures old(event.stored.availableTickets) >= 0 ==> event.stored.availableTickets >= 0
    {
      event.availableTickets := event.availableTickets - (newQuantity - quantity);
      if event.availableTickets < 0 {
        return false, map["error" := NotEnoughTickets];
      }
      if event.availableTickets == 0 {
        event.status := SoldOut;
      }
      event.Save();
      if newQuantity <= 0 {
        return false, map["quantity" := UpdateQuantityInvalid];
      }
      modifiedDate := Some(now);
      if !user.isOrganizer && now > buyDate + EditWindow {
        return false, map["error" := UpdateWindowClosed];
      }
      ticketType := newType;
      quantity := newQuantity;
      oldTotalPrice := Some(totalPrice);
      totalPrice := newType.price * quantity;
      modifiedDate := Some(now);
      stored := Some(Row());
      event.availableTickets := event.availableTickets - (newQuantity - quantity);
      return true, map[];
    }

    /** `Ticket.delete`: an organizer may always delete; anyone else only
        strictly before `buy_date + 30`. Deleting gives the quantity back to
        the counter and refreshes the event's status; only the organizer path
        saves the event explicitly. */
    method Delete(callerIsOrganizer: bool, now: int) returns (ok: bool, errors: Errors)
      requires Valid()
      modifies this`stored, event`availableTickets, event`status, event`stored
      ensures ok <==> callerIsOrganizer || now < buyDate + EditWindow
      ensures !ok ==> errors == map["error" := DeleteWindowClosed] && unchanged(this) && unchanged(event)
      ensures ok ==> errors == map[] && stored == None
      ensures ok ==> event.availableTickets == old(event.availableTickets) + quantity
      ensures ok ==> event.status == Statuses.UpdateStatus(old(event.status), event.availableTickets,
                                                           event.scheduledAt, event.previousDate, now).status
      ensures ok && callerIsOrganizer ==> event.stored == event.Row()
      ensures ok && !callerIsOrganizer ==>
        event.stored == (if event.status != old(event.status) then event.Row() else old(event.stored))
      ensures old(event.availableTickets) >= 0 && old(event.stored.availableTickets) >= 0 ==>
        event.availableTickets >= 0 && event.stored.availableTickets >= 0
    {
      if callerIsOrganizer {
        event.availableTickets := event.availableTickets + quantity;
        var _ := event.UpdateStatus(now);
        event.Save();
        stored := None;
        return true, map[];
      }
      if now < buyDate + EditWindow {
        event.availableTickets := event.availableTickets + quantity;
        var _ := event.UpdateStatus(now);
        stored := None;
        return true, map[];
      }
      return false, map["error" := DeleteWindowClosed];
    }

    /** The saved counter of the event plus the saved quantity of this ticket:
        what a ledger operation on this ticket must leave unchanged. */
    function LedgerTotal(): (total: int)
      reads this, event
    {
      event.stored.availableTickets + StoredQuantity()
    }

    /** The objects match their saved rows, as they do when just loaded. */
    predicate Synced()
      reads this, event
    {
      event.stored == event.Row() && stored == Some(Row())
    }

    /** `Ticket.update` with every check made before anything is written:
        the same outcomes and messages as `Update`, but a refused update
        leaves the event and the ticket as they were, and an accepted one
        keeps the ledger total. */
    method UpdateAtomic(newType: Catalog.TicketType, newQuantity: int, now: int)
      returns (ok: bool, errors: Errors)
      requires Synced()
      modifies this, event`availableTickets, event`status, event`stored
      ensures var counter := old(event.availableTickets) - (newQuantity - old(quantity));
              ok <==> counter >= 0 && newQuantity > 0 && (user.isOrganizer || now <= buyDate + EditWindow)
      ensures !ok ==> unchanged(this) && unchanged(event)
      ensures !ok && old(event.availableTickets) - (newQuantity - old(quantity)) < 0 ==>
        errors == map["error" := NotEnoughTickets]
      ensures !ok && old(event.availableTickets) - (newQuantity - old(quantity)) >= 0 && newQuantity <= 0 ==>
        errors == map["quantity" := UpdateQuantityInvalid]
      ensures !ok && old(event.availableTickets) - (newQuantity - old(quantity)) >= 0 && newQuantity > 0 ==>
        errors == map["error" := UpdateWindowClosed]
      ensures ok ==> errors == map[] && Synced() && LedgerTotal() == old(LedgerTotal())
      ensures ok ==> event.availableTickets == old(event.availableTickets) - (newQuantity - old(quantity))
      ensures ok ==> event.status == (if event.availableTickets == 0 then SoldOut else old(event.status))
      ensures ok ==> ticketType == newType && quantity == newQuantity
      ensures ok ==> oldTotalPrice == Some(old(totalPrice)) && totalPrice == newType.price * newQuantity
      ensures ok ==> modifiedDate == Some(now)
      ensures Valid() <==> ok || old(Valid())
      ensures old(event.availableTickets) >= 0 ==> event.availableTickets >= 0 && event.stored.availableTickets >= 0
    {
      var counter := event.availableTickets - (newQuantity - quantity);
      if counter < 0 {
        return false, map["error" := NotEnoughTickets];
      }
      if newQuantity <= 0 {
        return false, map["quantity" := UpdateQuantityInvalid];
      }
      if !user.isOrganizer && now > buyDate + EditWindow {
        return false, map["error" := UpdateWindowClosed];
      }
      event.availableTickets := counter;
      if counter == 0 {
        event.status := SoldOut;
      }
      event.Save();
      ticketType := newType;
      oldTotalPrice := Some(totalPrice);
      quantity := newQuantity;
      totalPrice := newType.price * newQuantity;
      modifiedDate := Some(now);
      stored := Some(Row());
      return true, map[];
    }

    /** `Ticket.delete` with the event saved on both paths: the quantity
        returned to the counter reaches the database and the ledger total
        is kept. */
    method DeleteAndSave(callerIsOrganizer: bool, now: int) returns (ok: bool, errors: Errors)
      requires Synced() && Valid()
      modifies this`stored, event`availableTickets, event`status, event`stored
      ensures ok <==> callerIsOrganizer || now < buyDate + EditWindow
      ensures !ok ==> errors == map["error" := DeleteWindowClosed] && unchanged(this) && unchanged(event)
      ensures ok ==> errors == map[] && stored == None && event.stored == event.Row()
      ensures ok ==> event.availableTickets == old(event.availableTickets) + quantity
      ensures ok ==> event.status == Statuses.UpdateStatus(old(event.status), event.availableTickets,
                                                           event.scheduledAt, event.previousDate, now).status
      ensures LedgerTotal() == old(LedgerTotal())
      ensures old(event.availableTickets) >= 0 ==> event.availableTickets >= 0 && event.stored.availableTickets >= 0
    {
      if !callerIsOrganizer && now >= buyDate + EditWindow {
        return false, map["error" := DeleteWindowClosed];
      }
      event.availableTickets := event.availableTickets + quantity;
      var _ := event.UpdateStatus(now);
      event.Save();
      stored := None;
      return true, map[];
    }
  }

  /** An attendee's update to quantity 0 is refused, yet the counter it moved
      has been saved: 2 seats come back while the ticket still holds them. */
  method UpdateToZeroLeaksSeats() returns (ok: bool, storedBefore: int, storedAfter: int, heldByTicket: int)
    ensures !ok && storedBefore == 5 && storedAfter == 7 && heldByTicket == 2
  {
    var event := new Events.Event.Create(1, "Concierto", "Noche de rock", 1000, 7, null, 5);
    var general := new Catalog.TicketType.Create(1, "General", 10000);
    var ticket := new Ticket.Create(1, event, User(8, false), general, 2, 20000, 0);
    storedBefore := event.stored.availableTickets;
    var errors;
    ok, errors := ticket.Update(general, 0, 10);
    storedAfter := event.stored.availableTickets;
    heldByTicket := ticket.stored.value.quantity;
  }

  /** An attendee's update from 2 to 3 tickets 31 minutes after buying is
      refused, yet the saved counter has already dropped by one. */
  method LateUpdateLosesSeat() returns (ok: bool, storedBefore: int, storedAfter: int, heldByTicket: int)
    ensures !ok && storedBefore == 5 && storedAfter == 4 && heldByTicket == 2
  {
    var event := new Events.Event.Create(1, "Concierto", "Noche de rock", 1000, 7, null, 5);
    var general := new Catalog.TicketType.Create(1, "General", 10000);
    var ticket := new Ticket.Create(1, event, User(8, false), general, 2, 20000, 0);
    storedBefore := event.stored.availableTickets;
    var errors;
    ok, errors := ticket.Update(general, 3, 31);
    storedAfter := event.stored.availableTickets;
    heldByTicket := ticket.stored.value.quantity;
  }

  /** An attendee returns 2 tickets of an ACTIVE future event within the
      window: the ticket row is deleted, the status does not change, so the
      event is never saved and the 2 seats are lost from the saved counter. */
  method AttendeeReturnLosesSeats() returns (ok: bool, storedBefore: int, storedAfter: int,
                                             inMemory: int, ticketRowGone: bool)
    ensures ok && ticketRowGone && storedBefore == 5 && storedAfter == 5 && inMemory == 7
  {
    var event := new Events.Event.Create(1, "Concierto", "Noche de rock", 1000, 7, null, 5);
    var general := new Catalog.TicketType.Create(1, "General", 10000);
    var ticket := new Ticket.Create(1, event, User(8, false), general, 2, 20000, 0);
    storedBefore := event.stored.availableTickets;
    var errors;
    ok, errors := ticket.Delete(false, 10);
    storedAfter := event.stored.availableTickets;
    inMemory := event.availableTickets;
    ticketRowGone := ticket.stored.None?;
  }

  /** Buying out an event: with 10 tickets left, buying 5 leaves 5 and the
      event ACTIVE; buying 5 more leaves 0 and the event SOLD_OUT. */
  method SellOutScenario() returns (afterFirst: int, statusAfterFirst: Status,
                                    afterSecond: int, statusAfterSecond: Status)
    ensures afterFirst == 5 && statusAfterFirst == Active
    ensures afterSecond == 0 && statusAfterSecond == SoldOut
  {
    var event := new Events.Event.Create(1, "Concierto", "Noche de rock", 1000, 7, null, 10);
    var general := new Catalog.TicketType.Create(1, "General", 10000);
    var buyer := Some(User(8, false));
    var ok1, _, _, _ := Ticket.New(1, event, buyer, general, 5, 0);
    afterFirst, statusAfterFirst := event.availableTickets, event.status;
    var ok2, _, _, _ := Ticket.New(2, event, buyer, general, 5, 1);
    afterSecond, statusAfterSecond := event.availableTickets, event.status;
  }
}
