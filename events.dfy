/**
  Events: creation and update by organizers, the status refresh that runs
  whenever counters or dates change, the organizer-only cancel, and the
  refresh loop of the events listing.

  An `Event` object holds the fields a request works on in memory; `stored`
  is the row as it was last written by `save()`. Keeping the two apart lets
  the contracts say which changes reach the database and when.
*/
module Events {
  import opened Common
  import opened Statuses
  import Catalog

  const TitleBlank := "Por favor ingrese un título"
  const TitleTaken := "Ya existe un evento con ese título"
  const DescriptionBlank := "Por favor ingrese una descripción"
  const DateRequired := "La fecha y hora del evento son requeridas"
  const DateNotFuture := "La fecha del evento debe ser en el futuro"

  /** The columns of an event row. */
  datatype EventRow = EventRow(title: string, description: string, scheduledAt: int,
                               previousDate: Option<int>, organizer: UserId,
                               venue: Catalog.Venue?, availableTickets: int, status: Status)

  /** Another event with the same title, ignoring case. */
  predicate TitleTakenBy(title: string, currentEventId: Option<nat>, titles: map<nat, string>) {
    exists id :: id in titles && Some(id) != currentEventId && EqualsIgnoreCase(titles[id], title)
  }

  /** Tickets an event starts with: its venue's capacity, or 0 without a venue. */
  function CapacityOf(venue: Catalog.Venue?): (n: int)
    reads venue
    ensures venue != null ==> n == venue.capacity
    ensures venue == null ==> n == 0
  {
    if venue != null then venue.capacity else 0
  }

  class Event {
    const id: nat
    var title: string
    var description: string
    var scheduledAt: int
    var previousDate: Option<int>
    var organizer: UserId
    var venue: Catalog.Venue?
    var availableTickets: int
    var status: Status
    /** The row as last saved. */
    var stored: EventRow

    /** The row the in-memory fields would be saved as. */
    function Row(): (r: EventRow)
      reads this
    {
      EventRow(title, description, scheduledAt, previousDate, organizer, venue, availableTickets, status)
    }

    /** `Event.objects.create(...)` with status ACTIVE and no previous date. */
    constructor Create(id: nat, title: string, description: string, scheduledAt: int,
                       organizer: UserId, venue: Catalog.Venue?, availableTickets: int)
      ensures this.id == id && this.title == title && this.description == description
      ensures this.scheduledAt == scheduledAt && this.previousDate == None
      ensures this.organizer == organizer && this.venue == venue
      ensures this.availableTickets == availableTickets && this.status == Active
      ensures stored == Row()
    {
      this.id := id;
      this.title := title;
      this.description := description;
      this.scheduledAt := scheduledAt;
      this.previousDate := None;
      this.organizer := organizer;
      this.venue := venue;
      this.availableTickets := availableTickets;
      this.status := Active;
      this.stored := EventRow(title, description, scheduledAt, None, organizer, venue, availableTickets, Active);
    }

    /** `Event.validate`: a non-blank title unique ignoring case among the
        other events, a non-blank description, and a date strictly after now. */
    static function Validate(title: string, description: string, scheduledAt: Option<int>,
                             currentEventId: Option<nat>, titles: map<nat, string>, now: int)
      : (errors: Errors)
      ensures errors.Keys <= {"title", "description", "scheduled_at"}
      ensures "title" in errors <==> IsBlank(title) || TitleTakenBy(title, currentEventId, titles)
      ensures "title" in errors ==> errors["title"] == (if IsBlank(title) then TitleBlank else TitleTaken)
      ensures "description" in errors <==> IsBlank(description)
      ensures "description" in errors ==> errors["description"] == DescriptionBlank
      ensures "scheduled_at" in errors <==> scheduledAt.None? || scheduledAt.value <= now
      ensures "scheduled_at" in errors ==>
        errors["scheduled_at"] == (if scheduledAt.None? then DateRequired else DateNotFuture)
    {
      var e1 :=
        if IsBlank(title) then map["title" := TitleBlank]
        else if TitleTakenBy(title, currentEventId, titles) then map["title" := TitleTaken]
        else map[];
      var e2 := if IsBlank(description) then e1["description" := DescriptionBlank] else e1;
      if scheduledAt.None? then e2["scheduled_at" := DateRequired]
      else if scheduledAt.value <= now then e2["scheduled_at" := DateNotFuture]
      else e2
    }

    /** `Event.new`: validates the inputs as given and, only when nothing
        failed, creates an ACTIVE event with the stripped title and
        description and as many tickets as the venue holds. */
    static method New(id: nat, title: string, venue: Catalog.Venue?, description: string,
                      scheduledAt: Option<int>, organizer: UserId, titles: map<nat, string>, now: int)
      returns (ok: bool, errors: Errors, event: Event?)
      requires id !in titles
      ensures errors == Validate(title, description, scheduledAt, None, titles, now)
      ensures ok <==> errors == map[]
      ensures !ok ==> event == null
      ensures ok ==> event != null && fresh(event) && event.id == id && scheduledAt.Some?
      ensures ok ==> event.title == Strip(title) && event.description == Strip(description)
      ensures ok ==> event.scheduledAt == scheduledAt.value && now < event.scheduledAt
      ensures ok ==> event.previousDate == None && event.organizer == organizer && event.venue == venue
      ensures ok ==> event.availableTickets == CapacityOf(venue) && event.status == Active
      ensures ok ==> event.stored == event.Row()
    {
      errors := Validate(title, description, scheduledAt, None, titles, now);
      if errors != map[] {
        return false, errors, null;
      }
      event := new Event.Create(id, Strip(title), Strip(description), scheduledAt.value,
                                organizer, venue, if venue != null then venue.capacity else 0);
      ok := true;
    }

    /** `self.save()`. */
    method Save()
      modifies this`stored
      ensures stored == Row()
    {
      stored := Row();
    }

    /** `Event.update_status`, as the chain of assignments the source makes.
        Returns whether the event was saved. */
    method UpdateStatus(now: int) returns (saved: bool)
      modifies this`status, this`stored
      ensures var u := Statuses.UpdateStatus(old(status), availableTickets, scheduledAt, previousDate, now);
              status == u.status && saved == u.saved
      ensures saved ==> stored == Row()
      ensures !saved ==> stored == old(stored)
    {
      var previousStatus := status;
      if status == Cancelled {
        return false;
      }
      if previousDate.Some? && previousDate.value != scheduledAt {
        status := Rescheduled;
      }
      if availableTickets == 0 {
        status := SoldOut;
      }
      if scheduledAt <= now {
        status := Finished;
      }
      if status == previousStatus {
        if previousDate.Some? && previousDate.value != scheduledAt {
          status := Rescheduled;
        } else {
          status := Active;
        }
      }
      saved := status != previousStatus;
      if saved {
        Save();
      }
    }

    /** `Event.update`: fields passed as None (null for the venue) keep their
        value; the result is validated against the other events' titles; on
        success the fields are overwritten, a changed date moves the old one
        to `previous_date`, the counter is reset to the venue's capacity when
        there is a venue, the event is saved and its status refreshed. */
    method Update(title: Option<string>, venue: Catalog.Venue?, description: Option<string>,
                  scheduledAt: Option<int>, organizer: Option<UserId>,
                  titles: map<nat, string>, now: int)
      returns (ok: bool, errors: Errors)
      modifies this
      ensures var newTitle := title.GetOr(old(this.title));
              var newDescription := description.GetOr(old(this.description));
              var newDate := scheduledAt.GetOr(old(this.scheduledAt));
              errors == Validate(newTitle, newDescription, Some(newDate), Some(id), titles, now)
      ensures ok <==> errors == map[]
      ensures !ok ==> unchanged(this)
      ensures ok ==> this.title == Strip(title.GetOr(old(this.title)))
      ensures ok ==> this.description == Strip(description.GetOr(old(this.description)))
      ensures ok ==> this.venue == (if venue != null then venue else old(this.venue))
      ensures ok ==> this.availableTickets ==
                     (if this.venue != null then this.venue.capacity else old(availableTickets))
      ensures ok ==> this.organizer == organizer.GetOr(old(this.organizer))
      ensures ok ==> now < this.scheduledAt && this.scheduledAt == scheduledAt.GetOr(old(this.scheduledAt))
      ensures ok && this.scheduledAt != old(this.scheduledAt) ==> previousDate == Some(old(this.scheduledAt))
      ensures ok && this.scheduledAt == old(this.scheduledAt) ==> previousDate == old(previousDate)
      ensures ok ==> status == Statuses.UpdateStatus(old(status), availableTickets, this.scheduledAt,
                                                     previousDate, now).status
      ensures ok ==> stored == Row()
    {
      var newTitle := if title.Some? then title.value else this.title;
      var newDescription := if description.Some? then description.value else this.description;
      var newDate := if scheduledAt.Some? then scheduledAt.value else this.scheduledAt;
      var newOrganizer := if organizer.Some? then organizer.value else this.organizer;
      var newVenue := if venue != null then venue else this.venue;

      errors := Validate(newTitle, newDescription, Some(newDate), Some(id), titles, now);
      if errors != map[] {
        return false, errors;
      }
      Apply(Strip(newTitle), newVenue, Strip(newDescription), newDate, newOrganizer, now);
      ok := true;
    }

    /** The writes `Event.update` makes once validation has passed: fields,
        previous-date bookkeeping, counter reset, save, status refresh. */
    method Apply(newTitle: string, newVenue: Catalog.Venue?, newDescription: string,
                 newDate: int, newOrganizer: UserId, now: int)
      modifies this
      ensures title == newTitle && description == newDescription && venue == newVenue
      ensures organizer == newOrganizer && scheduledAt == newDate
      ensures availableTickets == (if newVenue != null then newVenue.capacity else old(availableTickets))
      ensures newDate != old(scheduledAt) ==> previousDate == Some(old(scheduledAt))
      ensures newDate == old(scheduledAt) ==> previousDate == old(previousDate)
      ensures status == Statuses.UpdateStatus(old(status), availableTickets, scheduledAt, previousDate, now).status
      ensures stored == Row()
    {
      this.title := newTitle;
      this.venue := newVenue;
      this.availableTickets := if newVenue != null then newVenue.capacity else this.availableTickets;
      this.description := newDescription;
      if newDate != this.scheduledAt {
        this.previousDate := Some(this.scheduledAt);
        this.scheduledAt := newDate;
      }
      this.organizer := newOrganizer;
      Save();
      var _ := UpdateStatus(now);
    }

    /** The `event_cancel` view: an organizer sets CANCELLED whatever the
        status was and saves; anyone else changes nothing. */
    method Cancel(callerIsOrganizer: bool)
      modifies this`status, this`stored
      ensures callerIsOrganizer ==> status == Cancelled && stored == Row()
      ensures !callerIsOrganizer ==> status == old(status) && stored == old(stored)
    {
      if !callerIsOrganizer {
        return;
      }
      status := Cancelled;
      Save();
    }

    /** `get_status_css_class`. */
    function CssClass(): (css: string)
      reads this
      ensures css != ""
    {
      StatusCssClass(Value(status))
    }
  }

  /** The loop of the `events` view: every listed event whose date is
      strictly before `now` gets `update_status`; the others are untouched.
      A query result lists each row once. */
  method RefreshPastEvents(events: seq<Event>, now: int)
    requires forall i, j :: 0 <= i < j < |events| ==> events[i] != events[j]
    modifies set e | e in events
    ensures forall k :: 0 <= k < |events| && old(events[k].scheduledAt) < now ==>
      events[k].status == Statuses.UpdateStatus(old(events[k].status), events[k].availableTickets,
                                                events[k].scheduledAt, events[k].previousDate, now).status
    // a past event is saved exactly when its status changed
    ensures forall k :: 0 <= k < |events| && old(events[k].scheduledAt) < now ==>
      events[k].stored == (if events[k].status != old(events[k].status) then events[k].Row()
                           else old(events[k].stored))
    ensures forall k :: 0 <= k < |events| && now <= old(events[k].scheduledAt) ==>
      events[k].status == old(events[k].status) && events[k].stored == old(events[k].stored)
    ensures forall k :: 0 <= k < |events| ==>
      events[k].Row() == old(events[k].Row()).(status := events[k].status)
  {
    for i := 0 to |events|
      invariant forall k :: 0 <= k < i && old(events[k].scheduledAt) < now ==>
        events[k].status == Statuses.UpdateStatus(old(events[k].status), events[k].availableTickets,
                                                  events[k].scheduledAt, events[k].previousDate, now).status
      invariant forall k :: 0 <= k < i && old(events[k].scheduledAt) < now ==>
        events[k].stored == (if events[k].status != old(events[k].status) then events[k].Row()
                             else old(events[k].stored))
      invariant forall k :: 0 <= k < i && now <= old(events[k].scheduledAt) ==>
        events[k].status == old(events[k].status) && events[k].stored == old(events[k].stored)
      invariant forall k :: i <= k < |events| ==>
        events[k].status == old(events[k].status) && events[k].stored == old(events[k].stored)
      invariant forall k :: 0 <= k < |events| ==>
        events[k].Row() == old(events[k].Row()).(status := events[k].status)
    {
      var event := events[i];
      if event.scheduledAt < now {
        var _ := event.UpdateStatus(now);
      }
    }
  }
}
