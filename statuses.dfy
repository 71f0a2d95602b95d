/**
  The event status machine: the five states of `EventStatus`, the badge
  class each is shown with, and `Event.update_status`, which recomputes an
  event's status from its ticket counter and dates.

  `update_status` is written here as a pure function of the status on entry,
  the counter, the two dates and an explicit `now`; it returns the new status
  and whether the event was saved. Its fallback branch makes it NOT
  idempotent: a finished or sold-out event that is re-evaluated flips away and
  back again. The lemmas state that behaviour as it is.
*/
module Statuses {
  import opened Common

  datatype Status = Active | SoldOut | Rescheduled | Finished | Cancelled

  /** The value stored in the `status` column. */
  function Value(s: Status): (v: string)
    ensures |v| > 0
  {
    match s
    case Active => "active"
    case SoldOut => "sold_out"
    case Rescheduled => "rescheduled"
    case Finished => "finished"
    case Cancelled => "cancelled"
  }

  lemma ValueInjective(s: Status, t: Status)
    ensures Value(s) == Value(t) ==> s == t
  {
  }

  /** `get_status_css_class`: the badge class for a stored status value,
      and "" for any value that is not one of the five. */
  function StatusCssClass(status: string): (css: string)
    ensures css == "" <==> forall s: Status :: Value(s) != status
    ensures status == Value(Active) ==> css == "badge bg-success"
    ensures status == Value(Cancelled) ==> css == "badge bg-danger"
    ensures status == Value(Rescheduled) ==> css == "badge bg-warning"
    ensures status == Value(SoldOut) ==> css == "badge bg-secondary"
    ensures status == Value(Finished) ==> css == "badge bg-dark"
  {
    if status == Value(Active) then "badge bg-success"
    else if status == Value(Cancelled) then "badge bg-danger"
    else if status == Value(Rescheduled) then "badge bg-warning"
    else if status == Value(SoldOut) then "badge bg-secondary"
    else if status == Value(Finished) then "badge bg-dark"
    else ""
  }

  /** `self.previous_date and self.previous_date != self.scheduled_at`. */
  predicate IsRescheduled(previousDate: Option<int>, scheduledAt: int) {
    previousDate.Some? && previousDate.value != scheduledAt
  }

  /** The status the fallback branch settles on. */
  function Fallback(previousDate: Option<int>, scheduledAt: int): (s: Status)
    ensures s == Rescheduled <==> IsRescheduled(previousDate, scheduledAt)
    ensures s == Active <==> !IsRescheduled(previousDate, scheduledAt)
  {
    if IsRescheduled(previousDate, scheduledAt) then Rescheduled else Active
  }

  datatype StatusUpdate = StatusUpdate(status: Status, saved: bool)

  /** `Event.update_status`, step by step as the source assigns `self.status`:
      RESCHEDULED, then SOLD_OUT, then FINISHED each overwrite the previous
      candidate; if the candidate equals the entry status the fallback
      recomputes it; the event is saved when the status changed.
      The contract is the closed form of that chain. */
  function UpdateStatus(status: Status, availableTickets: int, scheduledAt: int,
                        previousDate: Option<int>, now: int): (r: StatusUpdate)
    // CANCELLED is sticky and is never saved again
    ensures status == Cancelled ==> r == StatusUpdate(Cancelled, false)
    ensures status != Cancelled ==> r.status != Cancelled
    // saved exactly when the status changed
    ensures r.saved <==> r.status != status
    // a past event becomes FINISHED, unless it already was: then it flips to the fallback
    ensures status != Cancelled && scheduledAt <= now ==>
      r.status == (if status == Finished then Fallback(previousDate, scheduledAt) else Finished)
    // a future event without tickets becomes SOLD_OUT, unless it already was
    ensures status != Cancelled && now < scheduledAt && availableTickets == 0 ==>
      r.status == (if status == SoldOut then Fallback(previousDate, scheduledAt) else SoldOut)
    // a future event with tickets always ends RESCHEDULED or ACTIVE, whatever it was
    ensures status != Cancelled && now < scheduledAt && availableTickets != 0 ==>
      r.status == Fallback(previousDate, scheduledAt)
  {
    if status == Cancelled then StatusUpdate(status, false)
    else
      var afterReschedule := if IsRescheduled(previousDate, scheduledAt) then Rescheduled else status;
      var afterSoldOut := if availableTickets == 0 then SoldOut else afterReschedule;
      var afterFinished := if scheduledAt <= now then Finished else afterSoldOut;
      var final := if afterFinished == status then Fallback(previousDate, scheduledAt) else afterFinished;
      StatusUpdate(final, final != status)
  }

  /** The only statuses `update_status` leaves alone: CANCELLED, and the
      fallback status of a future event that still has tickets. */
  lemma UpdateStatusFixedPoints(status: Status, availableTickets: int, scheduledAt: int,
                                previousDate: Option<int>, now: int)
    ensures UpdateStatus(status, availableTickets, scheduledAt, previousDate, now).status == status
      <==> status == Cancelled
           || (now < scheduledAt && availableTickets != 0 && status == Fallback(previousDate, scheduledAt))
  {
  }

  /** Re-evaluating with nothing else changed cycles with period at most two:
      the third evaluation gives what the first gave. */
  lemma UpdateStatusPeriodTwo(status: Status, availableTickets: int, scheduledAt: int,
                              previousDate: Option<int>, now: int)
    ensures var first := UpdateStatus(status, availableTickets, scheduledAt, previousDate, now).status;
            var second := UpdateStatus(first, availableTickets, scheduledAt, previousDate, now).status;
            UpdateStatus(second, availableTickets, scheduledAt, previousDate, now).status == first
  {
  }

  /** A finished event whose date has passed, re-evaluated with nothing changed flips to ACTIVE (or
      RESCHEDULED) and back to FINISHED: `update_status` is not idempotent. */
  lemma FinishedEventOscillates(availableTickets: int, scheduledAt: int,
                                previousDate: Option<int>, now: int)
    requires scheduledAt <= now
    ensures var first := UpdateStatus(Finished, availableTickets, scheduledAt, previousDate, now);
            var second := UpdateStatus(first.status, availableTickets, scheduledAt, previousDate, now);
            first.status == Fallback(previousDate, scheduledAt) && first.saved
            && second.status == Finished && second.saved
  {
  }

  /** The reschedule scenario: a rescheduled event with tickets is RESCHEDULED;
      when its counter reaches 0 it becomes SOLD_OUT; once its date passes it
      becomes FINISHED. */
  lemma RescheduleScenario(d1: int, d2: int, now: int)
    requires d1 != d2 && now < d2
    ensures UpdateStatus(Active, 10, d2, Some(d1), now).status == Rescheduled
    ensures UpdateStatus(Rescheduled, 0, d2, Some(d1), now).status == SoldOut
    ensures UpdateStatus(SoldOut, 0, d2, Some(d1), d2).status == Finished
  {
  }
}
