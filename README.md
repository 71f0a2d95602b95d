# EventHub core in Dafny

EventHub is a Django site where organizers publish events at venues, sell
tickets of several types, and notify attendees. Attendees buy, amend and
return tickets, rate and comment on events, and keep favorites. This project
models the rules behind those actions, found in `app/models.py` and
`app/views.py`, and proves what they guarantee. The proofs also show two
places where the ticket ledger loses seats.

Modules, one per file:

- `Common` (`common.dfy`): `Option`, error maps, and Python's `str.strip`,
  `iexact` comparison, `str.isdigit` and `int()` on digit strings.
- `Statuses`: the five event statuses, their badge classes, and
  `Event.update_status` as a pure function of the status on entry, the ticket
  counter, the two dates and an explicit `now`.
- `Catalog`: categories, venues and ticket types, each with its validator,
  creation and in-place update.
- `Accounts`: the checks made before registering a user.
- `Events`: the `Event` class, with `validate`/`new`/`update`, the stateful
  `update_status`, the organizer-only cancel, and the refresh loop of the
  events listing.
- `Tickets`: the ticket ledger (`validate`/`new`/`update`/`delete`). It also
  holds corrected versions of `update` and `delete`, and concrete runs that
  show the losses.
- `Notifications`: the notification validator, the `UserNotification` join
  table with its `unique_together` key, the `m2m_changed` receiver,
  recipient replacement, and the two read-marking views.
- `Favorites`, `Ratings`, `Comments`: `toggle_favorite`, the
  create-or-update in `rating_create_or_update`, and `comment_edit`.

How the model represents the system:

- Objects whose fields the source changes in place are classes.
  - An `Event` and a `Ticket` each carry a `stored` field: the row as last
    written by `save()`. So the contracts can say which changes reach the
    database, and when.
  - The join tables (`UserNotification`, `Favorite`, `Rating`) are sequences
    of rows. For `UserNotification` and `Favorite`, uniqueness of the key is
    an invariant that the operations are proved to keep. `Rating` has no
    uniqueness constraint; the model proves only that the upsert never adds
    a second rating for the same user and event.
- The other tables are parameters:
  - the titles, names and venue keys already stored, as maps from primary key
    to value;
  - the set of emails, usernames and ticket-type names.
- Identifiers of new rows are parameters not yet in use.
- Times are integer minutes, and `timezone.now()` is the parameter `now`.
- Prices are integer cents.

The model follows the code where the repository's tests expect something
else:

- `Event.update` sends no notification when the date or venue changes, although
  `app/test/test_unit/test_event.py:194-256` expects one.

Behaviour kept as written:

- `Event.update` resets the counter to the venue's capacity on every update
  that has a venue, whatever tickets were already sold. Without a venue the
  counter is kept.
- `update_status` is not idempotent.
- `Ticket.update` saves the new counter before its remaining checks.

## Model

| member | source | states |
|---|---|---|
| Common.Strip | app/models.py:47 | the result is the input without its leading and trailing whitespace; it is empty exactly when the input is all whitespace |
| Common.StripIdempotent | app/models.py:59-66 | stripping an already stripped name changes nothing, so `new` storing `name.strip()` of the stripped name stores the stripped name |
| Common.EqualsIgnoreCaseIsEquivalence | app/models.py:49 | the `iexact` comparison is reflexive, symmetric and transitive |
| Common.DigitsValue | app/views.py:403 | `int()` of a digit string: a single digit is its own value, and the last digit is the value modulo 10 |
| Common.DigitsValueLeadingZero | app/views.py:403 | a leading '0' does not change the value `int()` gives |
| Statuses.Value | app/models.py:80-85 | every status has a non-empty stored value |
| Statuses.ValueInjective | app/models.py:80-85 | distinct statuses have distinct stored values |
| Statuses.StatusCssClass | app/models.py:185-192 | each of the five values maps to its badge class; any other value maps to "", and only those do |
| Statuses.UpdateStatus | app/models.py:165-181 | CANCELLED is kept and not saved; a past event becomes FINISHED, or the fallback if it already was; a future sold-out event becomes SOLD_OUT, or the fallback if it already was; a future event with tickets gets the fallback; saved exactly when the status changed |
| Statuses.UpdateStatusFixedPoints | app/models.py:175-181 | the status stays the same exactly for CANCELLED, and for a future event with tickets that already holds its fallback status |
| Statuses.UpdateStatusPeriodTwo | app/models.py:165-181 | re-evaluating with nothing else changed repeats with period at most two |
| Statuses.FinishedEventOscillates | app/models.py:173-179 | a FINISHED event whose date has passed flips to ACTIVE or RESCHEDULED when re-evaluated, saving, and then back to FINISHED |
| Statuses.RescheduleScenario | app/models.py:169-174 | a rescheduled event is RESCHEDULED, then SOLD_OUT at 0 tickets, then FINISHED once its date is reached |
| Catalog.Category.Create | app/models.py:65-69 | the new category holds the given values |
| Catalog.Category.Validate | app/models.py:44-55 | "name" is an error exactly when the name is blank or another category has it ignoring case, with the blank message winning; "description" exactly when it is blank |
| Catalog.Category.New | app/models.py:58-71 | validates the stripped name; creates a category with the stripped name and description only when there is no error |
| Catalog.Category.Update | app/models.py:73-78 | a non-empty name replaces the old one, stripped; the description is stripped and the flag overwritten; nothing is validated, so the save succeeds exactly when no other category holds exactly the resulting name (the `unique=True` column at app/models.py:36) |
| Catalog.ValidatedNameSaves | app/models.py:36-55 | a name that `validate` accepts for a category is not held exactly by any other category, so saving it cannot break the unique name column |
| Catalog.Venue.Create | app/models.py:226-232 | the new venue holds the given values |
| Catalog.Venue.Validate | app/models.py:205-217 | "name" is an error exactly when the name is blank or taken ignoring case; "address" exactly when it is blank or another venue has it in the same city, ignoring case |
| Catalog.Venue.New | app/models.py:220-234 | creates the venue with the values unstripped, only when there is no error |
| Catalog.Venue.Update | app/models.py:236-250 | validates the new name against the old address and city; when that passes, every empty new value keeps the old one (for the capacity, which the model takes as an integer, an empty field is 0); otherwise nothing changes |
| Catalog.TicketType.Create | app/models.py:380-383 | the new type holds the given name and price |
| Catalog.TicketType.Validate | app/models.py:362-371 | "name" is an error exactly when the name is empty or already used, and the "required" message overrides "taken"; "price" exactly when it is absent or not positive |
| Catalog.TicketType.New | app/models.py:374-385 | creates the type only when there is no error |
| Catalog.TicketType.Update | app/models.py:387-393 | only a present, positive price is stored; otherwise the price error and no change |
| Accounts.ValidateNewUser | app/models.py:14-32 | each of email and username is an error exactly when it is absent or already registered; "password" exactly when either password is absent or they differ, with the matching messages |
| Events.Event.Create | app/models.py:130-138 | the new event is ACTIVE, has no previous date, and is saved as created |
| Events.Event.Validate | app/models.py:105-121 | "title" is an error exactly when the title is blank or another event has it ignoring case; "description" exactly when it is blank; "scheduled_at" exactly when the date is absent or not after now |
| Events.Event.New | app/models.py:124-140 | validates the inputs as given; on success the event has the stripped title and description, the venue's capacity as tickets, status ACTIVE and a future date |
| Events.Event.UpdateStatus | app/models.py:165-181 | the chain of assignments ends in the status `Statuses.UpdateStatus` gives; the row is saved exactly when the status changed |
| Events.Event.Update | app/models.py:142-163 | absent fields keep their values; the result is validated with its own id excluded, so an unchanged past date fails; on success the counter is reset to the venue's capacity when there is a venue, the previous date is recorded only when the date changes, the status is refreshed and the row saved; on failure nothing changes |
| Events.Event.Apply | app/models.py:153-162 | the writes `update` makes after validation, the save, then the status refresh |
| Events.Event.Cancel | app/views.py:162-168 | an organizer sets CANCELLED whatever the prior status, and saves; anyone else changes nothing |
| Events.Event.CssClass | app/models.py:185-192 | every event has a badge class |
| Events.RefreshPastEvents | app/views.py:96-99 | events dated strictly before now get the status `update_status` computes and are saved exactly when that status changed; the others are untouched; no other field changes |
| Tickets.Ticket.Create | app/models.py:308-316 | the new ticket holds the given values, with no old total and no modification date, and is saved |
| Tickets.Ticket.Validate | app/models.py:276-294 | "user", "ticket_type", "quantity" and "status" are errors exactly when the user or type is absent, the quantity is not positive, or the event is SOLD_OUT, FINISHED or CANCELLED |
| Tickets.Ticket.New | app/models.py:297-317 | on a validation error, or with too few tickets left, nothing changes; otherwise the counter drops by exactly the quantity, SOLD_OUT is set when it reaches 0, the event is saved, and a ticket priced price × quantity is created with its id as its code, holding at least one seat; a counter that was not negative stays so |
| Tickets.Ticket.Update | app/models.py:320-340 | the counter moves by the quantity difference; a negative counter fails without saving; otherwise the event is saved before the quantity and 30-minute checks; success exactly when the counter is ≥ 0, the quantity is positive, and the owner is an organizer or it is not later than purchase + 30; on success the type, quantity, old and new totals and the modification time are set and saved; the ticket holds a seat afterwards exactly when it did before or the update succeeded; the saved counter never becomes negative |
| Tickets.Ticket.Delete | app/models.py:342-355 | succeeds for an organizer, or strictly before purchase + 30; adds the quantity back and refreshes the status; the organizer path saves the event, the attendee path only when the status changed; on refusal nothing changes; for a ticket holding a seat, counters that were not negative stay so |
| Tickets.Ticket.UpdateAtomic | app/models.py:320-340 | `update` with every check before any write: the same outcomes, and the same message for a negative counter, a non-positive quantity and a closed window; a refusal changes nothing; success keeps the saved counter plus the ticket's saved quantity constant; the ticket keeps holding a seat and the counters stay non-negative |
| Tickets.Ticket.DeleteAndSave | app/models.py:342-355 | `delete` with the event saved on both paths: the saved counter plus the ticket's saved quantity stays constant, and non-negative counters stay so |
| Tickets.UpdateToZeroLeaksSeats | app/models.py:321-328 | an attendee's update to quantity 0 is refused, yet the saved counter goes from 5 to 7 while the ticket still holds 2 |
| Tickets.LateUpdateLosesSeat | app/models.py:321-331 | an update from 2 to 3 tickets at minute 31 is refused, yet the saved counter goes from 5 to 4 |
| Tickets.AttendeeReturnLosesSeats | app/models.py:349-353 | an attendee returns 2 tickets of an ACTIVE event: the ticket row is gone, and the saved counter stays 5 while memory holds 7 |
| Tickets.SellOutScenario | app/models.py:301-306 | buying 5 of 10 leaves 5 and ACTIVE; buying the other 5 leaves 0 and SOLD_OUT |
| Notifications.Validate | app/models.py:406-416 | "title" and "message" are errors exactly when blank; "event" and "users" exactly when absent, with their messages |
| Notifications.UniqueIffAtMostOne | app/models.py:486-487 | the rows are unique exactly when every (user, notification) pair has at most one row |
| Notifications.ReadAllOfCounts | app/views.py:715-725 | after marking all read, the user has no unread notification, and every other user has as many as before |
| Notifications.UserNotificationTable.Find | app/views.py:703 | the position of the (user, notification) row, or none exactly when there is no such row |
| Notifications.UserNotificationTable.GetOrCreate | app/models.py:496 | inserts an unread row exactly when the pair had none; keeps the rows unique |
| Notifications.UserNotificationTable.CreateUserNotifications | app/models.py:491-496 | on "post_add" every added user ends with exactly one row; the rows already there keep their read state; new rows are unread; when all rows exist, nothing changes; other actions change nothing |
| Notifications.UserNotificationTable.AddRecipients | app/models.py:433 | the many-to-many add: the recipients grow by exactly the given users, with unread rows, and the old rows are kept |
| Notifications.UserNotificationTable.SetRecipients | app/models.py:449 | the recipients become exactly the given set; staying users keep their rows and read state; dropped users lose theirs; new users get unread rows; other notifications' rows are kept |
| Notifications.UserNotificationTable.MarkRead | app/views.py:697-710 | only the caller's row for that notification is marked read at now; nothing changes when there is no such row |
| Notifications.UserNotificationTable.MarkAllRead | app/views.py:713-727 | every row of the caller is marked read at now; every other row is unchanged |
| Notifications.Notification.Create | app/models.py:425-430 | the new notification holds the given values |
| Notifications.Notification.New | app/models.py:419-436 | on a validation error nothing changes; otherwise the notification is created with the stripped title and message, its recipients are exactly the wrapped users, all unread, earlier rows are kept, and the only rows added are unread rows of the new notification |
| Notifications.Notification.Update | app/models.py:438-453 | on a validation error nothing changes; otherwise the fields are overwritten (stripped) and the recipients replaced as `SetRecipients` states |
| Favorites.ToggledPairs | app/views.py:810-816 | a toggle keeps the pairs unique, removes the pair when present and adds it when absent |
| Favorites.ToggleTwiceRestores | app/test/test_integration/test_favorite.py:57-69 | toggling the same pair twice restores the set of favorites |
| Favorites.FavoriteTable.Toggle | app/views.py:808-816 | answers true exactly when the pair was absent and is now present; the table becomes the toggled table |
| Ratings.RatingErrors | app/views.py:395-404 | "title" is an error exactly when the stripped title is empty; "rating" exactly when the value is absent, not all digits, or outside 1 to 5 |
| Ratings.ZeroValueIffAllZeros | app/views.py:403 | `int()` of a digit string is 0 exactly when every digit is '0' |
| Ratings.AcceptedValueShape | app/views.py:403 | the accepted rating strings are exactly zeros followed by one digit from '1' to '5' |
| Ratings.FirstOf | app/views.py:392 | the first row of that user and event, or the table's length when there is none |
| Ratings.UpsertedCounts | app/views.py:414-426 | the upsert never adds a second rating for a user and event: one when there was none, as many as before otherwise; other pairs are unchanged |
| Ratings.UpsertedFirst | app/views.py:414-418 | after the upsert, the user's first rating of the event is the new one |
| Ratings.RatingTable.CreateOrUpdate | app/views.py:390-428 | on an error nothing changes; otherwise the stripped title and text and the integer rating overwrite the first existing rating or are appended |
| Comments.CommentErrors | app/views.py:765-772 | "title" and "text" are errors exactly when blank, with their messages |
| Comments.Comment.Edit | app/views.py:757-785 | anyone but the author is sent away with no change; the author gets the errors with no change, or the stripped title and text saved |

## Findings

| source | as written | input that shows it | evidently intended | confidence | as-written member | corrected member |
|---|---|---|---|---|---|---|
| app/models.py:321-328 | `update` saves the changed counter before it checks the quantity | attendee ticket for 2 on an event with 5 left; update to quantity 0 at minute 10 is refused, but the saved counter becomes 7 while the ticket still holds 2 | a refused update writes nothing; the saved counter plus the ticket's quantity stays constant | high; not executed | Tickets.UpdateToZeroLeaksSeats | Tickets.Ticket.UpdateAtomic |
| app/models.py:321-331 | `update` saves the changed counter before it checks the 30-minute window | attendee ticket for 2, event with 5 left; update to 3 at minute 31 is refused, but the saved counter becomes 4 | a refused update writes nothing | high; not executed | Tickets.LateUpdateLosesSeat | Tickets.Ticket.UpdateAtomic |
| app/models.py:349-353 | the attendee path of `delete` deletes the ticket but saves the event only if `update_status` changes its status | ACTIVE future event with 5 left; an attendee returns 2 tickets at minute 10; the ticket row is gone and the saved counter stays 5 | save the event, as the organizer path does at line 346, so the 2 seats return to sale | high; not executed | Tickets.AttendeeReturnLosesSeats | Tickets.Ticket.DeleteAndSave |

`Tickets.Ticket.Update` and `Tickets.Ticket.Delete` model the code as
written. The corrected members stand beside them and prove that the ledger
is conserved.

## Left out

- HTTP handling in `app/views.py`: sessions, login, redirects, rendering, `get_object_or_404`, and the splitting of date and time strings in `event_form`.
- The ORM itself. Tables are maps, sets and sequences; `save()` is the `stored` snapshot; primary keys and ticket codes are parameters.
- Transactions and concurrent requests: the source has none.
- `Event.upcoming()`, called by `app/views.py:102`: it is not defined in `app/models.py`.
- Notifications on a date or venue change: `Event.update` does not send them, although the tests expect them.
- `NotificationPriority.new/update`: a priority is an opaque optional id here.
- The category, venue and ticket-type views, apart from the model methods they call; `comment_create`, which never stores a comment; and the delete views.
- Decimal and float prices: prices are integer cents. The `isinstance(price, (int, float))` and `isinstance(quantity, int)` checks are absent, because the model's types already rule out other values.
- `str.strip`, `isdigit` and `iexact` on non-ASCII text. The model strips ASCII whitespace (codes 9–13 and 28–32), accepts the digits '0'–'9', and folds only 'A'–'Z'.
- The several calls to `now()` inside one request are one instant, `now`.
- Favorites' `created_at` ordering and ratings' `created_at`: only the listing order depends on them.
- Catalog.Venue.Update: the capacity is an integer where 0 stands for an empty form field. The program passes the raw form string from `app/views.py:345` through `app/views.py:370` without `int()`. So a typed "0" is truthy and replaces the capacity with 0, where the model keeps the old one, and a non-numeric string makes `save()` raise, a path the model does not have.
- Catalog.Venue.New: the capacity is an integer, while `app/views.py:351` passes the raw form string; a non-numeric string makes the creation raise, a path the model does not have.
- Tickets.Ticket.Validate: an absent event crashes the source at line 291 instead of returning the "event" error, so the model always takes an event.
- Tickets.Ticket.Update: after a refusal for a negative counter the in-memory counter stays negative, as in the source (lines 321-323 return before anything is saved); only the saved counter is promised to stay non-negative.
- Tickets.Ticket.Update: an absent ticket type crashes the source at line 336, so the model always takes a ticket type; an absent quantity is not modelled.
- Events.Event.CssClass: states only that every event has a class; the full mapping is stated by `Statuses.StatusCssClass`.
- Notifications.UserNotificationTable.AddRecipients: Django's bulk insertion of the missing rows is modelled one row at a time.
