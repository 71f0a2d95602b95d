/**
  Notifications and their per-user read state.

  A notification is sent to users through the `UserNotification` join table:
  one row per (user, notification) pair, unique by `unique_together`, holding
  whether that user has read it and when. The table is a sequence of rows
  here, so that uniqueness is a property the operations are proved to keep
  rather than one the representation gives for free.

  Setting the recipients of a notification removes the rows of users no
  longer named, inserts unread rows for the users newly named, and then fires
  the `m2m_changed` "post_add" signal, whose receiver runs `get_or_create`
  for every added user.
*/
module Notifications {
  import opened Common

  const TitleBlank := "El título no puede estar vacío"
  const MessageBlank := "El mensaje no puede estar vacío"
  const EventMissing := "El evento no puede ser nulo"
  const UsersMissing := "Los usuarios no pueden ser nulos"

  /** The `users` argument of `new` and `update`: a single user, or a list of users. */
  datatype Recipients = One(user: UserId) | Many(users: seq<UserId>)

  /** `if isinstance(users, User): users = [users]`, then the set that
      `notification.user.set(users)` makes the recipients. */
  function RecipientIds(r: Recipients): (ids: set<UserId>)
    ensures r.One? ==> ids == {r.user}
    ensures r.Many? ==> forall u :: u in ids <==> u in r.users
  {
    match r
    case One(u) => {u}
    case Many(us) => set u | u in us
  }

  /** `Notification.validate`: title and message must be non-blank, and an
      event and a recipients argument must be given (an empty list is given). */
  function Validate(title: string, message: string, event: Option<nat>,
                    users: Option<Recipients>): (errors: Errors)
    ensures errors.Keys <= {"title", "message", "event", "users"}
    ensures "title" in errors <==> IsBlank(title)
    ensures "message" in errors <==> IsBlank(message)
    ensures "event" in errors <==> event.None?
    ensures "users" in errors <==> users.None?
    ensures "title" in errors ==> errors["title"] == TitleBlank
    ensures "message" in errors ==> errors["message"] == MessageBlank
    ensures "event" in errors ==> errors["event"] == EventMissing
    ensures "users" in errors ==> errors["users"] == UsersMissing
  {
    var e1 := if IsBlank(title) then map["title" := TitleBlank] else map[];
    var e2 := if IsBlank(message) then e1["message" := MessageBlank] else e1;
    var e3 := if event.None? then e2["event" := EventMissing] else e2;
    if users.None? then e3["users" := UsersMissing] else e3
  }

  // ------------------------------------------------------ the join table rows

  datatype UserNotification = UserNotification(user: UserId, notification: nat,
                                               isRead: bool, readAt: Option<int>)

  /** An unread row, as `get_or_create` and the many-to-many `add` insert it. */
  function Unread(u: UserId, n: nat): (r: UserNotification)
    ensures r.user == u && r.notification == n && !r.isRead && r.readAt.None?
  {
    UserNotification(u, n, false, None)
  }

  predicate SameKey(a: UserNotification, b: UserNotification) {
    a.user == b.user && a.notification == b.notification
  }

  /** `unique_together = ('user', 'notification')`. */
  predicate Unique(rows: seq<UserNotification>) {
    forall i, j :: 0 <= i < j < |rows| ==> !SameKey(rows[i], rows[j])
  }

  /** User `u` is a recipient of notification `n`. */
  predicate HasRow(rows: seq<UserNotification>, u: UserId, n: nat) {
    exists r :: r in rows && r.user == u && r.notification == n
  }

  /** The number of rows for the pair (u, n). */
  function Count(rows: seq<UserNotification>, u: UserId, n: nat): (c: nat)
    ensures c == 0 <==> !HasRow(rows, u, n)
    ensures c <= |rows|
  {
    if rows == [] then 0
    else
      var last := rows[|rows| - 1];
      assert rows == rows[..|rows| - 1] + [last];
      Count(rows[..|rows| - 1], u, n) + (if last.user == u && last.notification == n then 1 else 0)
  }

  /** A row appended to unique rows keeps them unique exactly when no
      earlier row has its key. */
  lemma UniqueSnoc(rows: seq<UserNotification>, x: UserNotification)
    requires Unique(rows)
    ensures Unique(rows + [x]) <==> forall y :: y in rows ==> !SameKey(y, x)
  {
    if forall y :: y in rows ==> !SameKey(y, x) {
      forall i, j | 0 <= i < j < |rows + [x]|
        ensures !SameKey((rows + [x])[i], (rows + [x])[j])
      {
        if j == |rows| {
          assert (rows + [x])[i] in rows;
        }
      }
    } else {
      var y :| y in rows && SameKey(y, x);
      var i :| 0 <= i < |rows| && rows[i] == y;
      assert (rows + [x])[i] == y && (rows + [x])[|rows|] == x;
    }
  }

  /** Uniqueness means exactly what `unique_together` promises: at most one
      row for every pair, and conversely. */
  lemma {:induction false} UniqueIffAtMostOne(rows: seq<UserNotification>)
    ensures Unique(rows) <==> forall u, n :: Count(rows, u, n) <= 1
  {
    if rows == [] {
      return;
    }
    var init, last := rows[..|rows| - 1], rows[|rows| - 1];
    assert rows == init + [last];
    UniqueIffAtMostOne(init);
    if Unique(rows) {
      assert Unique(init) by {
        forall i, j | 0 <= i < j < |init| ensures !SameKey(init[i], init[j]) {
          assert init[i] == rows[i] && init[j] == rows[j];
        }
      }
      UniqueSnoc(init, last);
      forall u, n ensures Count(rows, u, n) <= 1 {
        assert Count(init, u, n) <= 1;
        if last.user == u && last.notification == n {
          assert Count(init, u, n) == 0;
        }
      }
    } else {
      if Unique(init) {
        UniqueSnoc(init, last);
        var y :| y in init && SameKey(y, last);
        assert HasRow(init, last.user, last.notification);
        assert Count(rows, last.user, last.notification) >= 2;
      } else {
        var u, n :| Count(init, u, n) > 1;
        assert Count(rows, u, n) > 1;
      }
    }
  }

  /** The rows left after the recipients of `n` are cut down to `keep`:
      the rows of the other notifications, and those of `n` whose user stays. */
  function Drop(rows: seq<UserNotification>, n: nat, keep: set<UserId>): (r: seq<UserNotification>)
    ensures forall x :: x in r <==> x in rows && (x.notification != n || x.user in keep)
    ensures |r| <= |rows|
  {
    if rows == [] then []
    else
      var init, last := rows[..|rows| - 1], rows[|rows| - 1];
      assert rows == init + [last];
      Drop(init, n, keep) + (if last.notification != n || last.user in keep then [last] else [])
  }

  lemma {:induction false} DropKeepsUnique(rows: seq<UserNotification>, n: nat, keep: set<UserId>)
    requires Unique(rows)
    ensures Unique(Drop(rows, n, keep))
  {
    if rows != [] {
      var init, last := rows[..|rows| - 1], rows[|rows| - 1];
      assert rows == init + [last];
      assert Unique(init) by {
        forall i, j | 0 <= i < j < |init| ensures !SameKey(init[i], init[j]) {
          assert init[i] == rows[i] && init[j] == rows[j];
        }
      }
      DropKeepsUnique(init, n, keep);
      UniqueSnoc(init, last);
      if last.notification != n || last.user in keep {
        UniqueSnoc(Drop(init, n, keep), last);
      }
    }
  }

  /** The rows after `mark_all_notifications_read` for user `u` at `now`. */
  function ReadAllOf(rows: seq<UserNotification>, u: UserId, now: int): (r: seq<UserNotification>)
    ensures |r| == |rows|
    ensures forall i :: 0 <= i < |r| ==> SameKey(r[i], rows[i])
  {
    seq(|rows|, i requires 0 <= i < |rows| =>
      if rows[i].user == u then rows[i].(isRead := true, readAt := Some(now)) else rows[i])
  }

  /** The number of notifications `u` has not read. */
  function UnreadCount(rows: seq<UserNotification>, u: UserId): (c: nat)
    ensures c <= |rows|
  {
    if rows == [] then 0
    else
      var last := rows[|rows| - 1];
      UnreadCount(rows[..|rows| - 1], u) + (if last.user == u && !last.isRead then 1 else 0)
  }

  /** After marking all read, `u` has no unread notification and every other
      user has exactly as many as before. */
  lemma {:induction false} ReadAllOfCounts(rows: seq<UserNotification>, u: UserId, now: int, v: UserId)
    ensures UnreadCount(ReadAllOf(rows, u, now), u) == 0
    ensures v != u ==> UnreadCount(ReadAllOf(rows, u, now), v) == UnreadCount(rows, v)
  {
    if rows != [] {
      var init := rows[..|rows| - 1];
      var marked := ReadAllOf(rows, u, now);
      assert marked[..|rows| - 1] == ReadAllOf(init, u, now);
      ReadAllOfCounts(init, u, now, v);
    }
  }

  // ---------------------------------------------------------- the join table

  datatype M2MAction = PreAdd | PostAdd | PreRemove | PostRemove | PreClear | PostClear

  class UserNotificationTable {
    var rows: seq<UserNotification>

    constructor Empty()
      ensures rows == []
    {
      rows := [];
    }

    predicate Valid()
      reads this
    {
      Unique(rows)
    }

    /** `UserNotification.objects.get(user=u, notification=n)`: the position
        of the row, or None where the source gets `DoesNotExist`. */
    method Find(u: UserId, n: nat) returns (index: Option<nat>)
      ensures index.None? ==> !HasRow(rows, u, n)
      ensures index.Some? ==> index.value < |rows| && rows[index.value].user == u
                              && rows[index.value].notification == n
    {
      var i := 0;
      while i < |rows|
        invariant 0 <= i <= |rows|
        invariant forall j :: 0 <= j < i ==> !(rows[j].user == u && rows[j].notification == n)
      {
        if rows[i].user == u && rows[i].notification == n {
          return Some(i);
        }
        i := i + 1;
      }
      return None;
    }

    /** `UserNotification.objects.get_or_create(user=u, notification=n)`. */
    method GetOrCreate(u: UserId, n: nat) returns (created: bool)
      requires Valid()
      modifies this
      ensures Valid() && HasRow(rows, u, n)
      ensures created <==> !HasRow(old(rows), u, n)
      ensures rows == if created then old(rows) + [Unread(u, n)] else old(rows)
    {
      var index := Find(u, n);
      if index.Some? {
        assert rows[index.value] in rows;
        return false;
      }
      UniqueSnoc(rows, Unread(u, n));
      rows := rows + [Unread(u, n)];
      assert rows[|rows| - 1] in rows;
      return true;
    }

    /** The `m2m_changed` receiver `create_user_notifications`: on "post_add"
        it makes sure every added user has a row for the notification; any
        other action changes nothing. Rows already there keep their read
        state, new rows are unread, and when every user already has a row
        nothing is inserted: re-adding never duplicates. */
    method CreateUserNotifications(n: nat, action: M2MAction, pkSet: set<UserId>)
      requires Valid()
      modifies this
      ensures Valid()
      ensures action != PostAdd ==> rows == old(rows)
      ensures |old(rows)| <= |rows| && rows[..|old(rows)|] == old(rows)
      ensures forall i :: |old(rows)| <= i < |rows| ==>
        rows[i] == Unread(rows[i].user, n) && rows[i].user in pkSet
      ensures action == PostAdd ==> forall u :: HasRow(rows, u, n) <==> HasRow(old(rows), u, n) || u in pkSet
      ensures (forall u :: u in pkSet ==> HasRow(old(rows), u, n)) ==> rows == old(rows)
    {
      if action != PostAdd {
        return;
      }
      var todo := pkSet;
      ghost var added: seq<UserNotification> := [];
      while todo != {}
        invariant todo <= pkSet
        invariant Valid() && rows == old(rows) + added
        invariant forall r :: r in added ==> r == Unread(r.user, n) && r.user in pkSet - todo
        invariant forall u :: u in pkSet - todo ==> HasRow(rows, u, n)
        invariant (forall u :: u in pkSet ==> HasRow(old(rows), u, n)) ==> added == []
        decreases |todo|
      {
        var u :| u in todo;
        ghost var before := rows;
        var created := GetOrCreate(u, n);
        if created {
          added := added + [Unread(u, n)];
        }
        forall v | v in pkSet - todo ensures HasRow(rows, v, n) {
          var r :| r in before && r.user == v && r.notification == n;
          assert r in rows;
        }
        todo := todo - {u};
      }
      assert rows[..|old(rows)|] == old(rows);
      forall i | |old(rows)| <= i < |rows| ensures rows[i] == Unread(rows[i].user, n) && rows[i].user in pkSet {
        assert rows[i] == added[i - |old(rows)|];
      }
    }

    /** The many-to-many `add`: inserts an unread row for each user of `ids`
        without one, then sends "post_add" with the users it added. */
    method AddRecipients(n: nat, ids: set<UserId>)
      requires Valid()
      modifies this
      ensures Valid()
      ensures |old(rows)| <= |rows| && rows[..|old(rows)|] == old(rows)
      ensures forall i :: |old(rows)| <= i < |rows| ==> rows[i] == Unread(rows[i].user, n)
      ensures forall u :: HasRow(rows, u, n) <==> HasRow(old(rows), u, n) || u in ids
    {
      var missing := set u | u in ids && !HasRow(rows, u, n);
      var todo := missing;
      ghost var added: seq<UserNotification> := [];
      while todo != {}
        invariant todo <= missing
        invariant Valid() && rows == old(rows) + added
        invariant forall r :: r in added ==> r == Unread(r.user, n) && r.user in missing - todo
        invariant forall u :: u in missing - todo ==> HasRow(rows, u, n)
        decreases |todo|
      {
        var u :| u in todo;
        assert !HasRow(rows, u, n);
        ghost var before := rows;
        UniqueSnoc(rows, Unread(u, n));
        rows := rows + [Unread(u, n)];
        added := added + [Unread(u, n)];
        assert Unread(u, n) in rows;
        forall v | v in missing - todo ensures HasRow(rows, v, n) {
          var r :| r in before && r.user == v && r.notification == n;
          assert r in rows;
        }
        todo := todo - {u};
      }
      assert rows[..|old(rows)|] == old(rows);
      forall i | |old(rows)| <= i < |rows| ensures rows[i] == Unread(rows[i].user, n) {
        assert rows[i] == added[i - |old(rows)|];
      }
      CreateUserNotifications(n, PostAdd, missing);
    }

    /** `notification.user.set(users)`: the recipients of `n` become exactly
        `users`. Rows of users who stay keep their read state, rows of users
        dropped are deleted, the new users get unread rows, and the rows of
        other notifications are untouched. */
    method SetRecipients(n: nat, users: set<UserId>)
      requires Valid()
      modifies this
      ensures Valid()
      ensures forall u :: HasRow(rows, u, n) <==> u in users
      ensures forall r :: r in old(rows) && (r.notification != n || r.user in users) ==> r in rows
      ensures forall r :: r in rows ==> r in old(rows) || r == Unread(r.user, n)
    {
      DropKeepsUnique(rows, n, users);
      rows := Drop(rows, n, users);
      ghost var kept := rows;
      AddRecipients(n, users);
      forall r | r in rows ensures r in old(rows) || r == Unread(r.user, n) {
        var k :| 0 <= k < |rows| && rows[k] == r;
        if k < |kept| {
          assert rows[..|kept|][k] == r;
        }
      }
      forall r | r in kept ensures r in rows {
        assert r in rows[..|kept|];
      }
    }

    /** `mark_notification_read`: the row of (u, n), if there is one, is
        marked read at `now`; no other row changes. */
    method MarkRead(u: UserId, n: nat, now: int)
      requires Valid()
      modifies this
      ensures Valid()
      ensures |rows| == |old(rows)|
      ensures forall i :: 0 <= i < |rows| ==>
        rows[i] == if old(rows)[i].user == u && old(rows)[i].notification == n
                   then old(rows)[i].(isRead := true, readAt := Some(now))
                   else old(rows)[i]
    {
      var index := Find(u, n);
      if index.Some? {
        var i := index.value;
        rows := rows[i := rows[i].(isRead := true, readAt := Some(now))];
        forall j | 0 <= j < |rows| && j != i
          ensures !(old(rows)[j].user == u && old(rows)[j].notification == n)
        {
          if j < i {
            assert !SameKey(old(rows)[j], old(rows)[i]);
          } else {
            assert !SameKey(old(rows)[i], old(rows)[j]);
          }
        }
        forall j, k | 0 <= j < k < |rows| ensures !SameKey(rows[j], rows[k]) {
          assert SameKey(rows[j], old(rows)[j]) && SameKey(rows[k], old(rows)[k]);
        }
      }
    }

    /** `mark_all_notifications_read`: for each notification of `u`, mark its
        row read. Every row of `u` is read at `now`; other rows are untouched. */
    method MarkAllRead(u: UserId, now: int)
      requires Valid()
      modifies this
      ensures Valid()
      ensures rows == ReadAllOf(old(rows), u, now)
    {
      for i := 0 to |rows|
        invariant Valid()
        invariant |rows| == |old(rows)|
        invariant forall j :: 0 <= j < |rows| ==> SameKey(rows[j], old(rows)[j])
        invariant forall j :: 0 <= j < i ==> rows[j] == ReadAllOf(old(rows), u, now)[j]
        invariant forall j :: i <= j < |rows| ==> rows[j] == old(rows)[j]
      {
        if rows[i].user == u {
          MarkRead(u, rows[i].notification, now);
        }
      }
    }
  }

  // ------------------------------------------------------------ notification

  class Notification {
    const id: nat
    var title: string
    var message: string
    var event: nat
    var priority: Option<nat>

    constructor Create(id: nat, title: string, message: string, event: nat, priority: Option<nat>)
      ensures this.id == id && this.title == title && this.message == message
      ensures this.event == event && this.priority == priority
    {
      this.id := id;
      this.title := title;
      this.message := message;
      this.event := event;
      this.priority := priority;
    }

    /** `Notification.new`: validates, creates the row with the stripped
        title and message, and sets its recipients. */
    static method New(id: nat, title: string, message: string, event: Option<nat>,
                      users: Option<Recipients>, priority: Option<nat>, table: UserNotificationTable)
      returns (ok: bool, errors: Errors, notification: Notification?)
      requires table.Valid()
      requires forall r :: r in table.rows ==> r.notification != id
      modifies table
      ensures table.Valid()
      ensures errors == Validate(title, message, event, users)
      ensures ok <==> errors == map[]
      ensures !ok ==> notification == null && unchanged(table)
      ensures ok ==> notification != null && fresh(notification) && notification.id == id
      ensures ok ==> notification.title == Strip(title) && notification.message == Strip(message)
      ensures ok ==> event.Some? && notification.event == event.value && notification.priority == priority
      ensures ok ==> users.Some? && forall u :: HasRow(table.rows, u, id) <==> u in RecipientIds(users.value)
      ensures ok ==> forall r :: r in table.rows && r.notification == id ==> r == Unread(r.user, id)
      ensures ok ==> forall r :: r in old(table.rows) ==> r in table.rows
      ensures ok ==> forall r :: r in table.rows ==> r in old(table.rows) || r == Unread(r.user, id)
    {
      errors := Validate(title, message, event, users);
      if errors != map[] {
        return false, errors, null;
      }
      notification := new Notification.Create(id, Strip(title), Strip(message), event.value, priority);
      table.SetRecipients(id, RecipientIds(users.value));
      ok := true;
    }

    /** `Notification.update`: validates, overwrites the fields and resets
        the recipients. */
    method Update(title: string, message: string, event: Option<nat>,
                  users: Option<Recipients>, priority: Option<nat>, table: UserNotificationTable)
      returns (ok: bool, errors: Errors)
      requires table.Valid()
      modifies this, table
      ensures table.Valid()
      ensures errors == Validate(title, message, event, users)
      ensures ok <==> errors == map[]
      ensures !ok ==> unchanged(this) && unchanged(table)
      ensures ok ==> this.title == Strip(title) && this.message == Strip(message)
      ensures ok ==> event.Some? && this.event == event.value && this.priority == priority
      ensures ok ==> users.Some? && forall u :: HasRow(table.rows, u, id) <==> u in RecipientIds(users.value)
      ensures ok ==> forall r :: r in old(table.rows) && (r.notification != id || r.user in RecipientIds(users.value))
                                 ==> r in table.rows
      ensures ok ==> forall r :: r in table.rows ==> r in old(table.rows) || r == Unread(r.user, id)
    {
      errors := Validate(title, message, event, users);
      if errors != map[] {
        return false, errors;
      }
      this.title := Strip(title);
      this.message := Strip(message);
      this.event := event.value;
      table.SetRecipients(id, RecipientIds(users.value));
      this.priority := priority;
      ok := true;
    }
  }
}
