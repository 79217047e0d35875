/**
 A user's notification inbox: listing (which marks the listed notifications
 read), marking one or all as read, and the unread count.
 */
module NotificationViews {
  import opened Common
  import opened Sorting
  import opened UserModels

  datatype Priority = Low | Medium | High | Urgent

  /** A notification row; `readAt` is set whenever it is marked read. */
  datatype Notification = Notification(
    id: nat, recipient: UserId, title: string, message: string, priority: Priority,
    isRead: bool, readAt: Option<Time>, createdAt: Time)

  const MarkedSuffix := " notificaciones marcadas como leídas"

  /** One notification after `is_read = True; read_at = now; save()`. */
  function MarkRead(n: Notification, now: Time): (r: Notification)
    ensures r.isRead && r.readAt == Some(now)
    ensures r.id == n.id && r.recipient == n.recipient && r.createdAt == n.createdAt
  {
    n.(isRead := true, readAt := Some(now))
  }

  predicate UnreadFor(n: Notification, user: UserId) {
    n.recipient == user && !n.isRead
  }

  /** One row as the bulk marking leaves it: only the user's unread rows change. */
  function ReadIfUnread(n: Notification, user: UserId, now: Time): Notification {
    if UnreadFor(n, user) then MarkRead(n, now) else n
  }

  /** The table after every unread notification of `user` has been marked read at `now`. */
  function ReadAll(notes: seq<Notification>, user: UserId, now: Time): seq<Notification> {
    seq(|notes|, i requires 0 <= i < |notes| => ReadIfUnread(notes[i], user, now))
  }

  function Unread(notes: seq<Notification>, user: UserId): nat {
    Count(notes, (n: Notification) => UnreadFor(n, user))
  }

  /** Newest first: the model's `Meta.ordering = ['-created_at']`. */
  function NewestFirst(): (Notification, Notification) -> bool {
    KeyDesc((n: Notification) => n.createdAt)
  }

  function Mine(notes: seq<Notification>, user: UserId): seq<Notification> {
    Filter(notes, (n: Notification) => n.recipient == user)
  }

  /** After the bulk marking the user has nothing unread. */
  lemma {:induction false} ReadAllLeavesNoneUnread(notes: seq<Notification>, user: UserId, now: Time)
    ensures Unread(ReadAll(notes, user, now), user) == 0
  {
    var r := ReadAll(notes, user, now);
    forall i | 0 <= i < |r| ensures !UnreadFor(r[i], user) {
      assert r[i] == ReadIfUnread(notes[i], user, now);
    }
    FilterNone(r, (n: Notification) => UnreadFor(n, user));
  }

  /** Another user's notifications, and their unread count, are exactly as before. */
  lemma {:induction false} ReadAllKeepsOthers(notes: seq<Notification>, user: UserId, other: UserId, now: Time)
    requires other != user
    ensures Mine(ReadAll(notes, user, now), other) == Mine(notes, other)
    ensures Unread(ReadAll(notes, user, now), other) == Unread(notes, other)
  {
    if notes != [] {
      ReadAllKeepsOthers(notes[1..], user, other, now);
      var r := ReadAll(notes, user, now);
      assert r == [ReadIfUnread(notes[0], user, now)] + ReadAll(notes[1..], user, now);
      assert r[1..] == ReadAll(notes[1..], user, now);
      assert r[0].recipient == other <==> notes[0].recipient == other;
    }
  }

  /**
   The inbox: the notification table, updated in place by the handlers.
   */
  class Inbox {
    var notes: seq<Notification>

    /** Notification ids are the table's primary key. */
    ghost predicate Valid()
      reads this
    {
      forall i, j :: 0 <= i < j < |notes| ==> notes[i].id != notes[j].id
    }

    constructor (notes: seq<Notification>)
      requires forall i, j :: 0 <= i < j < |notes| ==> notes[i].id != notes[j].id
      ensures Valid() && this.notes == notes
    {
      this.notes := notes;
    }

    /** The bulk marking loop shared by `user_notifications` and `mark_all_as_read`. */
    method MarkUnreadOf(user: UserId, now: Time)
      requires Valid()
      modifies this`notes
      ensures Valid()
      ensures notes == ReadAll(old(notes), user, now)
    {
      var i := 0;
      while i < |notes|
        invariant 0 <= i <= |notes| == |old(notes)|
        invariant forall j :: 0 <= j < i ==> notes[j] == ReadIfUnread(old(notes)[j], user, now)
        invariant forall j :: i <= j < |notes| ==> notes[j] == old(notes)[j]
      {
        if UnreadFor(notes[i], user) {
          notes := notes[i := MarkRead(notes[i], now)];
        }
        i := i + 1;
      }
    }

    /**
     `user_notifications`: marks the user's unread notifications read, then
     lists all of the user's notifications, newest first, as they now are.
     */
    method UserNotifications(user: UserId, now: Time) returns (list: seq<Notification>)
      requires Valid()
      modifies this`notes
      ensures Valid()
      ensures notes == ReadAll(old(notes), user, now)
      ensures list == Sort(Mine(notes, user), NewestFirst())
    {
      MarkUnreadOf(user, now);
      list := Sort(Mine(notes, user), NewestFirst());
    }

    /**
     `mark_as_read`: the user's own notification with that id is marked read
     (again, with a new `read_at`, if it already was); anything else is a 404.
     */
    method MarkAsRead(user: UserId, id: nat, now: Time) returns (r: Result<Notification>)
      requires Valid()
      modifies this`notes
      ensures Valid()
      ensures r.Err? <==> forall j :: 0 <= j < |old(notes)| ==> !(old(notes)[j].id == id && old(notes)[j].recipient == user)
      ensures r.Err? ==> r == Err(NotFound) && notes == old(notes)
      ensures r.Ok? ==>
        exists j :: 0 <= j < |old(notes)| && old(notes)[j].id == id && old(notes)[j].recipient == user
          && r.value == MarkRead(old(notes)[j], now) && notes == old(notes)[j := r.value]
    {
      var j := 0;
      while j < |notes|
        invariant 0 <= j <= |notes|
        invariant forall k :: 0 <= k < j ==> !(notes[k].id == id && notes[k].recipient == user)
      {
        if notes[j].id == id && notes[j].recipient == user {
          var n := MarkRead(notes[j], now);
          notes := notes[j := n];
          return Ok(n);
        }
        j := j + 1;
      }
      return Err(NotFound);
    }

    /**
     `mark_all_as_read`: marks every unread notification of the user read and
     reports how many were unread before the call (the query's cached rows).
     */
    method MarkAllAsRead(user: UserId, now: Time) returns (count: nat, message: string)
      requires Valid()
      modifies this`notes
      ensures Valid()
      ensures count == Unread(old(notes), user)
      ensures message == NatToString(count) + MarkedSuffix
      ensures notes == ReadAll(old(notes), user, now)
      ensures Unread(notes, user) == 0
    {
      count := Unread(notes, user);
      ReadAllLeavesNoneUnread(notes, user, now);
      MarkUnreadOf(user, now);
      message := NatToString(count) + MarkedSuffix;
    }

    /** `unread_count`. */
    function UnreadCount(user: UserId): (c: nat)
      reads this
      ensures c <= |notes|
      ensures c == 0 <==> forall i :: 0 <= i < |notes| ==> !UnreadFor(notes[i], user)
    {
      UnreadIsZeroIff(notes, user);
      Unread(notes, user)
    }
  }

  /** No unread notification for the user exactly when the count is zero. */
  lemma {:induction false} UnreadIsZeroIff(notes: seq<Notification>, user: UserId)
    ensures Unread(notes, user) == 0 <==> forall i :: 0 <= i < |notes| ==> !UnreadFor(notes[i], user)
  {
    if forall i :: 0 <= i < |notes| ==> !UnreadFor(notes[i], user) {
      FilterNone(notes, (n: Notification) => UnreadFor(n, user));
    } else {
      var i :| 0 <= i < |notes| && UnreadFor(notes[i], user);
      assert notes[i] in Filter(notes, (n: Notification) => UnreadFor(n, user));
    }
  }

  /** A second `mark_all_as_read` reports zero and changes nothing. */
  lemma SecondMarkAllIsNoOp(notes: seq<Notification>, user: UserId, now: Time, later: Time)
    ensures Unread(ReadAll(notes, user, now), user) == 0
    ensures ReadAll(ReadAll(notes, user, now), user, later) == ReadAll(notes, user, now)
  {
    ReadAllLeavesNoneUnread(notes, user, now);
  }
}
