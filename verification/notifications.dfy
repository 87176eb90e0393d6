/** The admin's inbox of new-booking notifications: newest first, at most 50
    kept, with read flags, removal, and the rule for which inserted bookings
    raise a notification. */
module Notifications {
  import opened Wrappers
  import Bookings
  import Seqs
  import Strings

  datatype Notification = Notification(
    id: string,
    bookingId: string,
    title: string,
    content: string,
    memberName: string,
    memberPhone: string,
    stationId: int,
    date: string,
    startTime: string,
    endTime: string,
    read: bool,
    createdAt: string)

  /** The number of entries the inbox keeps. */
  const Capacity: nat := 50

  predicate IsUnread(n: Notification) {
    !n.read
  }

  /** The badge count: the entries not yet read. */
  function UnreadCount(ns: seq<Notification>): nat {
    Seqs.Count(ns, IsUnread)
  }

  /** The unread count of an inbox that starts with one entry. */
  lemma UnreadCountCons(n: Notification, rest: seq<Notification>)
    ensures UnreadCount([n] + rest) == UnreadCount(rest) + (if n.read then 0 else 1)
  {
    Seqs.FilterAppend([n], rest, IsUnread);
  }

  /** The notification for a booking; `stamp` stands for `Date.now()` and
      `now` for the creation time. */
  function NotificationFor(b: Bookings.Booking, stamp: string, now: string): (n: Notification)
    ensures n.id == b.id + "-" + stamp && n.bookingId == b.id && !n.read
    ensures n.title == "新的预约" && n.createdAt == now
    ensures n.content == b.memberName + " 预约了 " + Strings.IntToDec(b.stationId) + "号骑行台"
    ensures n.memberName == b.memberName && n.memberPhone == b.memberPhone && n.stationId == b.stationId
    ensures n.date == b.date && n.startTime == b.startTime && n.endTime == b.endTime
  {
    Notification(b.id + "-" + stamp, b.id, "新的预约",
      b.memberName + " 预约了 " + Strings.IntToDec(b.stationId) + "号骑行台",
      b.memberName, b.memberPhone, b.stationId, b.date, b.startTime, b.endTime, false, now)
  }

  /** `addNotification`: the new entry first, the older ones after it in
      their order, cut to the capacity from the tail. */
  function Add(ns: seq<Notification>, b: Bookings.Booking, stamp: string, now: string): (r: seq<Notification>)
    ensures |r| == if |ns| + 1 <= Capacity then |ns| + 1 else Capacity
    ensures r[0] == NotificationFor(b, stamp, now)
    ensures r[1..] == ns[..|r| - 1]
  {
    var all := [NotificationFor(b, stamp, now)] + ns;
    if |all| <= Capacity then all else all[..Capacity]
  }

  /** The inbox never grows past its capacity. */
  lemma AddKeepsCapacity(ns: seq<Notification>, b: Bookings.Booking, stamp: string, now: string)
    ensures |Add(ns, b, stamp, now)| <= Capacity
  {
  }

  /** Below the capacity nothing is dropped and the badge goes up by one. */
  lemma AddBelowCapacity(ns: seq<Notification>, b: Bookings.Booking, stamp: string, now: string)
    requires |ns| < Capacity
    ensures Add(ns, b, stamp, now) == [NotificationFor(b, stamp, now)] + ns
    ensures UnreadCount(Add(ns, b, stamp, now)) == UnreadCount(ns) + 1
  {
    UnreadCountCons(NotificationFor(b, stamp, now), ns);
  }

  /** `markAsRead`: the entries with the id become read; nothing else changes. */
  function MarkAsRead(ns: seq<Notification>, id: string): (r: seq<Notification>)
    ensures |r| == |ns|
    ensures forall i :: 0 <= i < |ns| ==> r[i] == if ns[i].id == id then ns[i].(read := true) else ns[i]
  {
    seq(|ns|, i requires 0 <= i < |ns| => if ns[i].id == id then ns[i].(read := true) else ns[i])
  }

  /** Marking one entry read lowers the badge by the unread entries with that id. */
  lemma {:induction false} MarkAsReadCount(ns: seq<Notification>, id: string)
    ensures UnreadCount(MarkAsRead(ns, id)) == UnreadCount(ns) - Seqs.Count(ns, (n: Notification) => n.id == id && !n.read)
    decreases |ns|
  {
    var p := (n: Notification) => n.id == id && !n.read;
    if |ns| > 0 {
      var r := MarkAsRead(ns, id);
      MarkAsReadCount(ns[1..], id);
      assert r == [r[0]] + MarkAsRead(ns[1..], id);
      assert ns == [ns[0]] + ns[1..];
      UnreadCountCons(r[0], MarkAsRead(ns[1..], id));
      UnreadCountCons(ns[0], ns[1..]);
      Seqs.FilterAppend([ns[0]], ns[1..], p);
    }
  }

  /** Marking the same entry read twice is marking it once. */
  lemma MarkAsReadIdempotent(ns: seq<Notification>, id: string)
    ensures MarkAsRead(MarkAsRead(ns, id), id) == MarkAsRead(ns, id)
  {
  }

  /** `markAllAsRead`: every entry read, contents otherwise kept. */
  function MarkAllAsRead(ns: seq<Notification>): (r: seq<Notification>)
    ensures |r| == |ns|
    ensures forall i :: 0 <= i < |ns| ==> r[i] == ns[i].(read := true)
  {
    seq(|ns|, i requires 0 <= i < |ns| => ns[i].(read := true))
  }

  /** After marking all read the badge shows nothing. */
  lemma MarkAllClearsBadge(ns: seq<Notification>)
    ensures UnreadCount(MarkAllAsRead(ns)) == 0
  {
    Seqs.FilterDropsAll(MarkAllAsRead(ns), IsUnread);
  }

  /** `removeNotification`: the entries with the id are dropped, the rest keep their order. */
  function Remove(ns: seq<Notification>, id: string): (r: seq<Notification>)
    ensures Seqs.IsSubsequence(r, ns)
    ensures forall n :: n in r <==> n in ns && n.id != id
    ensures forall n {:trigger multiset(r)[n]} :: multiset(r)[n] == if n.id != id then multiset(ns)[n] else 0
  {
    Seqs.Filter(ns, (n: Notification) => n.id != id)
  }

  /** Removing never raises the badge. */
  lemma {:induction false} RemoveLowersBadge(ns: seq<Notification>, id: string)
    ensures UnreadCount(Remove(ns, id)) <= UnreadCount(ns)
    decreases |ns|
  {
    if |ns| > 0 {
      var p := (n: Notification) => n.id != id;
      assert ns == [ns[0]] + ns[1..];
      Seqs.FilterAppend([ns[0]], ns[1..], p);
      RemoveLowersBadge(ns[1..], id);
      UnreadCountCons(ns[0], ns[1..]);
      if p(ns[0]) {
        assert Remove(ns, id) == [ns[0]] + Remove(ns[1..], id);
        UnreadCountCons(ns[0], Remove(ns[1..], id));
      } else {
        assert Remove(ns, id) == Remove(ns[1..], id);
      }
    }
  }

  /** `clearAll`. */
  function ClearAll(ns: seq<Notification>): (r: seq<Notification>)
    ensures |r| == 0 && UnreadCount(r) == 0
  {
    []
  }

  // ---------------------------------------------------------------------------
  // The realtime listener.

  /** An inserted booking raises a notification only when it is for today
      (the key passed in) and confirmed. */
  predicate Accepts(b: Bookings.Booking, today: string) {
    b.date == today && b.status == Bookings.Confirmed
  }

  /** The listener's effect on the inbox for one inserted row. */
  function OnInsert(ns: seq<Notification>, b: Bookings.Booking, today: string, stamp: string, now: string): (r: seq<Notification>)
    ensures Accepts(b, today) ==> |r| > 0 && r[0].bookingId == b.id && !r[0].read
    ensures Accepts(b, today) ==> r == Add(ns, b, stamp, now)
    ensures !Accepts(b, today) ==> r == ns
  {
    if Accepts(b, today) then Add(ns, b, stamp, now) else ns
  }

  /** A booking for another day, or one not confirmed, leaves the badge alone;
      an accepted one below capacity raises it by exactly one. */
  lemma OnInsertBadge(ns: seq<Notification>, b: Bookings.Booking, today: string, stamp: string, now: string)
    requires |ns| < Capacity
    ensures UnreadCount(OnInsert(ns, b, today, stamp, now)) == UnreadCount(ns) + (if Accepts(b, today) then 1 else 0)
  {
    if Accepts(b, today) {
      AddBelowCapacity(ns, b, stamp, now);
    }
  }
}
