/** The notification controller: a user's notifications page by page with
    the unread count, marking one or all read, and deleting one. */
module Notifications {
  import opened Common
  import opened Base
  import opened Sorting
  import opened Store

  // ---- Listing -------------------------------------------------------------

  /** The listing query: the notifications of `me`; with a `read` parameter,
      only the read ones when it is `"true"` and only the unread ones for
      any other value. */
  predicate NotificationQuery(x: Notification, me: Id, read: Option<string>) {
    x.userId == Some(me) && (read.Some? ==> x.read == (read.value == "true"))
  }

  function NotificationFilter(me: Id, read: Option<string>): (q: Notification -> bool)
    ensures forall x :: q(x) == NotificationQuery(x, me, read)
  {
    (x: Notification) => NotificationQuery(x, me, read)
  }

  /** Any value of `read` other than `"true"` selects the unread
      notifications; no value selects all of them. */
  lemma ReadParameter(x: Notification, me: Id, read: Option<string>)
    ensures read.None? ==> (NotificationQuery(x, me, read) <==> x.userId == Some(me))
    ensures read == Some("true") ==> (NotificationQuery(x, me, read) <==> x.userId == Some(me) && x.read)
    ensures read.Some? && read != Some("true") ==> (NotificationQuery(x, me, read) <==> x.userId == Some(me) && !x.read)
  {
  }

  /** `sort({ createdAt: -1 })`. */
  function NewestNotificationFirst(e: (Id, Notification)): int {
    -e.1.createdAt
  }

  function UnreadOf(me: Id): (q: Notification -> bool)
    ensures forall x :: q(x) <==> x.userId == Some(me) && !x.read
  {
    (x: Notification) => x.userId == Some(me) && !x.read
  }

  /** `countDocuments({ userId: me, read: false })`. */
  function UnreadCount(notifications: map<Id, Notification>, n: nat, me: Id): nat {
    |Select(notifications, n, UnreadOf(me))|
  }

  /** A page of a newest-first list of stored notifications passing `q`. */
  lemma NotificationPage(all: seq<(Id, Notification)>, notifications: map<Id, Notification>,
                         q: Notification -> bool, page: int, limit: int)
    requires page >= 1 && limit >= 1 && SortedBy(all, NewestNotificationFirst)
    requires forall k :: 0 <= k < |all| ==>
      all[k].0 in notifications && notifications[all[k].0] == all[k].1 && q(all[k].1)
    ensures var rows := Page(all, page, limit);
      && |rows| <= limit
      && (forall k :: 0 <= k < |rows| ==>
            rows[k].0 in notifications && notifications[rows[k].0] == rows[k].1 && q(rows[k].1))
      && (forall i, j :: 0 <= i < j < |rows| ==> rows[i].1.createdAt >= rows[j].1.createdAt)
  {
    var rows := Page(all, page, limit);
    PageSorted(all, page, limit, NewestNotificationFirst);
    assert forall i, j :: 0 <= i < j < |rows| ==>
      NewestNotificationFirst(rows[i]) <= NewestNotificationFirst(rows[j]);
    StoredPage(all, notifications, q, page, limit);
  }

  /** `getNotifications`: the requested page of the caller's notifications
      passing the `read` filter, newest first; their number and page count;
      and the number of the caller's unread notifications, whatever the
      filter. */
  method GetNotifications(db: Db, me: Id, read: Option<string>, page: int, limit: int)
    returns (notifications: seq<(Id, Notification)>, unreadCount: nat, total: nat, totalPages: int)
    requires page >= 1 && limit >= 1
    ensures var all := SelectSorted(db.notifications, db.nextId, NotificationFilter(me, read),
                                    NewestNotificationFirst);
      && total == |all|
      && notifications == Page(all, page, limit)
    ensures |notifications| <= limit
    ensures forall k :: 0 <= k < |notifications| ==>
      notifications[k].0 in db.notifications && db.notifications[notifications[k].0] == notifications[k].1 &&
      NotificationQuery(notifications[k].1, me, read)
    ensures forall i, j :: 0 <= i < j < |notifications| ==>
      notifications[i].1.createdAt >= notifications[j].1.createdAt
    ensures totalPages == TotalPages(total, limit)
    ensures unreadCount == UnreadCount(db.notifications, db.nextId, me)
  {
    var query := NotificationFilter(me, read);
    var all := SelectSorted(db.notifications, db.nextId, query, NewestNotificationFirst);
    notifications := Page(all, page, limit);
    total := |all|;
    totalPages := TotalPages(total, limit);
    unreadCount := UnreadCount(db.notifications, db.nextId, me);
    NotificationPage(all, db.notifications, query, page, limit);
  }

  // ---- Marking one read, deleting one --------------------------------------

  /** The checks of `markAsRead` and of a delete: the notification exists
      (404); comparing the owner of one without a recipient throws (500);
      the requester owns it (403). */
  function OwnerGuard(notifications: map<Id, Notification>, me: Id, id: Id): (status: int)
    ensures status == NOT_FOUND <==> id !in notifications
    ensures status == SERVER_ERROR <==> id in notifications && notifications[id].userId.None?
    ensures status == FORBIDDEN <==>
      id in notifications && notifications[id].userId.Some? && notifications[id].userId.value != me
    ensures status == OK <==> id in notifications && notifications[id].userId == Some(me)
  {
    if id !in notifications then NOT_FOUND
    else if notifications[id].userId.None? then SERVER_ERROR
    else if notifications[id].userId.value != me then FORBIDDEN
    else OK
  }

  /** The notification store after notification `id` is marked read. */
  function ReadOne(notifications: map<Id, Notification>, id: Id): map<Id, Notification>
    requires id in notifications
  {
    notifications[id := notifications[id].(read := true)]
  }

  /** Marking the same notification read twice is allowed and changes
      nothing more. */
  lemma ReadOneIdempotent(notifications: map<Id, Notification>, me: Id, id: Id)
    requires OwnerGuard(notifications, me, id) == OK
    ensures OwnerGuard(ReadOne(notifications, id), me, id) == OK
    ensures ReadOne(ReadOne(notifications, id), id) == ReadOne(notifications, id)
  {
    var once := ReadOne(notifications, id);
    assert once[id := once[id].(read := true)] == once;
  }

  /** Marking one read lowers the caller's unread count by one when it was
      unread and leaves it otherwise. */
  lemma ReadOneCount(notifications: map<Id, Notification>, n: nat, me: Id, id: Id)
    requires OwnerGuard(notifications, me, id) == OK && id < n
    ensures UnreadCount(ReadOne(notifications, id), n, me) ==
      UnreadCount(notifications, n, me) - (if notifications[id].read then 0 else 1)
  {
    SelectLess(notifications, ReadOne(notifications, id), n, UnreadOf(me), id);
  }

  /** `markAsRead`: the checks, then the read flag is set (200). */
  method MarkNotificationRead(db: Db, me: Id, id: Id) returns (status: int)
    requires db.Valid()
    modifies db
    ensures db.Valid()
    ensures status == OwnerGuard(old(db.notifications), me, id)
    ensures status != OK ==> db.State() == old(db.State())
    ensures status == OK ==> db.State() == old(db.State()).(notifications := ReadOne(old(db.notifications), id))
  {
    status := OwnerGuard(db.notifications, me, id);
    if status != OK {
      return;
    }
    ghost var st := db.State();
    WithNotificationsValid(st, ReadOne(st.notifications, id));
    db.notifications := ReadOne(db.notifications, id);
    assert db.State() == st.(notifications := ReadOne(st.notifications, id));
  }

  /** `deleteNotification`: the checks, then the notification is removed
      (200). */
  method DeleteNotification(db: Db, me: Id, id: Id) returns (status: int)
    requires db.Valid()
    modifies db
    ensures db.Valid()
    ensures status == OwnerGuard(old(db.notifications), me, id)
    ensures status != OK ==> db.State() == old(db.State())
    ensures status == OK ==> db.State() == old(db.State()).(notifications := old(db.notifications) - {id})
  {
    status := OwnerGuard(db.notifications, me, id);
    if status != OK {
      return;
    }
    ghost var st := db.State();
    WithNotificationsValid(st, st.notifications - {id});
    db.notifications := db.notifications - {id};
    assert db.State() == st.(notifications := st.notifications - {id});
  }

  // ---- Marking all read ----------------------------------------------------

  /** `updateMany({ userId: me, read: false }, { read: true })`. */
  function AllRead(notifications: map<Id, Notification>, me: Id): (r: map<Id, Notification>)
    ensures r.Keys == notifications.Keys
  {
    map i | i in notifications :: if notifications[i].userId == Some(me)
                                  then notifications[i].(read := true) else notifications[i]
  }

  /** Afterwards the caller has no unread notification. */
  lemma AllReadClears(notifications: map<Id, Notification>, n: nat, me: Id)
    ensures UnreadCount(AllRead(notifications, me), n, me) == 0
  {
    SelectNone(AllRead(notifications, me), n, UnreadOf(me));
  }

  /** The notifications of everyone else are untouched, and so are their
      unread counts. */
  lemma AllReadKeepsOthers(notifications: map<Id, Notification>, n: nat, me: Id, other: Id)
    requires other != me
    ensures forall i :: i in notifications && notifications[i].userId != Some(me) ==>
      AllRead(notifications, me)[i] == notifications[i]
    ensures UnreadCount(AllRead(notifications, me), n, other) == UnreadCount(notifications, n, other)
  {
    SelectSame(notifications, AllRead(notifications, me), n, UnreadOf(other));
  }

  /** `markAllAsRead` (200). */
  method MarkAllAsRead(db: Db, me: Id) returns (status: int)
    requires db.Valid()
    modifies db
    ensures db.Valid()
    ensures status == OK
    ensures db.State() == old(db.State()).(notifications := AllRead(old(db.notifications), me))
  {
    ghost var st := db.State();
    WithNotificationsValid(st, AllRead(st.notifications, me));
    db.notifications := AllRead(db.notifications, me);
    assert db.State() == st.(notifications := AllRead(st.notifications, me));
    status := OK;
  }
}
