/** src/services/notificationService.js over src/models/Notification.js:
    a user's inbox with its unread count, marking one or all as read,
    deleting one's own notification, and creating one. */
module NotificationService {
  import opened Common
  import opened Store
  import opened Response

  const NotificationNotFound := "Notification not found"
  const NotificationInvalid := "Notification validation failed"

  const KindEnum: set<string> := {"announcement", "result", "event", "enrollment", "grade", "system"}
  const ResourceTypeEnum: set<string> := {"announcement", "result", "event", "course"}

  /** The user's unread notifications, `countDocuments({ recipient, isRead: false })`. */
  function UnreadCount(notes: seq<Doc<Notification>>, user: Id): nat
  {
    Count(notes, (n: Notification) => n.recipient == user && !n.isRead)
  }

  /** All the user's notifications, `countDocuments({ recipient })`. */
  function OwnCount(notes: seq<Doc<Notification>>, user: Id): nat
  {
    Count(notes, (n: Notification) => n.recipient == user)
  }

  /** `getUserNotifications`: one page of the user's notifications, the
      unread count and the pagination; the unread count never exceeds the
      total. A page or limit the caller leaves out (`None`) defaults to 1
      and 20. */
  function GetUserNotifications(notes: seq<Doc<Notification>>, user: Id, page: Option<int>, limit: Option<int>)
    : (r: Result<(seq<Doc<Notification>>, nat, PageInfo)>)
    ensures var p := if page.Some? then page.value else 1;
      var l := if limit.Some? then limit.value else 20;
      (r.Err? <==> (p - 1) * l < 0) &&
      (r.Ok? ==> r.value.2.currentPage == p && r.value.2.limit == l && r.value.2.pages == PageCount(r.value.2.total, l))
    ensures r.Ok? ==> forall d :: d in r.value.0 ==> d in notes && d.val.recipient == user
    ensures r.Ok? ==> r.value.1 == UnreadCount(notes, user) && r.value.2.total == OwnCount(notes, user)
    ensures r.Ok? ==> r.value.1 <= r.value.2.total
  {
    var p := if page.Some? then page.value else 1;
    var l := if limit.Some? then limit.value else 20;
    var own := Select(notes, (n: Notification) => n.recipient == user);
    CountMonotone(notes, (n: Notification) => n.recipient == user && !n.isRead, (n: Notification) => n.recipient == user);
    match Window(own, (p - 1) * l, l)
    case Err(msg) => Err(msg)
    case Ok(items) =>
      assert forall d :: d in items ==> d in own;
      Ok((items, UnreadCount(notes, user), PageInfo(|own|, PageCount(|own|, l), p, l)))
  }

  /** With a positive limit, the user's notification at position `i` is on
      page `i / limit + 1`, between 1 and the page count. */
  lemma EveryNotificationListed(notes: seq<Doc<Notification>>, user: Id, limit: int, i: int)
    requires limit > 0 && 0 <= i < OwnCount(notes, user)
    ensures var page := i / limit + 1;
      var r := GetUserNotifications(notes, user, Some(page), Some(limit));
      1 <= page <= r.value.2.pages.value &&
      Select(notes, (n: Notification) => n.recipient == user)[i] in r.value.0
  {
    PagesCoverListing(Select(notes, (n: Notification) => n.recipient == user), limit, i);
  }

  /** `{ isRead: true, readAt: new Date() }` applied to one notification by
      an update query; the schema's `timestamps` add `updatedAt` to it. */
  function MarkedRead(n: Notification, now: int): (m: Notification)
    ensures m.isRead && m.readAt == Some(now) && m.updatedAt == now
    ensures m.recipient == n.recipient && m.title == n.title && m.message == n.message && m.kind == n.kind &&
            m.related == n.related && m.createdAt == n.createdAt
  {
    n.(isRead := true, readAt := Some(now), updatedAt := now)
  }

  /** Marking read twice leaves the notification read, stamped with the later time. */
  lemma MarkedReadTwice(n: Notification, t1: int, t2: int)
    ensures MarkedRead(MarkedRead(n, t1), t2) == MarkedRead(n, t2)
  {
  }

  /** The notification with this id belongs to `user`
      (`{ _id: notificationId, recipient: userId }`). */
  function FindOwn(notes: seq<Doc<Notification>>, notificationId: Id, user: Id): (r: Option<nat>)
    ensures r.Some? ==> r.value < |notes| && notes[r.value].id == notificationId && notes[r.value].val.recipient == user
    ensures r.None? ==> forall k :: 0 <= k < |notes| && notes[k].id == notificationId ==> notes[k].val.recipient != user
  {
    FirstIndex(notes, (d: Doc<Notification>) => d.id == notificationId && d.val.recipient == user)
  }

  /** `markAsRead`: only the caller's own notification with that id changes. */
  method MarkAsRead(db: Db, notificationId: Id, user: Id, now: int) returns (r: Result<Notification>)
    requires db.Valid()
    modifies db`notifications
    ensures db.Valid()
    ensures r.Err? <==> FindOwn(old(db.notifications), notificationId, user).None?
    ensures r.Err? ==> r == Err(NotificationNotFound) && db.notifications == old(db.notifications)
    ensures r.Ok? ==> var i := FindOwn(old(db.notifications), notificationId, user).value;
      r.value == MarkedRead(old(db.notifications)[i].val, now) &&
      db.notifications == old(db.notifications)[i := Doc(notificationId, r.value)]
    ensures UnreadCount(db.notifications, user) ==
      UnreadCount(old(db.notifications), user) -
      (if r.Ok? && !old(db.notifications)[FindOwn(old(db.notifications), notificationId, user).value].val.isRead
       then 1 else 0)
  {
    var found := FindOwn(db.notifications, notificationId, user);
    if found.None? {
      return Err(NotificationNotFound);
    }
    var i := found.value;
    var n := MarkedRead(db.notifications[i].val, now);
    UpdateWellKeyed(db.notifications, db.nextId, i, n);
    CountUpdate(db.notifications, (n: Notification) => n.recipient == user && !n.isRead, i, Doc(notificationId, n));
    db.SetNotifications(db.notifications[i := Doc(notificationId, n)]);
    r := Ok(n);
  }

  /** `updateMany({ recipient: userId, isRead: false }, { isRead: true, readAt })`. */
  function AllRead(notes: seq<Doc<Notification>>, user: Id, now: int): (r: seq<Doc<Notification>>)
    ensures |r| == |notes|
    ensures forall k :: 0 <= k < |notes| ==>
      (r[k] == if notes[k].val.recipient == user && !notes[k].val.isRead
               then Doc(notes[k].id, MarkedRead(notes[k].val, now)) else notes[k])
  {
    seq(|notes|, k requires 0 <= k < |notes| =>
      if notes[k].val.recipient == user && !notes[k].val.isRead then Doc(notes[k].id, MarkedRead(notes[k].val, now))
      else notes[k])
  }

  /** After `markAllAsRead` the user has nothing unread, and every other
      user's unread count is what it was. */
  lemma AllReadCounts(notes: seq<Doc<Notification>>, user: Id, other: Id, now: int)
    requires other != user
    ensures UnreadCount(AllRead(notes, user, now), user) == 0
    ensures UnreadCount(AllRead(notes, user, now), other) == UnreadCount(notes, other)
  {
    var after := AllRead(notes, user, now);
    CountNone(after, (n: Notification) => n.recipient == user && !n.isRead);
    CountAgree(after, notes, (n: Notification) => n.recipient == other && !n.isRead);
  }

  /** `markAllAsRead`: every unread notification of the user becomes read;
      the answer is how many were modified. */
  method MarkAllAsRead(db: Db, user: Id, now: int) returns (modified: nat)
    requires db.Valid()
    modifies db`notifications
    ensures db.Valid()
    ensures modified == UnreadCount(old(db.notifications), user)
    ensures db.notifications == AllRead(old(db.notifications), user, now)
  {
    modified := UnreadCount(db.notifications, user);
    var after := AllRead(db.notifications, user, now);
    SameIdsWellKeyed(db.notifications, after, db.nextId);
    db.SetNotifications(after);
  }

  /** `deleteNotification`: only the caller's own notification is removed. */
  method DeleteNotification(db: Db, notificationId: Id, user: Id) returns (r: Result<()>)
    requires db.Valid()
    modifies db`notifications
    ensures db.Valid()
    ensures r.Err? <==> FindOwn(old(db.notifications), notificationId, user).None?
    ensures r.Err? ==> r == Err(NotificationNotFound) && db.notifications == old(db.notifications)
    ensures r.Ok? ==>
      db.notifications == RemoveAt(old(db.notifications), FindOwn(old(db.notifications), notificationId, user).value)
    ensures forall d :: d in old(db.notifications) && d.val.recipient != user ==> d in db.notifications
  {
    var found := FindOwn(db.notifications, notificationId, user);
    if found.None? {
      return Err(NotificationNotFound);
    }
    RemoveAtWellKeyed(db.notifications, db.nextId, found.value);
    forall d | d in db.notifications && d.val.recipient != user
      ensures d in RemoveAt(db.notifications, found.value)
    {
      RemoveAtKeeps(db.notifications, found.value, d);
    }
    db.SetNotifications(RemoveAt(db.notifications, found.value));
    r := Ok(());
  }

  /** The schema validators: a title, a message, a type from the enum, and a
      related resource type from its enum when one is given. */
  predicate ValidNotification(n: Notification)
  {
    |n.title| > 0 && |n.message| > 0 && n.kind in KindEnum &&
    (n.related.Some? ==> n.related.value.resourceType in ResourceTypeEnum)
  }

  /** `createNotification`: stored for the given recipient, unread. */
  method CreateNotification(db: Db, user: Id, title: string, message: string, kind: string,
                            related: Option<Related>, now: int) returns (r: Result<Doc<Notification>>)
    requires db.Valid()
    modifies db`notifications, db`nextId
    ensures db.Valid()
    ensures var n := Notification(user, title, message, kind, related, false, None, now, now);
      (r.Ok? <==> ValidNotification(n)) &&
      (r.Err? ==> r == Err(NotificationInvalid) && db.notifications == old(db.notifications) &&
                  db.nextId == old(db.nextId)) &&
      (r.Ok? ==> r.value == Doc(old(db.nextId), n) && db.notifications == old(db.notifications) + [r.value] &&
                 db.nextId == old(db.nextId) + 1)
    ensures r.Ok? ==> r.value.val.recipient == user && !r.value.val.isRead && r.value.val.readAt.None?
  {
    var n := Notification(user, title, message, kind, related, false, None, now, now);
    if !ValidNotification(n) {
      return Err(NotificationInvalid);
    }
    var id := db.InsertNotification(n);
    r := Ok(Doc(id, n));
  }
}
