/** src/services/announcementService.js over src/models/Announcement.js:
    creation with its defaults and fan-out, the role-filtered listing, the
    view record, the field merge of an update, and author-or-admin delete. */
module AnnouncementService {
  import opened Common
  import opened Store
  import opened Response

  const AnnouncementNotFound := "Announcement not found"
  const NotAuthorizedToDelete := "Not authorized to delete this announcement"
  const NotAuthorizedToUpdate := "Not authorized to update this announcement"
  /** The message of the `ReferenceError` an undeclared variable raises. */
  const UserRoleNotDefined := "userRole is not defined"
  const AnnouncementInvalid := "Announcement validation failed"

  const CategoryEnum: set<string> := {"academic", "event", "maintenance", "general", "urgent"}
  const DefaultTargets := [Student, Faculty]

  /** The fields a caller may give; `None` is `undefined`. */
  datatype AnnouncementInput = AnnouncementInput(
    title: Option<string>, content: Option<string>, category: Option<string>,
    targetRoles: Option<seq<Role>>, isPinned: Option<bool>)

  /** A JavaScript string is falsy exactly when it is missing or empty. */
  predicate Given(s: Option<string>)
  {
    s.Some? && |s.value| > 0
  }

  /** The schema validators: a trimmed title of 1 to 200 characters, some
      content, a category from the enum. */
  predicate ValidAnnouncement(a: Announcement)
  {
    0 < |a.title| <= 200 && |a.content| > 0 && a.category in CategoryEnum
  }

  /** `new Announcement({...})`: the author is the caller, the title is
      trimmed, and the schema defaults fill the rest. */
  function NewAnnouncement(author: Id, input: AnnouncementInput, now: int): (a: Announcement)
    ensures a.author == author && a.isPublished && a.views == []
    ensures a.targetRoles == (if input.targetRoles.Some? then input.targetRoles.value else DefaultTargets)
    ensures input.category.None? ==> a.category == "general"
    ensures input.isPinned.None? ==> !a.isPinned
  {
    Announcement(
      if input.title.Some? then Trim(input.title.value) else "",
      if input.content.Some? then input.content.value else "",
      author,
      if input.category.Some? then input.category.value else "general",
      if input.targetRoles.Some? then input.targetRoles.value else DefaultTargets,
      if input.isPinned.Some? then input.isPinned.value else false,
      true, [], now, now)
  }

  /** The notification `notifyUsersOfAnnouncement` sends to each user of the audience. */
  function AnnouncementMessage(a: Doc<Announcement>, now: int): Message
  {
    Message("New " + a.val.category + " Announcement", a.val.title, "announcement",
            Some(Related("announcement", a.id)), now)
  }

  /** Every announcement notification goes to a user whose role is targeted
      and points at the announcement; every targeted user gets one. */
  lemma AnnouncementNoticesReachTargets(users: seq<Doc<User>>, a: Doc<Announcement>, now: int)
    ensures var ns := FanOut(users, a.val.targetRoles, AnnouncementMessage(a, now));
      (forall n :: n in ns ==>
        n.kind == "announcement" && n.related == Some(Related("announcement", a.id)) && !n.isRead &&
        exists u :: u in users && u.id == n.recipient && u.val.role in a.val.targetRoles) &&
      (forall u :: u in users && u.val.role in a.val.targetRoles ==> exists n :: n in ns && n.recipient == u.id)
  {
    FanOutExact(users, a.val.targetRoles, AnnouncementMessage(a, now));
  }

  /** `createAnnouncement`: the validators, the announcement stored, then the
      fan-out, whose failure (the store accepting only the first `accepted`
      notifications) never reaches the caller. */
  method CreateAnnouncement(db: Db, author: Id, input: AnnouncementInput, now: int, accepted: nat)
    returns (r: Result<Id>)
    requires db.Valid()
    modifies db`announcements, db`notifications, db`nextId
    ensures db.Valid()
    ensures r.Ok? <==> ValidAnnouncement(NewAnnouncement(author, input, now))
    ensures r.Err? ==> (r == Err(AnnouncementInvalid) && db.announcements == old(db.announcements) &&
                        db.notifications == old(db.notifications) && db.nextId == old(db.nextId))
    ensures r.Ok? ==> (r.value == old(db.nextId) &&
                       db.announcements == old(db.announcements) + [Doc(r.value, NewAnnouncement(author, input, now))])
    ensures r.Ok? ==> (db.notifications == old(db.notifications) +
      AnnouncementNotices(db.users, Doc(r.value, NewAnnouncement(author, input, now)), now, accepted, r.value + 1))
  {
    var a := NewAnnouncement(author, input, now);
    if !ValidAnnouncement(a) {
      return Err(AnnouncementInvalid);
    }
    var id := db.InsertAnnouncement(a);
    NotifyUsersOfAnnouncement(db, Doc(id, a), now, accepted);
    r := Ok(id);
  }

  /** The notifications a fan-out for `a` stores from id `start` on when the
      store accepts only the first `accepted`. */
  function AnnouncementNotices(users: seq<Doc<User>>, a: Doc<Announcement>, now: int, accepted: nat, start: Id)
    : (r: seq<Doc<Notification>>)
    ensures |r| <= Count(users, (u: User) => u.role in a.val.targetRoles)
    ensures forall k :: 0 <= k < |r| ==> r[k].id == start + k
  {
    Numbered(Accepted(FanOut(users, a.val.targetRoles, AnnouncementMessage(a, now)), accepted), start)
  }

  /** `notifyUsersOfAnnouncement`: the targeted users' notifications inserted
      at once; whatever the store refuses is dropped silently. */
  method NotifyUsersOfAnnouncement(db: Db, a: Doc<Announcement>, now: int, accepted: nat)
    requires db.Valid()
    modifies db`notifications, db`nextId
    ensures db.Valid()
    ensures db.notifications == old(db.notifications) + AnnouncementNotices(db.users, a, now, accepted, old(db.nextId))
    ensures db.nextId == old(db.nextId) + |AnnouncementNotices(db.users, a, now, accepted, old(db.nextId))|
  {
    var stored := db.InsertMany(FanOut(db.users, a.val.targetRoles, AnnouncementMessage(a, now)), accepted);
  }

  /** The listing order `{ isPinned: -1, createdAt: -1 }`: `a` may come
      before `b` when it is pinned and `b` is not, or when both agree on
      pinning and `a` is not older. */
  predicate ListedBefore(a: Announcement, b: Announcement)
  {
    (a.isPinned && !b.isPinned) || (a.isPinned == b.isPinned && a.createdAt >= b.createdAt)
  }

  ghost predicate ListingOrdered(xs: seq<Doc<Announcement>>)
  {
    forall i, j :: OrderedAt(xs, i, j)
  }

  /** Positions `i < j` of `xs` are in listing order. */
  predicate OrderedAt(xs: seq<Doc<Announcement>>, i: int, j: int)
  {
    0 <= i < j < |xs| ==> ListedBefore(xs[i].val, xs[j].val)
  }

  /** A listing stays ordered when its first entry is dropped. */
  lemma TailOrdered(xs: seq<Doc<Announcement>>)
    requires |xs| > 0 && ListingOrdered(xs)
    ensures ListingOrdered(xs[1..])
  {
    forall i, j ensures OrderedAt(xs[1..], i, j) {
      assert OrderedAt(xs, i + 1, j + 1);
    }
  }

  /** An entry listed before every entry of an ordered listing can head it. */
  lemma ConsOrdered(d: Doc<Announcement>, xs: seq<Doc<Announcement>>)
    requires ListingOrdered(xs) && forall k :: 0 <= k < |xs| ==> ListedBefore(d.val, xs[k].val)
    ensures ListingOrdered([d] + xs)
  {
    var r := [d] + xs;
    forall i, j ensures OrderedAt(r, i, j) {
      if 0 < i < j < |r| {
        assert OrderedAt(xs, i - 1, j - 1);
      }
    }
  }

  /** `d` placed into an ordered listing. */
  function InsertListed(d: Doc<Announcement>, xs: seq<Doc<Announcement>>): (r: seq<Doc<Announcement>>)
    requires ListingOrdered(xs)
    ensures ListingOrdered(r) && multiset(r) == multiset(xs) + multiset{d}
  {
    if |xs| == 0 then
      assert forall i, j :: OrderedAt([d], i, j);
      [d]
    else if ListedBefore(d.val, xs[0].val) then
      assert forall k :: 0 <= k < |xs| ==> ListedBefore(d.val, xs[k].val) by {
        forall k | 0 < k < |xs| ensures ListedBefore(d.val, xs[k].val) {
          assert OrderedAt(xs, 0, k);
        }
      }
      ConsOrdered(d, xs);
      [d] + xs
    else
      TailOrdered(xs);
      var rest := InsertListed(d, xs[1..]);
      assert forall k :: 0 <= k < |rest| ==> ListedBefore(xs[0].val, rest[k].val) by {
        forall k | 0 <= k < |rest| ensures ListedBefore(xs[0].val, rest[k].val) {
          assert rest[k] in multiset(rest);
          if rest[k] != d {
            var m :| 0 <= m < |xs[1..]| && xs[1..][m] == rest[k];
            assert OrderedAt(xs, 0, m + 1);
          }
        }
      }
      ConsOrdered(xs[0], rest);
      assert xs == [xs[0]] + xs[1..];
      [xs[0]] + rest
  }

  /** `.sort({ isPinned: -1, createdAt: -1 })`: the same announcements, in
      listing order. */
  function SortListing(xs: seq<Doc<Announcement>>): (r: seq<Doc<Announcement>>)
    ensures ListingOrdered(r) && multiset(r) == multiset(xs)
  {
    if |xs| == 0 then []
    else
      assert xs == [xs[0]] + xs[1..];
      InsertListed(xs[0], SortListing(xs[1..]))
  }

  /** What a caller with `role` may list: published and targeted at that role. */
  predicate Visible(a: Announcement, role: Role)
  {
    a.isPublished && role in a.targetRoles
  }

  /** The visible announcements in listing order, before the window. */
  function Listing(announcements: seq<Doc<Announcement>>, role: Role): (r: seq<Doc<Announcement>>)
    ensures forall d :: d in r <==> d in announcements && Visible(d.val, role)
    ensures ListingOrdered(r) && |r| == Count(announcements, (a: Announcement) => Visible(a, role))
  {
    var visible := Select(announcements, (a: Announcement) => Visible(a, role));
    var sorted := SortListing(visible);
    assert forall d :: d in sorted <==> d in multiset(visible);
    assert |sorted| == |multiset(sorted)| == |multiset(visible)| == |visible|;
    sorted
  }

  /** `getAnnouncements`: one page of the visible announcements in listing
      order, pinned first, with `page = 1` and `limit = 20` when not given. */
  function GetAnnouncements(announcements: seq<Doc<Announcement>>, role: Role, page: Option<int>, limit: Option<int>)
    : (r: Result<(seq<Doc<Announcement>>, PageInfo)>)
    ensures var p := if page.Some? then page.value else 1;
      var l := if limit.Some? then limit.value else 20;
      (r.Err? <==> (p - 1) * l < 0) &&
      (r.Ok? ==> r.value.1 == PageInfo(Count(announcements, (a: Announcement) => Visible(a, role)),
                                        PageCount(Count(announcements, (a: Announcement) => Visible(a, role)), l), p, l))
    ensures r.Ok? ==> forall d :: d in r.value.0 ==> d in announcements && Visible(d.val, role)
    ensures r.Ok? ==> ListingOrdered(r.value.0)
    ensures r.Ok? ==> forall i, j :: 0 <= i < j < |r.value.0| && r.value.0[j].val.isPinned ==> r.value.0[i].val.isPinned
  {
    var p := if page.Some? then page.value else 1;
    var l := if limit.Some? then limit.value else 20;
    var sorted := Listing(announcements, role);
    match Window(sorted, (p - 1) * l, l)
    case Err(msg) => Err(msg)
    case Ok(items) =>
      WindowOrdered(sorted, (p - 1) * l, l);
      assert forall d :: d in items ==> d in sorted;
      Ok((items, PageInfo(|sorted|, PageCount(|sorted|, l), p, l)))
  }

  /** A window of an ordered listing is ordered, and pinned entries come first in it. */
  lemma WindowOrdered(xs: seq<Doc<Announcement>>, skip: int, limit: int)
    requires ListingOrdered(xs) && Window(xs, skip, limit).Ok?
    ensures ListingOrdered(Window(xs, skip, limit).value)
    ensures var w := Window(xs, skip, limit).value;
      forall i, j :: 0 <= i < j < |w| && w[j].val.isPinned ==> w[i].val.isPinned
  {
    var w := Window(xs, skip, limit).value;
    forall i, j ensures OrderedAt(w, i, j) {
      if 0 <= i < j < |w| {
        assert w[i] == xs[skip + i] && w[j] == xs[skip + j] && OrderedAt(xs, skip + i, skip + j);
      }
    }
    forall i, j | 0 <= i < j < |w| && w[j].val.isPinned ensures w[i].val.isPinned {
      assert OrderedAt(w, i, j);
    }
  }

  /** With a positive limit, the announcement at position `i` of the listing
      is on page `i / limit + 1`, between 1 and the page count. */
  lemma EveryAnnouncementListed(announcements: seq<Doc<Announcement>>, role: Role, limit: int, i: int)
    requires limit > 0 && 0 <= i < Count(announcements, (a: Announcement) => Visible(a, role))
    ensures var page := i / limit + 1;
      var r := GetAnnouncements(announcements, role, Some(page), Some(limit));
      1 <= page <= r.value.1.pages.value && Listing(announcements, role)[i] in r.value.0
  {
    PagesCoverListing(Listing(announcements, role), limit, i);
  }

  /** Every user appears at most once among the views. */
  predicate ViewersDistinct(views: seq<View>)
  {
    forall i, j :: 0 <= i < j < |views| ==> views[i].user != views[j].user
  }

  /** The view check as it is meant: the user already has a view. */
  predicate HasViewed(views: seq<View>, user: Id)
  {
    exists k :: 0 <= k < |views| && views[k].user == user
  }

  /** The view list after `user` opens the announcement: a view is added
      only when the user has none. */
  function RecordView(views: seq<View>, user: Id, now: int): (r: seq<View>)
    ensures HasViewed(r, user)
    ensures ViewersDistinct(views) ==> ViewersDistinct(r)
    ensures HasViewed(views, user) ==> r == views
    ensures !HasViewed(views, user) ==> r == views + [View(user, now)]
  {
    if HasViewed(views, user) then views
    else
      assert (views + [View(user, now)])[|views|].user == user;
      views + [View(user, now)]
  }

  /** Opening an announcement again records nothing more. */
  lemma RecordViewIdempotent(views: seq<View>, user: Id, t1: int, t2: int)
    ensures RecordView(RecordView(views, user, t1), user, t2) == RecordView(views, user, t1)
  {
    var once := RecordView(views, user, t1);
    assert HasViewed(once, user);
  }

  /** The two values the check `v.user.toString() === userId` compares:
      `toString()` gives a string, while the caller passes `req.user._id`, an
      ObjectId. JavaScript's `===` never equates a string with an object. */
  datatype JsId = IdString(text: string) | IdObject(oid: Id)

  /** `ObjectId.prototype.toString`. */
  function IdToString(id: Id): JsId
  {
    IdString(Show(id))
  }

  /** The view check as written. */
  predicate HasViewedAsWritten(views: seq<View>, userId: JsId)
  {
    exists k :: 0 <= k < |views| && IdToString(views[k].user) == userId
  }

  /** The view list as written, for the ObjectId the controller passes. */
  function RecordViewAsWritten(views: seq<View>, user: Id, now: int): seq<View>
  {
    if HasViewedAsWritten(views, IdObject(user)) then views else views + [View(user, now)]
  }

  /** As written, every opening adds a view: the same user opening an
      announcement twice is recorded twice. */
  lemma ViewRecordedTwiceAsWritten(views: seq<View>, user: Id, t1: int, t2: int)
    ensures RecordViewAsWritten(views, user, t1) == views + [View(user, t1)]
    ensures var twice := RecordViewAsWritten(RecordViewAsWritten([], user, t1), user, t2);
      twice == [View(user, t1), View(user, t2)] && !ViewersDistinct(twice)
  {
    assert !HasViewedAsWritten(views, IdObject(user));
    var once := RecordViewAsWritten([], user, t1);
    assert !HasViewedAsWritten([], IdObject(user));
    assert once == [View(user, t1)];
    assert !HasViewedAsWritten(once, IdObject(user));
    var twice := RecordViewAsWritten(once, user, t2);
    assert twice == [View(user, t1), View(user, t2)];
    assert twice[0].user == twice[1].user;
  }

  /** The announcement after the caller opens it: a first view is pushed
      and saved, and the schema's timestamps stamp `updatedAt`; a repeat
      view saves nothing and changes nothing. */
  function Opened(a: Announcement, user: Id, now: int): (a': Announcement)
    ensures a'.views == RecordView(a.views, user, now)
    ensures HasViewed(a.views, user) ==> a' == a
    ensures !HasViewed(a.views, user) ==> a'.updatedAt == now && a'.(views := a.views, updatedAt := a.updatedAt) == a
  {
    if HasViewed(a.views, user) then a else a.(views := RecordView(a.views, user, now), updatedAt := now)
  }

  /** `getAnnouncementById`: the announcement, with the caller's view recorded once. */
  method GetAnnouncementById(db: Db, announcementId: Id, user: Id, now: int) returns (r: Result<Announcement>)
    requires db.Valid()
    modifies db`announcements
    ensures db.Valid()
    ensures r.Err? <==> Find(old(db.announcements), announcementId).None?
    ensures r.Err? ==> r == Err(AnnouncementNotFound) && db.announcements == old(db.announcements)
    ensures r.Ok? ==> var i := Find(old(db.announcements), announcementId).value;
      var a := old(db.announcements)[i].val;
      r.value == Opened(a, user, now) &&
      db.announcements == old(db.announcements)[i := Doc(announcementId, r.value)]
  {
    var found := Find(db.announcements, announcementId);
    if found.None? {
      return Err(AnnouncementNotFound);
    }
    var i := found.value;
    var a := db.announcements[i].val;
    var a' := Opened(a, user, now);
    UpdateWellKeyed(db.announcements, db.nextId, i, a');
    db.SetAnnouncements(db.announcements[i := Doc(announcementId, a')]);
    r := Ok(a');
  }

  /** The fields `updateAnnouncement` merges: a falsy title, content or
      category keeps the old value; `targetRoles` replaces the old list
      whenever given (an array is truthy even when empty); `isPinned`
      changes only when defined. */
  function MergeAnnouncement(a: Announcement, input: AnnouncementInput, now: int): (m: Announcement)
    ensures m.author == a.author && m.views == a.views && m.isPublished == a.isPublished && m.createdAt == a.createdAt
    ensures !Given(input.title) ==> m.title == a.title
    ensures !Given(input.content) ==> m.content == a.content
    ensures !Given(input.category) ==> m.category == a.category
    ensures input.targetRoles.None? ==> m.targetRoles == a.targetRoles
    ensures input.isPinned.None? ==> m.isPinned == a.isPinned
    ensures m.updatedAt == now
  {
    a.(title := if Given(input.title) then Trim(input.title.value) else a.title,
       content := if Given(input.content) then input.content.value else a.content,
       category := if Given(input.category) then input.category.value else a.category,
       targetRoles := if input.targetRoles.Some? then input.targetRoles.value else a.targetRoles,
       isPinned := if input.isPinned.Some? then input.isPinned.value else a.isPinned,
       updatedAt := now)
  }

  /** Merging an empty body touches only `updatedAt`. */
  lemma MergeNothing(a: Announcement, now: int)
    ensures MergeAnnouncement(a, AnnouncementInput(None, None, None, None, None), now) == a.(updatedAt := now)
  {
  }

  /** The ownership check of `updateAnnouncement` as written: the author
      passes; for anyone else the check reads the undeclared `userRole` and
      throws. */
  function MayUpdateAsWritten(a: Announcement, userId: Id): (r: Result<()>)
    ensures r.Ok? <==> a.author == userId
  {
    if a.author != userId then Err(UserRoleNotDefined) else Ok(())
  }

  /** The ownership check of `deleteAnnouncement`, and the one the update
      check evidently means: the author or an admin. */
  function MayModify(a: Announcement, userId: Id, role: Role, denied: string): (r: Result<()>)
    ensures r.Ok? <==> a.author == userId || role == Admin
    ensures r.Err? ==> r.msg == denied
  {
    if a.author != userId && role != Admin then Err(denied) else Ok(())
  }

  /** As written, an admin who is not the author cannot update, and the
      error is the `ReferenceError`, not the authorization message. */
  lemma AdminUpdateRefusedAsWritten(a: Announcement, userId: Id)
    requires a.author != userId
    ensures MayUpdateAsWritten(a, userId) == Err(UserRoleNotDefined)
    ensures MayModify(a, userId, Admin, NotAuthorizedToUpdate).Ok?
  {
  }

  /** `updateAnnouncement` with the author-or-admin check: the merge, then
      the validators on save. */
  method UpdateAnnouncement(db: Db, announcementId: Id, input: AnnouncementInput, userId: Id, role: Role, now: int)
    returns (r: Result<Announcement>)
    requires db.Valid()
    modifies db`announcements
    ensures db.Valid()
    ensures r.Err? ==> db.announcements == old(db.announcements)
    ensures Find(old(db.announcements), announcementId).None? ==> r == Err(AnnouncementNotFound)
    ensures Find(old(db.announcements), announcementId).Some? ==>
      var i := Find(old(db.announcements), announcementId).value;
      var a := old(db.announcements)[i].val;
      (MayModify(a, userId, role, NotAuthorizedToUpdate).Err? ==> r == Err(NotAuthorizedToUpdate)) &&
      (MayModify(a, userId, role, NotAuthorizedToUpdate).Ok? ==>
        (r.Ok? <==> ValidAnnouncement(MergeAnnouncement(a, input, now))) &&
        (r.Err? ==> r == Err(AnnouncementInvalid)) &&
        (r.Ok? ==> r.value == MergeAnnouncement(a, input, now) &&
                   db.announcements == old(db.announcements)[i := Doc(announcementId, r.value)]))
  {
    var found := Find(db.announcements, announcementId);
    if found.None? {
      return Err(AnnouncementNotFound);
    }
    var i := found.value;
    var a := db.announcements[i].val;
    var allowed := MayModify(a, userId, role, NotAuthorizedToUpdate);
    if allowed.Err? {
      return Err(allowed.msg);
    }
    var m := MergeAnnouncement(a, input, now);
    if !ValidAnnouncement(m) {
      return Err(AnnouncementInvalid);
    }
    UpdateWellKeyed(db.announcements, db.nextId, i, m);
    db.SetAnnouncements(db.announcements[i := Doc(announcementId, m)]);
    r := Ok(m);
  }

  /** `deleteAnnouncement`: removed exactly when the caller is the author or
      an admin; otherwise nothing is deleted. */
  method DeleteAnnouncement(db: Db, announcementId: Id, userId: Id, role: Role) returns (r: Result<()>)
    requires db.Valid()
    modifies db`announcements
    ensures db.Valid()
    ensures r.Err? ==> db.announcements == old(db.announcements)
    ensures Find(old(db.announcements), announcementId).None? ==> r == Err(AnnouncementNotFound)
    ensures Find(old(db.announcements), announcementId).Some? ==>
      var i := Find(old(db.announcements), announcementId).value;
      (r.Ok? <==> old(db.announcements)[i].val.author == userId || role == Admin) &&
      (r.Err? ==> r == Err(NotAuthorizedToDelete)) &&
      (r.Ok? ==> db.announcements == RemoveAt(old(db.announcements), i))
  {
    var found := Find(db.announcements, announcementId);
    if found.None? {
      return Err(AnnouncementNotFound);
    }
    var allowed := MayModify(db.announcements[found.value].val, userId, role, NotAuthorizedToDelete);
    if allowed.Err? {
      return Err(allowed.msg);
    }
    RemoveAtWellKeyed(db.announcements, db.nextId, found.value);
    db.SetAnnouncements(RemoveAt(db.announcements, found.value));
    r := Ok(());
  }
}
