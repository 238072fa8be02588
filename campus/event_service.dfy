/** src/services/eventService.js over the `Event` collection of
    src/models/Event.js: creation with its date check and audience default,
    the listing filter, the capacity-bounded registration list, the
    whitelist update and the notification fan-out on creation. Dates are
    integer timestamps; `toDateString` is the parameter `dateString`. */
module EventService {
  import opened Common
  import opened Store
  import opened Response

  const DatesOutOfOrder := "Start date must be before end date"
  const EventNotFound := "Event not found"
  const EventFull := "Event is full"
  const AlreadyRegistered := "Already registered for this event"
  const EventInvalid := "Event validation failed"

  /** The `category` enum of src/models/Event.js. */
  const CategoryEnum: set<string> := {"academic", "cultural", "sports", "technical", "social", "other"}

  /** The audience when none is given: `['student', 'faculty']`. */
  const DefaultAudience: seq<Role> := [Student, Faculty]

  /** The fields `updateEvent` copies from the request body. */
  const EventFields: seq<string> := ["title", "description", "location", "capacity", "isPublished"]

  /** The validators `save()` runs on a new event: the required strings
      non-empty, the category enum, a capacity of at least 1. */
  predicate ValidEvent(e: Event)
  {
    e.title != "" && e.description != "" && e.location != "" &&
    e.category in CategoryEnum && e.capacity >= 1
  }

  /** The document `new Event({...})` builds: the title trimmed, no
      registrations, published, visible to students and faculty unless an
      audience is given. */
  function NewEvent(title: string, description: string, organizer: Id, startDate: int, endDate: int,
                    location: string, category: string, capacity: int, visibleTo: Option<seq<Role>>,
                    now: int): (e: Event)
    ensures visibleTo.None? ==> e.visibleTo == [Student, Faculty]
    ensures visibleTo.Some? ==> e.visibleTo == visibleTo.value
    ensures e.registrations == [] && e.isPublished && e.organizer == organizer
  {
    Event(Trim(title), description, organizer, startDate, endDate, location, category, capacity, [],
          if visibleTo.Some? then visibleTo.value else DefaultAudience, true, now)
  }

  /** The registration invariant: nobody twice, and no more than `capacity`. */
  predicate RegistrationsOk(e: Event)
  {
    |e.registrations| <= e.capacity && UsersDistinct(e.registrations)
  }

  /** No user holds two registrations. */
  predicate UsersDistinct(rs: seq<Registration>)
  {
    forall i, j :: 0 <= i < j < |rs| ==> rs[i].user != rs[j].user
  }

  /** The notification `notifyEventCreation` sends to each user of the audience. */
  function EventMessage(e: Doc<Event>, dateString: int -> string, now: int): Message
  {
    Message("New " + e.val.category + " Event", e.val.title + " on " + dateString(e.val.startDate),
            "event", Some(Related("event", e.id)), now)
  }

  /** `User.find({ role: { $in: visibleTo } }).map(...)`. */
  function EventNotices(users: seq<Doc<User>>, e: Doc<Event>, dateString: int -> string, now: int): seq<Notification>
  {
    FanOut(users, e.val.visibleTo, EventMessage(e, dateString, now))
  }

  /** Every event notification is addressed to a user of the audience and
      points at the event; every user of the audience gets one. */
  lemma EventNoticesReachAudience(users: seq<Doc<User>>, e: Doc<Event>, dateString: int -> string, now: int)
    ensures forall n :: n in EventNotices(users, e, dateString, now) ==>
      n.kind == "event" && n.related == Some(Related("event", e.id)) && !n.isRead &&
      exists u :: u in users && u.id == n.recipient && u.val.role in e.val.visibleTo
    ensures forall u :: u in users && u.val.role in e.val.visibleTo ==>
      exists n :: n in EventNotices(users, e, dateString, now) && n.recipient == u.id
  {
    FanOutExact(users, e.val.visibleTo, EventMessage(e, dateString, now));
  }

  /** The notifications `notifyEventCreation` leaves in the store: the
      first `accepted` of the fan-out, numbered from `start`. */
  function StoredEventNotices(users: seq<Doc<User>>, e: Doc<Event>, dateString: int -> string, now: int,
                              accepted: nat, start: Id): (r: seq<Doc<Notification>>)
    ensures |r| <= Count(users, (u: User) => u.role in e.val.visibleTo)
    ensures forall k :: 0 <= k < |r| ==> r[k].id == start + k
  {
    Numbered(Accepted(EventNotices(users, e, dateString, now), accepted), start)
  }

  /** The two ways `createEvent` fails before anything is stored: the
      date check first, then the validators of `save()`. */
  function EventError(startDate: int, endDate: int, e: Event): (r: Option<string>)
    ensures r == Some(DatesOutOfOrder) <==> startDate >= endDate
    ensures r.None? <==> startDate < endDate && ValidEvent(e)
    ensures r.Some? ==> r.value in {DatesOutOfOrder, EventInvalid}
  {
    if startDate >= endDate then Some(DatesOutOfOrder)
    else if !ValidEvent(e) then Some(EventInvalid)
    else None
  }

  /** `createEvent` as written: `Event` holds the object `{ EventModel }`
      that src/models/event.model.js exports, so once the dates are in
      order `new Event(...)` throws. Nothing is stored, not even where the
      corrected `CreateEvent` stores the event and its notices. */
  function CreateEventAsWritten(startDate: int, endDate: int, e: Event): (r: Result<Id>)
    ensures r.Err?
    ensures r == Err(DatesOutOfOrder) <==> EventError(startDate, endDate, e) == Some(DatesOutOfOrder)
    ensures EventError(startDate, endDate, e).None? ==> r == Err(NotAConstructor("Event"))
  {
    if startDate >= endDate then Err(DatesOutOfOrder) else Err(NotAConstructor("Event"))
  }

  /** `createEvent`: the date check, the validators, the event stored, then
      the fan-out, whose failure (the store accepting only the first
      `accepted` notifications) never reaches the caller. */
  method CreateEvent(db: Db, title: string, description: string, organizer: Id, startDate: int, endDate: int,
                     location: string, category: string, capacity: int, visibleTo: Option<seq<Role>>,
                     now: int, dateString: int -> string, accepted: nat) returns (r: Result<Id>)
    requires db.Valid()
    modifies db`events, db`notifications, db`nextId
    ensures db.Valid()
    ensures var e := NewEvent(title, description, organizer, startDate, endDate, location, category,
                              capacity, visibleTo, now);
      var err := EventError(startDate, endDate, e);
      (err.Some? ==> r == Err(err.value) && db.events == old(db.events) &&
                     db.notifications == old(db.notifications) && db.nextId == old(db.nextId)) &&
      (err.None? ==> r == Ok(old(db.nextId)) && db.events == old(db.events) + [Doc(r.value, e)] &&
                     db.notifications == old(db.notifications) +
                       StoredEventNotices(db.users, Doc(r.value, e), dateString, now, accepted, r.value + 1) &&
                     db.nextId == r.value + 1 + |StoredEventNotices(db.users, Doc(r.value, e), dateString, now, accepted, r.value + 1)|)
  {
    var e := NewEvent(title, description, organizer, startDate, endDate, location, category, capacity, visibleTo, now);
    r := SaveEvent(db, e, dateString, now, accepted);
  }

  /** The checks and writes of `createEvent` once the document is built. */
  method SaveEvent(db: Db, e: Event, dateString: int -> string, now: int, accepted: nat) returns (r: Result<Id>)
    requires db.Valid()
    modifies db`events, db`notifications, db`nextId
    ensures db.Valid()
    ensures var err := EventError(e.startDate, e.endDate, e);
      (err.Some? ==> r == Err(err.value) && db.events == old(db.events) &&
                     db.notifications == old(db.notifications) && db.nextId == old(db.nextId)) &&
      (err.None? ==> r == Ok(old(db.nextId)) && db.events == old(db.events) + [Doc(r.value, e)] &&
                     db.notifications == old(db.notifications) +
                       StoredEventNotices(db.users, Doc(r.value, e), dateString, now, accepted, r.value + 1) &&
                     db.nextId == r.value + 1 + |StoredEventNotices(db.users, Doc(r.value, e), dateString, now, accepted, r.value + 1)|)
  {
    var err := EventError(e.startDate, e.endDate, e);
    if err.Some? {
      return Err(err.value);
    }
    var id := StoreEvent(db, e, dateString, now, accepted);
    r := Ok(id);
  }

  /** `event.save()` followed by `notifyEventCreation(event)`. */
  method StoreEvent(db: Db, e: Event, dateString: int -> string, now: int, accepted: nat) returns (id: Id)
    requires db.Valid()
    modifies db`events, db`notifications, db`nextId
    ensures db.Valid()
    ensures id == old(db.nextId) && db.events == old(db.events) + [Doc(id, e)]
    ensures db.notifications == old(db.notifications) + StoredEventNotices(db.users, Doc(id, e), dateString, now, accepted, id + 1)
    ensures db.nextId == id + 1 + |StoredEventNotices(db.users, Doc(id, e), dateString, now, accepted, id + 1)|
  {
    id := db.InsertEvent(e);
    NotifyEventCreation(db, Doc(id, e), dateString, now, accepted);
  }

  /** `notifyEventCreation`: the audience's notifications inserted at once;
      whatever the store refuses is dropped silently. */
  method NotifyEventCreation(db: Db, e: Doc<Event>, dateString: int -> string, now: int, accepted: nat)
    requires db.Valid()
    modifies db`notifications, db`nextId
    ensures db.Valid()
    ensures db.notifications == old(db.notifications) + StoredEventNotices(db.users, e, dateString, now, accepted, old(db.nextId))
    ensures db.nextId == old(db.nextId) + |StoredEventNotices(db.users, e, dateString, now, accepted, old(db.nextId))|
  {
    var stored := db.InsertMany(EventNotices(db.users, e, dateString, now), accepted);
  }

  /** The query of `getEvents`: published, visible to the caller's role,
      and not yet started. */
  predicate Listable(e: Event, role: Role, now: int)
  {
    e.isPublished && role in e.visibleTo && e.startDate >= now
  }

  /** `getEvents`: one page of the published, upcoming events meant for
      the caller's role, with `page = 1` and `limit = 20` when not given. */
  function GetEvents(events: seq<Doc<Event>>, role: Role, now: int, page: Option<int>, limit: Option<int>)
    : (r: Result<(seq<Doc<Event>>, PageInfo)>)
    ensures var p := if page.Some? then page.value else 1;
      var l := if limit.Some? then limit.value else 20;
      (r.Err? <==> (p - 1) * l < 0) &&
      (r.Ok? ==> r.value.1 == PageInfo(Count(events, (e: Event) => Listable(e, role, now)),
                                        PageCount(Count(events, (e: Event) => Listable(e, role, now)), l), p, l))
    ensures r.Ok? ==> forall d :: d in r.value.0 ==> d in events && Listable(d.val, role, now)
  {
    var p := if page.Some? then page.value else 1;
    var l := if limit.Some? then limit.value else 20;
    var matching := Select(events, (e: Event) => Listable(e, role, now));
    match Window(matching, (p - 1) * l, l)
    case Err(msg) => Err(msg)
    case Ok(items) =>
      assert forall d :: d in items ==> d in matching;
      Ok((items, PageInfo(|matching|, PageCount(|matching|, l), p, l)))
  }

  /** No listed event has started, each is meant for the caller's role, and
      every such event is on some page when the limit is positive. */
  lemma ListedEventsAreUpcoming(events: seq<Doc<Event>>, role: Role, now: int, limit: int, i: int)
    requires limit > 0 && 0 <= i < Count(events, (e: Event) => Listable(e, role, now))
    ensures var page := i / limit + 1;
      var r := GetEvents(events, role, now, Some(page), Some(limit));
      var d := Select(events, (e: Event) => Listable(e, role, now))[i];
      1 <= page <= r.value.1.pages.value && d in r.value.0 &&
      d.val.isPublished && role in d.val.visibleTo && d.val.startDate >= now
  {
    PagesCoverListing(Select(events, (e: Event) => Listable(e, role, now)), limit, i);
  }

  /** What `registerForEvent` checks before it writes: the event exists,
      has room, and the user is not registered yet (capacity first). */
  function RegisterCheck(events: seq<Doc<Event>>, eventId: Id, userId: Id): (r: Result<nat>)
    ensures r == Err(EventNotFound) <==> Find(events, eventId).None?
    ensures r.Ok? <==> (Find(events, eventId).Some? &&
      |events[Find(events, eventId).value].val.registrations| < events[Find(events, eventId).value].val.capacity &&
      forall j :: 0 <= j < |events[Find(events, eventId).value].val.registrations| ==>
        events[Find(events, eventId).value].val.registrations[j].user != userId)
    ensures r.Ok? ==> r == Ok(Find(events, eventId).value)
  {
    match Find(events, eventId)
    case None => Err(EventNotFound)
    case Some(i) =>
      if |events[i].val.registrations| >= events[i].val.capacity then Err(EventFull)
      else if exists j :: 0 <= j < |events[i].val.registrations| && events[i].val.registrations[j].user == userId
      then Err(AlreadyRegistered)
      else Ok(i)
  }

  /** A full event answers "Event is full" even to a user already registered. */
  lemma FullBeforeRegistered(events: seq<Doc<Event>>, eventId: Id, userId: Id, i: nat)
    requires i < |events| && Find(events, eventId) == Some(i)
    requires |events[i].val.registrations| >= events[i].val.capacity
    ensures RegisterCheck(events, eventId, userId) == Err(EventFull)
  {
  }

  /** The event with `{ user: userId }` pushed, stamped `registeredAt = now`. */
  function Registered(e: Event, userId: Id, now: int): (e': Event)
    ensures e'.registrations == e.registrations + [Registration(userId, now)]
  {
    e.(registrations := e.registrations + [Registration(userId, now)], updatedAt := now)
  }

  /** A registration that passed the checks keeps the invariant. */
  lemma RegisteredOk(e: Event, userId: Id, now: int)
    requires RegistrationsOk(e) && |e.registrations| < e.capacity
    requires forall j :: 0 <= j < |e.registrations| ==> e.registrations[j].user != userId
    ensures RegistrationsOk(Registered(e, userId, now))
  {
    var rs := Registered(e, userId, now).registrations;
    assert forall j :: 0 <= j < |e.registrations| ==> rs[j] == e.registrations[j];
  }

  /** `registerForEvent`: the checks, then one registration appended and saved. */
  method RegisterForEvent(db: Db, eventId: Id, userId: Id, now: int) returns (r: Result<Event>)
    requires db.Valid()
    modifies db`events
    ensures db.Valid()
    ensures RegisterCheck(old(db.events), eventId, userId).Err? ==>
      r == Err(RegisterCheck(old(db.events), eventId, userId).msg) && db.events == old(db.events)
    ensures RegisterCheck(old(db.events), eventId, userId).Ok? ==>
      var i := RegisterCheck(old(db.events), eventId, userId).value;
      r == Ok(Registered(old(db.events)[i].val, userId, now)) &&
      db.events == old(db.events)[i := Doc(eventId, r.value)] &&
      (RegistrationsOk(old(db.events)[i].val) ==> RegistrationsOk(r.value))
  {
    var check := RegisterCheck(db.events, eventId, userId);
    if check.Err? {
      return Err(check.msg);
    }
    var i := check.value;
    var e := Registered(db.events[i].val, userId, now);
    if RegistrationsOk(db.events[i].val) {
      RegisteredOk(db.events[i].val, userId, now);
    }
    UpdateWellKeyed(db.events, db.nextId, i, e);
    db.SetEvents(db.events[i := Doc(eventId, e)]);
    r := Ok(e);
  }

  /** `$pull: { registrations: { user: userId } }`: every registration of the user removed. */
  function PullUser(rs: seq<Registration>, userId: Id): (r: seq<Registration>)
    ensures |r| <= |rs|
    ensures forall x :: x in r <==> x in rs && x.user != userId
  {
    if |rs| == 0 then []
    else if rs[0].user == userId then PullUser(rs[1..], userId)
    else [rs[0]] + PullUser(rs[1..], userId)
  }

  /** Pulling twice removes nothing more. */
  lemma {:induction false} PullUserIdempotent(rs: seq<Registration>, userId: Id)
    ensures PullUser(PullUser(rs, userId), userId) == PullUser(rs, userId)
  {
    if |rs| > 0 {
      PullUserIdempotent(rs[1..], userId);
      if rs[0].user != userId {
        assert ([rs[0]] + PullUser(rs[1..], userId))[1..] == PullUser(rs[1..], userId);
      }
    }
  }

  /** Pulling keeps the registration invariant. */
  lemma {:induction false} PullUserOk(e: Event, userId: Id, now: int)
    requires RegistrationsOk(e)
    ensures RegistrationsOk(e.(registrations := PullUser(e.registrations, userId), updatedAt := now))
  {
    PullUserNoDup(e.registrations, userId);
  }

  lemma {:induction false} PullUserNoDup(rs: seq<Registration>, userId: Id)
    requires UsersDistinct(rs)
    ensures UsersDistinct(PullUser(rs, userId))
  {
    if |rs| > 0 {
      var tail := rs[1..];
      assert UsersDistinct(tail) by {
        forall i, j | 0 <= i < j < |tail| ensures tail[i].user != tail[j].user {
          assert tail[i] == rs[i + 1] && tail[j] == rs[j + 1];
        }
      }
      PullUserNoDup(tail, userId);
      var rest := PullUser(tail, userId);
      if rs[0].user != userId {
        var r := [rs[0]] + rest;
        assert PullUser(rs, userId) == r;
        forall i, j | 0 <= i < j < |r| ensures r[i].user != r[j].user {
          if i == 0 {
            assert r[j] == rest[j - 1];
            assert r[j] in tail;
            var k :| 0 <= k < |tail| && tail[k] == r[j];
            assert tail[k] == rs[k + 1];
          } else {
            assert r[i] == rest[i - 1] && r[j] == rest[j - 1];
          }
        }
      } else {
        assert PullUser(rs, userId) == rest;
      }
    }
  }

  /** `unregisterFromEvent`: fails only for a missing event; otherwise the
      user has no registration left and nothing else changes. */
  method UnregisterFromEvent(db: Db, eventId: Id, userId: Id, now: int) returns (r: Result<Event>)
    requires db.Valid()
    modifies db`events
    ensures db.Valid()
    ensures r.Err? <==> Find(old(db.events), eventId).None?
    ensures r.Err? ==> r == Err(EventNotFound) && db.events == old(db.events)
    ensures r.Ok? ==> var i := Find(old(db.events), eventId).value;
      var e := old(db.events)[i].val;
      r.value == e.(registrations := PullUser(e.registrations, userId), updatedAt := now) &&
      db.events == old(db.events)[i := Doc(eventId, r.value)] &&
      (RegistrationsOk(e) ==> RegistrationsOk(r.value))
  {
    var found := Find(db.events, eventId);
    if found.None? {
      return Err(EventNotFound);
    }
    var i := found.value;
    var old_ := db.events[i].val;
    var e := old_.(registrations := PullUser(old_.registrations, userId), updatedAt := now);
    if RegistrationsOk(old_) {
      PullUserOk(old_, userId, now);
    }
    UpdateWellKeyed(db.events, db.nextId, i, e);
    db.SetEvents(db.events[i := Doc(eventId, e)]);
    r := Ok(e);
  }

  /** Casting and the update validators on the copied fields: text for the
      strings, none of the three required ones empty (the title once
      trimmed), a number of at least 1 for `capacity`, a boolean for
      `isPublished`. */
  predicate EventUpdateOk(upd: map<string, Value>)
  {
    ("title" in upd ==> upd["title"].Text? && |Trim(upd["title"].s)| > 0) &&
    ("description" in upd ==> upd["description"].Text? && |upd["description"].s| > 0) &&
    ("location" in upd ==> upd["location"].Text? && |upd["location"].s| > 0) &&
    ("capacity" in upd ==> upd["capacity"].Num? && upd["capacity"].n >= 1) &&
    ("isPublished" in upd ==> upd["isPublished"].Bool?)
  }

  /** The event after `{ ...updateData, updatedAt }` is applied. */
  function ApplyEventUpdate(e: Event, upd: map<string, Value>, now: int): Event
    requires EventUpdateOk(upd)
  {
    e.(title := if "title" in upd then Trim(upd["title"].s) else e.title,
       description := if "description" in upd then upd["description"].s else e.description,
       location := if "location" in upd then upd["location"].s else e.location,
       capacity := if "capacity" in upd then upd["capacity"].n else e.capacity,
       isPublished := if "isPublished" in upd then upd["isPublished"].b else e.isPublished,
       updatedAt := now)
  }

  /** An update never touches the organizer, dates, category, audience or
      registrations. */
  lemma ApplyEventUpdateKeeps(e: Event, upd: map<string, Value>, now: int)
    requires EventUpdateOk(upd)
    ensures var e' := ApplyEventUpdate(e, upd, now);
      e'.organizer == e.organizer && e'.startDate == e.startDate && e'.endDate == e.endDate &&
      e'.category == e.category && e'.visibleTo == e.visibleTo && e'.registrations == e.registrations
    ensures "capacity" in upd ==> ApplyEventUpdate(e, upd, now).capacity == upd["capacity"].n
    ensures "isPublished" !in upd ==> ApplyEventUpdate(e, upd, now).isPublished == e.isPublished
  {
  }

  /** `updateEvent` may set the capacity below the number of registrations. */
  lemma UpdateCanOverfillEvent(e: Event, now: int)
    requires |e.registrations| >= 2
    ensures !RegistrationsOk(ApplyEventUpdate(e, map["capacity" := Num(1)], now))
  {
  }

  /** `updateEvent`: the `allowedFields` loop, casting and validators, then the lookup. */
  method UpdateEvent(db: Db, eventId: Id, data: map<string, Value>, now: int) returns (r: Result<Event>)
    requires db.Valid()
    modifies db`events
    ensures db.Valid()
    ensures var upd := map f | f in data && f in EventFields :: data[f];
      (r.Ok? <==> EventUpdateOk(upd) && Find(old(db.events), eventId).Some?) &&
      (r == Err(EventNotFound) <==> EventUpdateOk(upd) && Find(old(db.events), eventId).None?) &&
      (r.Ok? ==> var i := Find(old(db.events), eventId).value;
        r.value == ApplyEventUpdate(old(db.events)[i].val, upd, now) &&
        db.events == old(db.events)[i := Doc(eventId, r.value)])
    ensures r.Err? ==> db.events == old(db.events)
  {
    var upd := SelectAllowed(data, EventFields);
    assert upd == map f | f in data && f in EventFields :: data[f];
    if !EventUpdateOk(upd) {
      return Err(EventInvalid);
    }
    var found := Find(db.events, eventId);
    if found.None? {
      return Err(EventNotFound);
    }
    var i := found.value;
    var e := ApplyEventUpdate(db.events[i].val, upd, now);
    UpdateWellKeyed(db.events, db.nextId, i, e);
    db.SetEvents(db.events[i := Doc(eventId, e)]);
    r := Ok(e);
  }
}
