/** The document store the services read and write: one collection per
    Mongoose model, each a sequence of documents in natural (insertion) order.
    Field sets follow what the services write (src/models/Course.js, Event.js,
    Announcement.js, Notification.js, ApiKey.js, User.js, Result.js and the
    attendance/enrollment schemas), reduced to the fields the rules use. */
module Store {
  import opened Common

  /** The store's refusal of a document that breaks a unique index. */
  const DuplicateKey := "E11000 duplicate key error"

  /** bcrypt and SHA-256 are modelled as constructors: injective, and
      revealing nothing else about their argument. */
  datatype PasswordHash = Bcrypt(plain: string)
  datatype Digest = Sha256(input: string)

  datatype User = User(
    firstName: string, lastName: string, email: string, password: PasswordHash,
    department: string, phone: string, avatar: string,
    role: Role, isActive: bool, lastLogin: Option<int>,
    enrolledCourses: seq<Id>, updatedAt: int)

  datatype Course = Course(
    courseCode: string, title: string, description: string, credits: int,
    instructor: Id, department: string, semester: string, year: int,
    maxStudents: int, schedule: Value, isActive: bool,
    enrolledStudents: seq<Id>, updatedAt: int)

  datatype EnrollmentStatus = Active | Completed | Dropped | Suspended

  datatype Enrollment = Enrollment(
    student: Id, course: Id, status: EnrollmentStatus,
    attendancePercentage: real, semester: string, year: int, updatedAt: int)

  datatype Registration = Registration(user: Id, registeredAt: int)

  datatype Event = Event(
    title: string, description: string, organizer: Id,
    startDate: int, endDate: int, location: string, category: string,
    capacity: int, registrations: seq<Registration>, visibleTo: seq<Role>,
    isPublished: bool, updatedAt: int)

  /** A document of src/models/Result.js, the model the result service uses. */
  datatype ResultRecord = ResultRecord(
    student: Id, course: Id, marks: real, grade: string,
    semester: string, year: int, remarks: string,
    isPublished: bool, publishedAt: Option<int>, publishedBy: Option<Id>, updatedAt: int)

  datatype AttendanceStatus = Present | Absent | Late | Excused

  datatype Attendance = Attendance(
    student: Id, course: Id, date: int, status: AttendanceStatus,
    remarks: string, recordedBy: Id, updatedAt: int)

  datatype View = View(user: Id, viewedAt: int)

  datatype Announcement = Announcement(
    title: string, content: string, author: Id, category: string,
    targetRoles: seq<Role>, isPinned: bool, isPublished: bool,
    views: seq<View>, createdAt: int, updatedAt: int)

  datatype Related = Related(resourceType: string, resourceId: Id)

  datatype Notification = Notification(
    recipient: Id, title: string, message: string, kind: string,
    related: Option<Related>, isRead: bool, readAt: Option<int>, createdAt: int, updatedAt: int)

  /** The `permissions` enum of src/models/ApiKey.js. */
  datatype Permission = Read | Write | Delete | AdminAccess

  datatype ApiKey = ApiKey(
    user: Id, key: string, hashedKey: Digest, name: string, description: string,
    permissions: seq<Permission>, isActive: bool, lastUsedAt: Option<int>,
    expiresAt: int, createdAt: int, updatedAt: int)

  datatype Download = Download(user: Id, downloadedAt: int)

  datatype Material = Material(
    course: Id, title: string, description: string, kind: string,
    fileName: string, fileSize: int, fileUrl: string, uploader: Id,
    dueDate: Option<int>, isPublished: bool, downloads: seq<Download>, updatedAt: int)

  /** A notification before it is addressed: what a fan-out sends to every user. */
  datatype Message = Message(title: string, message: string, kind: string, related: Option<Related>, createdAt: int)

  /** `m` addressed to `recipient`, unread. */
  function Addressed(m: Message, recipient: Id): Notification
  {
    Notification(recipient, m.title, m.message, m.kind, m.related, false, None, m.createdAt, m.createdAt)
  }

  /** `User.find({ role: { $in: audience } }).map(...)`: `m` addressed to
      every user whose role is in `audience`, in natural order. */
  function FanOut(users: seq<Doc<User>>, audience: seq<Role>, m: Message): (ns: seq<Notification>)
    ensures |ns| == Count(users, (u: User) => u.role in audience)
  {
    if |users| == 0 then []
    else
      var rest := FanOut(users[1..], audience, m);
      if users[0].val.role in audience then [Addressed(m, users[0].id)] + rest else rest
  }

  /** A fan-out reaches exactly its audience: every user whose role is in
      `audience` is sent `m`, and every notification is one of those. */
  lemma {:induction false} FanOutExact(users: seq<Doc<User>>, audience: seq<Role>, m: Message)
    ensures forall u :: u in users && u.val.role in audience ==> Addressed(m, u.id) in FanOut(users, audience, m)
    ensures forall n :: n in FanOut(users, audience, m) ==>
      exists u :: u in users && u.val.role in audience && n == Addressed(m, u.id)
  {
    if |users| > 0 {
      FanOutExact(users[1..], audience, m);
      assert forall u :: u in users[1..] ==> u in users;
      assert forall u :: u in users ==> u == users[0] || u in users[1..];
    }
  }

  /** `xs` stored under the consecutive ids `start`, `start + 1`, ... */
  function Numbered<T>(xs: seq<T>, start: Id): (r: seq<Doc<T>>)
    ensures |r| == |xs|
    ensures forall i :: 0 <= i < |xs| ==> r[i] == Doc(start + i, xs[i])
  {
    if |xs| == 0 then [] else [Doc(start, xs[0])] + Numbered(xs[1..], start + 1)
  }

  /** The documents an ordered bulk insert stores when the store accepts
      only `accepted` of them: the longest prefix of at most that length. */
  function Accepted<T>(xs: seq<T>, accepted: nat): (r: seq<T>)
    ensures |r| <= |xs| && r == xs[..|r|]
    ensures |r| == accepted || r == xs
  {
    if accepted < |xs| then xs[..accepted] else xs
  }

  /** The database: every collection, and the next ObjectId to hand out. */
  class Db {
    var users: seq<Doc<User>>
    var courses: seq<Doc<Course>>
    var enrollments: seq<Doc<Enrollment>>
    var events: seq<Doc<Event>>
    var results: seq<Doc<ResultRecord>>
    var attendance: seq<Doc<Attendance>>
    var announcements: seq<Doc<Announcement>>
    var notifications: seq<Doc<Notification>>
    var apiKeys: seq<Doc<ApiKey>>
    var materials: seq<Doc<Material>>
    var nextId: Id

    /** Every collection is keyed by increasing ObjectIds that were handed out before. */
    ghost predicate Valid()
      reads this
    {
      WellKeyed(users, nextId) && WellKeyed(courses, nextId) &&
      WellKeyed(enrollments, nextId) && WellKeyed(events, nextId) &&
      WellKeyed(results, nextId) && WellKeyed(attendance, nextId) &&
      WellKeyed(announcements, nextId) && WellKeyed(notifications, nextId) &&
      WellKeyed(apiKeys, nextId) && WellKeyed(materials, nextId)
    }

    constructor ()
      ensures Valid() && nextId == 0
      ensures users == [] && courses == [] && enrollments == [] && events == []
      ensures results == [] && attendance == [] && announcements == []
      ensures notifications == [] && apiKeys == [] && materials == []
    {
      users, courses, enrollments, events := [], [], [], [];
      results, attendance, announcements := [], [], [];
      notifications, apiKeys, materials := [], [], [];
      nextId := 0;
    }

/** Raising the id counter keeps every collection keyed below it. */
    lemma GrowAll(next: Id)
      requires Valid() && nextId <= next
      ensures WellKeyed(users, next) && WellKeyed(courses, next) && WellKeyed(enrollments, next)
      ensures WellKeyed(events, next) && WellKeyed(results, next) && WellKeyed(attendance, next)
      ensures WellKeyed(announcements, next) && WellKeyed(notifications, next)
      ensures WellKeyed(apiKeys, next) && WellKeyed(materials, next)
    {
      GrowWellKeyed(users, nextId, next);
      GrowWellKeyed(courses, nextId, next);
      GrowWellKeyed(enrollments, nextId, next);
      GrowWellKeyed(events, nextId, next);
      GrowWellKeyed(results, nextId, next);
      GrowWellKeyed(attendance, nextId, next);
      GrowWellKeyed(announcements, nextId, next);
      GrowWellKeyed(notifications, nextId, next);
      GrowWellKeyed(apiKeys, nextId, next);
      GrowWellKeyed(materials, nextId, next);
    }

    /** Stores `xs` as the users collection and `next` as the id counter,
        when `xs` is keyed below `next` and no id is handed out twice. */
    method CommitUsers(xs: seq<Doc<User>>, next: Id)
      requires Valid() && WellKeyed(xs, next) && nextId <= next
      modifies this`users, this`nextId
      ensures users == xs && nextId == next && Valid()
    {
      GrowAll(next);
      users, nextId := xs, next;
    }

    /** Stores `xs` as the users collection, the id counter unchanged. */
    method SetUsers(xs: seq<Doc<User>>)
      requires Valid() && WellKeyed(xs, nextId)
      modifies this`users
      ensures users == xs && Valid()
    {
      users := xs;
    }

    /** `new User(u).save()`: stored last, under a fresh id. */
    method InsertUser(d: User) returns (id: Id)
      requires Valid()
      modifies this`users, this`nextId
      ensures id == old(nextId) && nextId == id + 1 && Valid()
      ensures users == old(users) + [Doc(id, d)]
    {
      AppendWellKeyed(users, nextId, d);
      id := nextId;
      CommitUsers(users + [Doc(id, d)], nextId + 1);
    }

    /** Stores `xs` as the courses collection and `next` as the id counter,
        when `xs` is keyed below `next` and no id is handed out twice. */
    method CommitCourses(xs: seq<Doc<Course>>, next: Id)
      requires Valid() && WellKeyed(xs, next) && nextId <= next
      modifies this`courses, this`nextId
      ensures courses == xs && nextId == next && Valid()
    {
      GrowAll(next);
      courses, nextId := xs, next;
    }

    /** Stores `xs` as the courses collection, the id counter unchanged. */
    method SetCourses(xs: seq<Doc<Course>>)
      requires Valid() && WellKeyed(xs, nextId)
      modifies this`courses
      ensures courses == xs && Valid()
    {
      courses := xs;
    }

    /** `new Course(c).save()`: stored last, under a fresh id. */
    method InsertCourse(d: Course) returns (id: Id)
      requires Valid()
      modifies this`courses, this`nextId
      ensures id == old(nextId) && nextId == id + 1 && Valid()
      ensures courses == old(courses) + [Doc(id, d)]
    {
      AppendWellKeyed(courses, nextId, d);
      id := nextId;
      CommitCourses(courses + [Doc(id, d)], nextId + 1);
    }

    /** Stores `xs` as the enrollments collection and `next` as the id counter,
        when `xs` is keyed below `next` and no id is handed out twice. */
    method CommitEnrollments(xs: seq<Doc<Enrollment>>, next: Id)
      requires Valid() && WellKeyed(xs, next) && nextId <= next
      modifies this`enrollments, this`nextId
      ensures enrollments == xs && nextId == next && Valid()
    {
      GrowAll(next);
      enrollments, nextId := xs, next;
    }

    /** Stores `xs` as the enrollments collection, the id counter unchanged. */
    method SetEnrollments(xs: seq<Doc<Enrollment>>)
      requires Valid() && WellKeyed(xs, nextId)
      modifies this`enrollments
      ensures enrollments == xs && Valid()
    {
      enrollments := xs;
    }

    /** `new Enrollment(e).save()`: stored last, under a fresh id. */
    method InsertEnrollment(d: Enrollment) returns (id: Id)
      requires Valid()
      modifies this`enrollments, this`nextId
      ensures id == old(nextId) && nextId == id + 1 && Valid()
      ensures enrollments == old(enrollments) + [Doc(id, d)]
    {
      AppendWellKeyed(enrollments, nextId, d);
      id := nextId;
      CommitEnrollments(enrollments + [Doc(id, d)], nextId + 1);
    }

    /** Stores `xs` as the events collection and `next` as the id counter,
        when `xs` is keyed below `next` and no id is handed out twice. */
    method CommitEvents(xs: seq<Doc<Event>>, next: Id)
      requires Valid() && WellKeyed(xs, next) && nextId <= next
      modifies this`events, this`nextId
      ensures events == xs && nextId == next && Valid()
    {
      GrowAll(next);
      events, nextId := xs, next;
    }

    /** Stores `xs` as the events collection, the id counter unchanged. */
    method SetEvents(xs: seq<Doc<Event>>)
      requires Valid() && WellKeyed(xs, nextId)
      modifies this`events
      ensures events == xs && Valid()
    {
      events := xs;
    }

    /** `new Event(e).save()`: stored last, under a fresh id. */
    method InsertEvent(d: Event) returns (id: Id)
      requires Valid()
      modifies this`events, this`nextId
      ensures id == old(nextId) && nextId == id + 1 && Valid()
      ensures events == old(events) + [Doc(id, d)]
    {
      AppendWellKeyed(events, nextId, d);
      id := nextId;
      CommitEvents(events + [Doc(id, d)], nextId + 1);
    }

    /** Stores `xs` as the results collection and `next` as the id counter,
        when `xs` is keyed below `next` and no id is handed out twice. */
    method CommitResults(xs: seq<Doc<ResultRecord>>, next: Id)
      requires Valid() && WellKeyed(xs, next) && nextId <= next
      modifies this`results, this`nextId
      ensures results == xs && nextId == next && Valid()
    {
      GrowAll(next);
      results, nextId := xs, next;
    }

    /** Stores `xs` as the results collection, the id counter unchanged. */
    method SetResults(xs: seq<Doc<ResultRecord>>)
      requires Valid() && WellKeyed(xs, nextId)
      modifies this`results
      ensures results == xs && Valid()
    {
      results := xs;
    }

    /** `new Result(r).save()`: stored last, under a fresh id. */
    method InsertResultRecord(d: ResultRecord) returns (id: Id)
      requires Valid()
      modifies this`results, this`nextId
      ensures id == old(nextId) && nextId == id + 1 && Valid()
      ensures results == old(results) + [Doc(id, d)]
    {
      AppendWellKeyed(results, nextId, d);
      id := nextId;
      CommitResults(results + [Doc(id, d)], nextId + 1);
    }

    /** Stores `xs` as the attendance collection and `next` as the id counter,
        when `xs` is keyed below `next` and no id is handed out twice. */
    method CommitAttendance(xs: seq<Doc<Attendance>>, next: Id)
      requires Valid() && WellKeyed(xs, next) && nextId <= next
      modifies this`attendance, this`nextId
      ensures attendance == xs && nextId == next && Valid()
    {
      GrowAll(next);
      attendance, nextId := xs, next;
    }

    /** Stores `xs` as the attendance collection, the id counter unchanged. */
    method SetAttendance(xs: seq<Doc<Attendance>>)
      requires Valid() && WellKeyed(xs, nextId)
      modifies this`attendance
      ensures attendance == xs && Valid()
    {
      attendance := xs;
    }

    /** `new Attendance(a).save()`: stored last, under a fresh id. */
    method InsertAttendance(d: Attendance) returns (id: Id)
      requires Valid()
      modifies this`attendance, this`nextId
      ensures id == old(nextId) && nextId == id + 1 && Valid()
      ensures attendance == old(attendance) + [Doc(id, d)]
    {
      AppendWellKeyed(attendance, nextId, d);
      id := nextId;
      CommitAttendance(attendance + [Doc(id, d)], nextId + 1);
    }

    /** Stores `xs` as the announcements collection and `next` as the id counter,
        when `xs` is keyed below `next` and no id is handed out twice. */
    method CommitAnnouncements(xs: seq<Doc<Announcement>>, next: Id)
      requires Valid() && WellKeyed(xs, next) && nextId <= next
      modifies this`announcements, this`nextId
      ensures announcements == xs && nextId == next && Valid()
    {
      GrowAll(next);
      announcements, nextId := xs, next;
    }

    /** Stores `xs` as the announcements collection, the id counter unchanged. */
    method SetAnnouncements(xs: seq<Doc<Announcement>>)
      requires Valid() && WellKeyed(xs, nextId)
      modifies this`announcements
      ensures announcements == xs && Valid()
    {
      announcements := xs;
    }

    /** `new Announcement(a).save()`: stored last, under a fresh id. */
    method InsertAnnouncement(d: Announcement) returns (id: Id)
      requires Valid()
      modifies this`announcements, this`nextId
      ensures id == old(nextId) && nextId == id + 1 && Valid()
      ensures announcements == old(announcements) + [Doc(id, d)]
    {
      AppendWellKeyed(announcements, nextId, d);
      id := nextId;
      CommitAnnouncements(announcements + [Doc(id, d)], nextId + 1);
    }

    /** Stores `xs` as the notifications collection and `next` as the id counter,
        when `xs` is keyed below `next` and no id is handed out twice. */
    method CommitNotifications(xs: seq<Doc<Notification>>, next: Id)
      requires Valid() && WellKeyed(xs, next) && nextId <= next
      modifies this`notifications, this`nextId
      ensures notifications == xs && nextId == next && Valid()
    {
      GrowAll(next);
      notifications, nextId := xs, next;
    }

    /** Stores `xs` as the notifications collection, the id counter unchanged. */
    method SetNotifications(xs: seq<Doc<Notification>>)
      requires Valid() && WellKeyed(xs, nextId)
      modifies this`notifications
      ensures notifications == xs && Valid()
    {
      notifications := xs;
    }

    /** `Notification.create(n)`: stored last, under a fresh id. */
    method InsertNotification(d: Notification) returns (id: Id)
      requires Valid()
      modifies this`notifications, this`nextId
      ensures id == old(nextId) && nextId == id + 1 && Valid()
      ensures notifications == old(notifications) + [Doc(id, d)]
    {
      AppendWellKeyed(notifications, nextId, d);
      id := nextId;
      CommitNotifications(notifications + [Doc(id, d)], nextId + 1);
    }

    /** Stores `xs` as the apiKeys collection and `next` as the id counter,
        when `xs` is keyed below `next` and no id is handed out twice. */
    method CommitApiKeys(xs: seq<Doc<ApiKey>>, next: Id)
      requires Valid() && WellKeyed(xs, next) && nextId <= next
      modifies this`apiKeys, this`nextId
      ensures apiKeys == xs && nextId == next && Valid()
    {
      GrowAll(next);
      apiKeys, nextId := xs, next;
    }

    /** Stores `xs` as the apiKeys collection, the id counter unchanged. */
    method SetApiKeys(xs: seq<Doc<ApiKey>>)
      requires Valid() && WellKeyed(xs, nextId)
      modifies this`apiKeys
      ensures apiKeys == xs && Valid()
    {
      apiKeys := xs;
    }

    /** `new ApiKey(k).save()`: stored last, under a fresh id. */
    method InsertApiKey(d: ApiKey) returns (id: Id)
      requires Valid()
      modifies this`apiKeys, this`nextId
      ensures id == old(nextId) && nextId == id + 1 && Valid()
      ensures apiKeys == old(apiKeys) + [Doc(id, d)]
    {
      AppendWellKeyed(apiKeys, nextId, d);
      id := nextId;
      CommitApiKeys(apiKeys + [Doc(id, d)], nextId + 1);
    }

    /** Stores `xs` as the materials collection and `next` as the id counter,
        when `xs` is keyed below `next` and no id is handed out twice. */
    method CommitMaterials(xs: seq<Doc<Material>>, next: Id)
      requires Valid() && WellKeyed(xs, next) && nextId <= next
      modifies this`materials, this`nextId
      ensures materials == xs && nextId == next && Valid()
    {
      GrowAll(next);
      materials, nextId := xs, next;
    }

    /** Stores `xs` as the materials collection, the id counter unchanged. */
    method SetMaterials(xs: seq<Doc<Material>>)
      requires Valid() && WellKeyed(xs, nextId)
      modifies this`materials
      ensures materials == xs && Valid()
    {
      materials := xs;
    }

    /** `new Material(m).save()`: stored last, under a fresh id. */
    method InsertMaterial(d: Material) returns (id: Id)
      requires Valid()
      modifies this`materials, this`nextId
      ensures id == old(nextId) && nextId == id + 1 && Valid()
      ensures materials == old(materials) + [Doc(id, d)]
    {
      AppendWellKeyed(materials, nextId, d);
      id := nextId;
      CommitMaterials(materials + [Doc(id, d)], nextId + 1);
    }

    /** `Notification.insertMany(notes)` (ordered): the documents the store
        accepts, the first `accepted` of them, are stored in order under fresh ids. */
    method InsertMany(notes: seq<Notification>, accepted: nat) returns (stored: nat)
      requires Valid()
      modifies this`notifications, this`nextId
      ensures stored == |Accepted(notes, accepted)|
      ensures notifications == old(notifications) + Numbered(Accepted(notes, accepted), old(nextId))
      ensures nextId == old(nextId) + stored && Valid()
    {
      stored := |Accepted(notes, accepted)|;
      var added := Numbered(Accepted(notes, accepted), nextId);
      AppendConsecutiveWellKeyed(notifications, nextId, added);
      CommitNotifications(notifications + added, nextId + stored);
    }
  }
}
