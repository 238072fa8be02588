/** src/services/courseService.js over the `Course` collection of
    src/models/Course.js: creation with its duplicate-code check, the
    whitelist update, and the capacity-bounded roster kept by
    `enrollStudent` and `dropCourse`. */
module CourseService {
  import opened Common
  import opened Store

  const CodeExists := "Course code already exists"
  const CourseNotFound := "Course not found"
  const CourseFull := "Course is full"
  const AlreadyEnrolled := "Student already enrolled in this course"
  const CourseInvalid := "Course validation failed"
  const EnrollmentInvalid := "Enrollment validation failed"

  /** The `semester` enum of src/models/Course.js. */
  const SemesterEnum: set<string> := {"Fall", "Spring", "Summer"}

  /** The fields `updateCourse` copies from the request body. */
  const CourseFields: seq<string> := ["title", "description", "credits", "maxStudents", "schedule", "isActive"]

  /** The stored form of a course code: the `uppercase` and `trim` setters,
      which Mongoose also applies to the code in a query filter. */
  function NormCode(code: string): string
  {
    Trim(ToUpper(code))
  }

  /** No two courses share a code (the `unique` index on `courseCode`). */
  predicate UniqueCodes(cs: seq<Doc<Course>>)
  {
    forall i, j :: 0 <= i < j < |cs| ==> cs[i].val.courseCode != cs[j].val.courseCode
  }

  /** The roster invariant: nobody twice, and no more than `maxStudents`. */
  predicate RosterOk(c: Course)
  {
    NoDup(c.enrolledStudents) && |c.enrolledStudents| <= c.maxStudents
  }

  /** The validators `save()` runs on a new course: the required strings
      non-empty, `credits` and `maxStudents` at least 1, the semester enum. */
  predicate ValidCourse(c: Course)
  {
    c.courseCode != "" && c.title != "" && c.department != "" &&
    c.credits >= 1 && c.maxStudents >= 1 && c.semester in SemesterEnum
  }

  /** The document `new Course({...})` builds: setters applied, description
      defaulting to the empty string, active, with an empty roster. */
  function NewCourse(courseCode: string, title: string, description: Option<string>, credits: int,
                     instructor: Id, department: string, semester: string, year: int,
                     maxStudents: int, schedule: Value, now: int): Course
  {
    Course(NormCode(courseCode), Trim(title), if description.Some? then description.value else "",
           credits, instructor, department, semester, year, maxStudents, schedule, true, [], now)
  }

  /** A valid new course satisfies the roster invariant: its roster is empty. */
  lemma NewCourseRosterOk(courseCode: string, title: string, description: Option<string>, credits: int,
                          instructor: Id, department: string, semester: string, year: int,
                          maxStudents: int, schedule: Value, now: int)
    requires ValidCourse(NewCourse(courseCode, title, description, credits, instructor, department,
                                   semester, year, maxStudents, schedule, now))
    ensures RosterOk(NewCourse(courseCode, title, description, credits, instructor, department,
                               semester, year, maxStudents, schedule, now))
  {
  }

  /** `createCourse`: refused when the (normalised) code is taken, then by
      the validators; otherwise stored under a fresh id. */
  method CreateCourse(db: Db, courseCode: string, title: string, description: Option<string>, credits: int,
                      instructor: Id, department: string, semester: string, year: int,
                      maxStudents: int, schedule: Value, now: int) returns (r: Result<Id>)
    requires db.Valid() && UniqueCodes(db.courses)
    modifies db`courses, db`nextId
    ensures db.Valid() && UniqueCodes(db.courses)
    ensures r == Err(CodeExists) <==>
      exists i :: 0 <= i < |old(db.courses)| && old(db.courses)[i].val.courseCode == NormCode(courseCode)
    ensures r.Ok? <==> (r != Err(CodeExists) &&
      ValidCourse(NewCourse(courseCode, title, description, credits, instructor, department,
                            semester, year, maxStudents, schedule, now)))
    ensures r.Ok? ==> (r.value == old(db.nextId) && db.nextId == old(db.nextId) + 1 &&
      db.courses == old(db.courses) + [Doc(r.value, NewCourse(courseCode, title, description, credits, instructor,
                                                              department, semester, year, maxStudents, schedule, now))])
    ensures r.Err? ==> db.courses == old(db.courses) && db.nextId == old(db.nextId)
  {
    var code := NormCode(courseCode);
    var existing := FirstIndex(db.courses, (d: Doc<Course>) => d.val.courseCode == code);
    if existing.Some? {
      return Err(CodeExists);
    }
    var c := NewCourse(courseCode, title, description, credits, instructor, department,
                       semester, year, maxStudents, schedule, now);
    if !ValidCourse(c) {
      return Err(CourseInvalid);
    }
    var id := InsertCourse(db, c);
    r := Ok(id);
  }

  /** `course.save()` of a new course. */
  method InsertCourse(db: Db, c: Course) returns (id: Id)
    requires db.Valid() && UniqueCodes(db.courses)
    requires forall i :: 0 <= i < |db.courses| ==> db.courses[i].val.courseCode != c.courseCode
    modifies db`courses, db`nextId
    ensures db.Valid() && UniqueCodes(db.courses)
    ensures id == old(db.nextId) && db.nextId == id + 1 && db.courses == old(db.courses) + [Doc(id, c)]
  {
    id := db.InsertCourse(c);
  }

  /** Casting and the update validators on the copied fields: text for the
      strings, with the required `title` not empty once its `trim` setter
      has run, numbers of at least 1 for `credits` and `maxStudents`, an
      object for `schedule`, a boolean for `isActive`. */
  predicate CourseUpdateOk(upd: map<string, Value>)
  {
    ("title" in upd ==> upd["title"].Text? && |Trim(upd["title"].s)| > 0) &&
    ("description" in upd ==> upd["description"].Text?) &&
    ("credits" in upd ==> upd["credits"].Num? && upd["credits"].n >= 1) &&
    ("maxStudents" in upd ==> upd["maxStudents"].Num? && upd["maxStudents"].n >= 1) &&
    ("schedule" in upd ==> upd["schedule"].Object?) &&
    ("isActive" in upd ==> upd["isActive"].Bool?)
  }

  /** The course after `{ ...updateData, updatedAt }` is applied. */
  function ApplyCourseUpdate(c: Course, upd: map<string, Value>, now: int): Course
    requires CourseUpdateOk(upd)
  {
    c.(title := if "title" in upd then Trim(upd["title"].s) else c.title,
       description := if "description" in upd then upd["description"].s else c.description,
       credits := if "credits" in upd then upd["credits"].n else c.credits,
       maxStudents := if "maxStudents" in upd then upd["maxStudents"].n else c.maxStudents,
       schedule := if "schedule" in upd then upd["schedule"] else c.schedule,
       isActive := if "isActive" in upd then upd["isActive"].b else c.isActive,
       updatedAt := now)
  }

  /** The fields outside the whitelist: code, instructor, department,
      semester, year and roster. */
  predicate SameIdentity(c: Course, c': Course)
  {
    c'.courseCode == c.courseCode && c'.instructor == c.instructor && c'.department == c.department &&
    c'.semester == c.semester && c'.year == c.year && c'.enrolledStudents == c.enrolledStudents
  }

  /** Only whitelisted keys reach the course; each of them replaces its
      field, and every other field is kept. */
  lemma ApplyCourseUpdateFields(c: Course, upd: map<string, Value>, now: int)
    requires CourseUpdateOk(upd)
    ensures SameIdentity(c, ApplyCourseUpdate(c, upd, now))
    ensures ApplyCourseUpdate(c, upd, now).updatedAt == now
    ensures "title" !in upd ==> ApplyCourseUpdate(c, upd, now).title == c.title
    ensures "credits" in upd ==> ApplyCourseUpdate(c, upd, now).credits == upd["credits"].n
    ensures "maxStudents" !in upd ==> ApplyCourseUpdate(c, upd, now).maxStudents == c.maxStudents
    ensures "isActive" in upd ==> ApplyCourseUpdate(c, upd, now).isActive == upd["isActive"].b
  {
  }

  /** `updateCourse` can lower `maxStudents` below the roster size: the
      roster invariant is kept by enrolment and drop only. */
  lemma UpdateCanOverfillRoster(c: Course, now: int)
    requires RosterOk(c) && |c.enrolledStudents| >= 2
    ensures !RosterOk(ApplyCourseUpdate(c, map["maxStudents" := Num(1)], now))
  {
  }

  /** Replacing a course by one with the same code keeps the codes unique. */
  lemma SameCodeKeepsUnique(cs: seq<Doc<Course>>, i: nat, d: Doc<Course>)
    requires i < |cs| && d.val.courseCode == cs[i].val.courseCode
    ensures UniqueCodes(cs) ==> UniqueCodes(cs[i := d])
  {
    var e := cs[i := d];
    if UniqueCodes(cs) {
      forall j, k | 0 <= j < k < |e|
        ensures e[j].val.courseCode != e[k].val.courseCode
      {
        assert e[j].val.courseCode == cs[j].val.courseCode;
        assert e[k].val.courseCode == cs[k].val.courseCode;
      }
    }
  }

  /** `updateCourse`: the `allowedFields` loop, the cast and validators of
      `findByIdAndUpdate`, then the lookup. */
  method UpdateCourse(db: Db, courseId: Id, data: map<string, Value>, now: int) returns (r: Result<Course>)
    requires db.Valid()
    modifies db`courses
    ensures db.Valid()
    ensures UniqueCodes(old(db.courses)) ==> UniqueCodes(db.courses)
    ensures var upd := map f | f in data && f in CourseFields :: data[f];
      (r.Ok? <==> CourseUpdateOk(upd) && Find(old(db.courses), courseId).Some?) &&
      (r.Ok? ==> var i := Find(old(db.courses), courseId).value;
        r.value == ApplyCourseUpdate(old(db.courses)[i].val, upd, now) &&
        db.courses == old(db.courses)[i := Doc(courseId, r.value)])
    ensures r.Err? ==> db.courses == old(db.courses)
    ensures r == Err(CourseNotFound) <==>
      CourseUpdateOk(map f | f in data && f in CourseFields :: data[f]) && Find(old(db.courses), courseId).None?
  {
    var upd := SelectAllowed(data, CourseFields);
    assert upd == map f | f in data && f in CourseFields :: data[f];
    if !CourseUpdateOk(upd) {
      return Err(CourseInvalid);
    }
    var found := Find(db.courses, courseId);
    if found.None? {
      return Err(CourseNotFound);
    }
    var i := found.value;
    var c := ApplyCourseUpdate(db.courses[i].val, upd, now);
    ApplyCourseUpdateFields(db.courses[i].val, upd, now);
    SameCodeKeepsUnique(db.courses, i, Doc(courseId, c));
    UpdateWellKeyed(db.courses, db.nextId, i, c);
    db.SetCourses(db.courses[i := Doc(courseId, c)]);
    r := Ok(c);
  }

  /** The enrollment key of src/models/Enrollment.js's unique index. */
  function EnrollmentKey(e: Enrollment): (Id, Id, string, int)
  {
    (e.student, e.course, e.semester, e.year)
  }

  /** The fields `new Enrollment({ student, course, status })` is given:
      semester and year are absent. */
  datatype EnrollmentDraft = EnrollmentDraft(student: Id, course: Id, status: EnrollmentStatus,
                                             semester: Option<string>, year: Option<int>)

  /** The `required` validators of src/models/Enrollment.js. */
  predicate RequiredPresent(d: EnrollmentDraft)
  {
    d.semester.Some? && d.year.Some?
  }

  /** What the enrolment decision reads of the store before it writes. */
  function EnrollCheck(courses: seq<Doc<Course>>, studentId: Id, courseId: Id): (r: Result<nat>)
    ensures r == Err(CourseNotFound) <==> Find(courses, courseId).None?
    ensures r.Ok? <==> (Find(courses, courseId).Some? &&
      |courses[Find(courses, courseId).value].val.enrolledStudents| < courses[Find(courses, courseId).value].val.maxStudents &&
      studentId !in courses[Find(courses, courseId).value].val.enrolledStudents)
    ensures r.Ok? ==> r == Ok(Find(courses, courseId).value)
  {
    match Find(courses, courseId)
    case None => Err(CourseNotFound)
    case Some(i) =>
      if |courses[i].val.enrolledStudents| >= courses[i].val.maxStudents then Err(CourseFull)
      else if studentId in courses[i].val.enrolledStudents then Err(AlreadyEnrolled)
      else Ok(i)
  }

  /** The capacity check comes first: a full course answers "Course is
      full" even to a student already on its roster. */
  lemma FullBeforeDuplicate(courses: seq<Doc<Course>>, studentId: Id, courseId: Id, i: nat)
    requires i < |courses| && Find(courses, courseId) == Some(i)
    requires |courses[i].val.enrolledStudents| >= courses[i].val.maxStudents
    requires studentId in courses[i].val.enrolledStudents
    ensures EnrollCheck(courses, studentId, courseId) == Err(CourseFull)
  {
  }

  /** `enrollStudent` as written: the checks, then an enrollment without
      semester and year, which its validators refuse before anything is
      stored. */
  method EnrollStudentAsWritten(db: Db, studentId: Id, courseId: Id) returns (r: Result<EnrollmentDraft>)
    ensures r.Err?
    ensures EnrollCheck(db.courses, studentId, courseId).Err? ==> r == Err(EnrollCheck(db.courses, studentId, courseId).msg)
    ensures EnrollCheck(db.courses, studentId, courseId).Ok? ==> r == Err(EnrollmentInvalid)
  {
    var check := EnrollCheck(db.courses, studentId, courseId);
    if check.Err? {
      return Err(check.msg);
    }
    var draft := EnrollmentDraft(studentId, courseId, Active, None, None);
    r := if RequiredPresent(draft) then Ok(draft) else Err(EnrollmentInvalid);
  }

  /** The enrollment `enrollStudent` evidently means to store: active, with
      the course's semester and year. */
  function NewEnrollment(studentId: Id, courseId: Id, c: Course, now: int): Enrollment
  {
    Enrollment(studentId, courseId, Active, 0.0, c.semester, c.year, now)
  }

  /** The course with `studentId` pushed onto its roster. */
  function Enrolled(c: Course, studentId: Id, now: int): (c': Course)
    ensures c'.enrolledStudents == c.enrolledStudents + [studentId]
  {
    c.(enrolledStudents := c.enrolledStudents + [studentId], updatedAt := now)
  }

  /** Pushing a student who is not on a roster with room keeps the roster invariant. */
  lemma {:induction false} EnrolledRosterOk(c: Course, studentId: Id, now: int)
    requires RosterOk(c) && studentId !in c.enrolledStudents && |c.enrolledStudents| < c.maxStudents
    ensures RosterOk(Enrolled(c, studentId, now))
  {
    var s := Enrolled(c, studentId, now).enrolledStudents;
    forall i, j | 0 <= i < j < |s| ensures s[i] != s[j] {
      if j == |s| - 1 {
        assert s[i] == c.enrolledStudents[i];
      } else {
        assert s[i] == c.enrolledStudents[i] && s[j] == c.enrolledStudents[j];
      }
    }
  }

  /** `$push: { enrolledCourses: courseId }` on the student, when the student exists. */
  function PushCourse(users: seq<Doc<User>>, studentId: Id, courseId: Id, now: int): (us: seq<Doc<User>>)
    ensures Find(users, studentId).None? ==> us == users
    ensures Find(users, studentId).Some? ==> var k := Find(users, studentId).value;
      us == users[k := Doc(studentId, users[k].val.(enrolledCourses := users[k].val.enrolledCourses + [courseId],
                                                     updatedAt := now))]
  {
    match Find(users, studentId)
    case None => users
    case Some(k) =>
      users[k := Doc(studentId, users[k].val.(enrolledCourses := users[k].val.enrolledCourses + [courseId],
                                               updatedAt := now))]
  }

  /** `enrollStudent` with the enrollment given the course's semester and
      year: the checks, the enrollment saved (its unique index refuses a
      second one for the same student, course and term), the student pushed
      onto the roster, the course onto the student. */
  method EnrollStudent(db: Db, studentId: Id, courseId: Id, now: int) returns (r: Result<Id>)
    requires db.Valid()
    modifies db`enrollments, db`courses, db`users, db`nextId
    ensures db.Valid()
    ensures EnrollCheck(old(db.courses), studentId, courseId).Err? ==> r == EnrollCheck(old(db.courses), studentId, courseId)
    ensures EnrollCheck(old(db.courses), studentId, courseId).Ok? ==>
      var i := EnrollCheck(old(db.courses), studentId, courseId).value;
      var e := NewEnrollment(studentId, courseId, old(db.courses)[i].val, now);
      (r == Err(DuplicateKey) <==>
        exists k :: 0 <= k < |old(db.enrollments)| && EnrollmentKey(old(db.enrollments)[k].val) == EnrollmentKey(e)) &&
      (r.Ok? ==>
        r.value == old(db.nextId) && db.nextId == old(db.nextId) + 1 &&
        db.enrollments == old(db.enrollments) + [Doc(r.value, e)] &&
        db.courses == old(db.courses)[i := Doc(courseId, Enrolled(old(db.courses)[i].val, studentId, now))] &&
        db.users == PushCourse(old(db.users), studentId, courseId, now))
    ensures r.Err? ==> (db.enrollments == old(db.enrollments) && db.courses == old(db.courses) &&
      db.users == old(db.users) && db.nextId == old(db.nextId))
    ensures r.Ok? || r == Err(CourseNotFound) || r == Err(CourseFull) || r == Err(AlreadyEnrolled) || r == Err(DuplicateKey)
  {
    var check := EnrollCheck(db.courses, studentId, courseId);
    if check.Err? {
      return Err(check.msg);
    }
    var i := check.value;
    var c := db.courses[i].val;
    var e := NewEnrollment(studentId, courseId, c, now);
    var clash := FirstIndex(db.enrollments, (d: Doc<Enrollment>) => EnrollmentKey(d.val) == EnrollmentKey(e));
    if clash.Some? {
      return Err(DuplicateKey);
    }
    var id := db.InsertEnrollment(e);
    PushStudent(db, i, studentId, now);
    PushCourseOnStudent(db, studentId, courseId, now);
    r := Ok(id);
  }

  /** `User.findByIdAndUpdate(studentId, { $push: { enrolledCourses: courseId } })`. */
  method PushCourseOnStudent(db: Db, studentId: Id, courseId: Id, now: int)
    requires db.Valid()
    modifies db`users
    ensures db.Valid()
    ensures db.users == PushCourse(old(db.users), studentId, courseId, now)
  {
    var users := PushCourse(db.users, studentId, courseId, now);
    var found := Find(db.users, studentId);
    if found.Some? {
      UpdateWellKeyed(db.users, db.nextId, found.value, users[found.value].val);
    }
    db.SetUsers(users);
  }

  /** `course.enrolledStudents.push(studentId); course.save()`. */
  method PushStudent(db: Db, i: nat, studentId: Id, now: int)
    requires db.Valid() && i < |db.courses|
    modifies db`courses
    ensures db.Valid()
    ensures db.courses == old(db.courses)[i := Doc(old(db.courses)[i].id, Enrolled(old(db.courses)[i].val, studentId, now))]
  {
    UpdateWellKeyed(db.courses, db.nextId, i, Enrolled(db.courses[i].val, studentId, now));
    db.SetCourses(db.courses[i := Doc(db.courses[i].id, Enrolled(db.courses[i].val, studentId, now))]);
  }

  /** Every course's roster invariant survives an enrolment. */
  lemma EnrollKeepsRosters(courses: seq<Doc<Course>>, studentId: Id, courseId: Id, now: int)
    requires forall k :: 0 <= k < |courses| ==> RosterOk(courses[k].val)
    requires EnrollCheck(courses, studentId, courseId).Ok?
    ensures var i := EnrollCheck(courses, studentId, courseId).value;
      var cs := courses[i := Doc(courseId, Enrolled(courses[i].val, studentId, now))];
      forall k :: 0 <= k < |cs| ==> RosterOk(cs[k].val)
  {
    var i := EnrollCheck(courses, studentId, courseId).value;
    EnrolledRosterOk(courses[i].val, studentId, now);
  }

  /** The course after `$pull: { enrolledStudents: studentId }`. */
  function Pulled(c: Course, studentId: Id, now: int): (c': Course)
    ensures c'.enrolledStudents == RemoveAll(c.enrolledStudents, studentId)
  {
    c.(enrolledStudents := RemoveAll(c.enrolledStudents, studentId), updatedAt := now)
  }

  /** Pulling a student keeps the roster invariant and takes the student off. */
  lemma DroppedRosterOk(c: Course, studentId: Id, now: int)
    requires RosterOk(c)
    ensures RosterOk(Pulled(c, studentId, now))
    ensures studentId !in Pulled(c, studentId, now).enrolledStudents
  {
    RemoveAllNoDup(c.enrolledStudents, studentId);
  }

  /** `dropCourse`: the student pulled from the roster of an existing
      course, then the first enrollment of the student in the course marked
      dropped; no enrollment is not an error. The student's own course list
      is left as it is. */
  method DropCourse(db: Db, studentId: Id, courseId: Id, now: int) returns (r: Result<Option<Enrollment>>)
    requires db.Valid()
    modifies db`courses, db`enrollments
    ensures db.Valid()
    ensures r.Err? <==> Find(old(db.courses), courseId).None?
    ensures r.Err? ==> r == Err(CourseNotFound) && db.courses == old(db.courses) && db.enrollments == old(db.enrollments)
    ensures r.Ok? ==> var i := Find(old(db.courses), courseId).value;
      db.courses == old(db.courses)[i := Doc(courseId, Pulled(old(db.courses)[i].val, studentId, now))]
    ensures r.Ok? ==>
      match FirstIndex(old(db.enrollments), (d: Doc<Enrollment>) => d.val.student == studentId && d.val.course == courseId)
      case None => r.value.None? && db.enrollments == old(db.enrollments)
      case Some(k) =>
        var e := old(db.enrollments)[k].val.(status := Dropped, updatedAt := now);
        r.value == Some(e) && db.enrollments == old(db.enrollments)[k := Doc(old(db.enrollments)[k].id, e)]
  {
    var found := Find(db.courses, courseId);
    if found.None? {
      return Err(CourseNotFound);
    }
    var i := found.value;
    UpdateWellKeyed(db.courses, db.nextId, i, Pulled(db.courses[i].val, studentId, now));
    db.SetCourses(db.courses[i := Doc(courseId, Pulled(db.courses[i].val, studentId, now))]);
    var hit := FirstIndex(db.enrollments, (d: Doc<Enrollment>) => d.val.student == studentId && d.val.course == courseId);
    if hit.None? {
      return Ok(None);
    }
    var k := hit.value;
    var e := db.enrollments[k].val.(status := Dropped, updatedAt := now);
    UpdateWellKeyed(db.enrollments, db.nextId, k, e);
    db.SetEnrollments(db.enrollments[k := Doc(db.enrollments[k].id, e)]);
    r := Ok(Some(e));
  }
}
