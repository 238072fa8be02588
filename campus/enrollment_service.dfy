/** src/services/enrollmentService.js over the `Enrollment` collection of
    src/models/Enrollment.js: the two paginated listings, the status update
    and the per-course statistics. */
module EnrollmentService {
  import opened Common
  import opened Store
  import opened Response

  const EnrollmentNotFound := "Enrollment not found"
  const EnrollmentInvalid := "Enrollment validation failed"

  /** A listing: one page of the matching enrollments, in natural order,
      with the count of all of them. */
  function Listing(enrollments: seq<Doc<Enrollment>>, p: Enrollment -> bool, page: int, limit: int)
    : (r: Result<(seq<Doc<Enrollment>>, PageInfo)>)
    ensures r.Err? <==> (page - 1) * limit < 0
    ensures r.Ok? ==> r.value.1 == PageInfo(Count(enrollments, p), PageCount(Count(enrollments, p), limit), page, limit)
    ensures r.Ok? ==> forall d :: d in r.value.0 ==> d in enrollments && p(d.val)
  {
    var matching := Select(enrollments, p);
    match Window(matching, (page - 1) * limit, limit)
    case Err(msg) => Err(msg)
    case Ok(items) =>
      assert forall d :: d in items ==> d in matching;
      Ok((items, PageInfo(|matching|, PageCount(|matching|, limit), page, limit)))
  }

  /** `getStudentEnrollments`: the student's enrollments, page by page. */
  function GetStudentEnrollments(enrollments: seq<Doc<Enrollment>>, student: Id, page: int, limit: int)
    : (r: Result<(seq<Doc<Enrollment>>, PageInfo)>)
    ensures r.Ok? ==> forall d :: d in r.value.0 ==> d in enrollments && d.val.student == student
    ensures r.Ok? ==> r.value.1.total == Count(enrollments, (e: Enrollment) => e.student == student)
  {
    Listing(enrollments, (e: Enrollment) => e.student == student, page, limit)
  }

  /** `getCourseEnrollments`: the course's enrollments, page by page. */
  function GetCourseEnrollments(enrollments: seq<Doc<Enrollment>>, course: Id, page: int, limit: int)
    : (r: Result<(seq<Doc<Enrollment>>, PageInfo)>)
    ensures r.Ok? ==> forall d :: d in r.value.0 ==> d in enrollments && d.val.course == course
    ensures r.Ok? ==> r.value.1.total == Count(enrollments, (e: Enrollment) => e.course == course)
  {
    Listing(enrollments, (e: Enrollment) => e.course == course, page, limit)
  }

  /** With the parameters `getPaginationParams` produces from a positive
      limit, every matching enrollment is on some page up to `pages`. */
  lemma ListingReachesEveryEnrollment(enrollments: seq<Doc<Enrollment>>, p: Enrollment -> bool, limit: int, i: int)
    requires limit > 0 && 0 <= i < Count(enrollments, p)
    ensures var page := i / limit + 1;
      var r := Listing(enrollments, p, page, limit);
      1 <= page <= r.value.1.pages.value && Select(enrollments, p)[i] in r.value.0
  {
    var matching := Select(enrollments, p);
    PagesCoverListing(matching, limit, i);
  }

  /** The `status` enum. */
  function ParseEnrollmentStatus(s: string): (r: Option<EnrollmentStatus>)
    ensures r.Some? <==> s in ["active", "dropped", "completed", "suspended"]
  {
    if s == "active" then Some(Active)
    else if s == "dropped" then Some(Dropped)
    else if s == "completed" then Some(Completed)
    else if s == "suspended" then Some(Suspended)
    else None
  }

  /** The update validators: a truthy status from the enum, a given
      percentage within [0, 100]. */
  predicate EnrollmentUpdateOk(status: Option<string>, attendancePercentage: Option<real>)
  {
    (Truthy(status) ==> ParseEnrollmentStatus(status.value).Some?) &&
    (attendancePercentage.Some? ==> 0.0 <= attendancePercentage.value <= 100.0)
  }

  /** The fields `updateEnrollmentStatus` sets: the status when truthy, the
      percentage whenever defined (so 0 is applied), and `updatedAt`. */
  function AmendEnrollment(e: Enrollment, status: Option<string>, attendancePercentage: Option<real>, now: int)
    : (r: Enrollment)
    requires EnrollmentUpdateOk(status, attendancePercentage)
    ensures r.student == e.student && r.course == e.course && r.semester == e.semester && r.year == e.year
    ensures r.status == (if Truthy(status) then ParseEnrollmentStatus(status.value).value else e.status)
    ensures r.attendancePercentage == (if attendancePercentage.Some? then attendancePercentage.value else e.attendancePercentage)
    ensures r.updatedAt == now
  {
    e.(status := if Truthy(status) then ParseEnrollmentStatus(status.value).value else e.status,
       attendancePercentage := if attendancePercentage.Some? then attendancePercentage.value else e.attendancePercentage,
       updatedAt := now)
  }

  /** The percentage bound the validators keep. */
  predicate PercentageOk(e: Enrollment)
  {
    0.0 <= e.attendancePercentage <= 100.0
  }

  /** An accepted update keeps the percentage within [0, 100]. */
  lemma AmendKeepsPercentageOk(e: Enrollment, status: Option<string>, attendancePercentage: Option<real>, now: int)
    requires EnrollmentUpdateOk(status, attendancePercentage) && PercentageOk(e)
    ensures PercentageOk(AmendEnrollment(e, status, attendancePercentage, now))
  {
  }

  /** `updateEnrollmentStatus`: the validators, then `findByIdAndUpdate`. */
  method UpdateEnrollmentStatus(db: Db, enrollmentId: Id, status: Option<string>, attendancePercentage: Option<real>,
                                now: int) returns (r: Result<Enrollment>)
    requires db.Valid()
    modifies db`enrollments
    ensures db.Valid()
    ensures r.Err? ==> db.enrollments == old(db.enrollments)
    ensures !EnrollmentUpdateOk(status, attendancePercentage) ==> r == Err(EnrollmentInvalid)
    ensures EnrollmentUpdateOk(status, attendancePercentage) && Find(old(db.enrollments), enrollmentId).None? ==>
      r == Err(EnrollmentNotFound)
    ensures r.Ok? ==> EnrollmentUpdateOk(status, attendancePercentage) && Find(old(db.enrollments), enrollmentId).Some?
    ensures r.Ok? ==> var i := Find(old(db.enrollments), enrollmentId).value;
      r.value == AmendEnrollment(old(db.enrollments)[i].val, status, attendancePercentage, now) &&
      db.enrollments == old(db.enrollments)[i := Doc(enrollmentId, r.value)]
    ensures EnrollmentUpdateOk(status, attendancePercentage) && Find(old(db.enrollments), enrollmentId).Some? ==> r.Ok?
  {
    if !EnrollmentUpdateOk(status, attendancePercentage) {
      return Err(EnrollmentInvalid);
    }
    var found := Find(db.enrollments, enrollmentId);
    if found.None? {
      return Err(EnrollmentNotFound);
    }
    var i := found.value;
    var e := AmendEnrollment(db.enrollments[i].val, status, attendancePercentage, now);
    UpdateWellKeyed(db.enrollments, db.nextId, i, e);
    db.SetEnrollments(db.enrollments[i := Doc(enrollmentId, e)]);
    r := Ok(e);
  }

  /** The object `getCourseEnrollmentStats` returns. */
  datatype Stats = Stats(total: nat, active: nat, completed: nat, dropped: nat, suspended: nat, averageAttendance: real)

  function StatusCount(es: seq<Doc<Enrollment>>, s: EnrollmentStatus): nat
  {
    Count(es, (e: Enrollment) => e.status == s)
  }

  /** Every enrollment has exactly one of the four statuses. */
  lemma {:induction false} StatusCountsSum(es: seq<Doc<Enrollment>>)
    ensures StatusCount(es, Active) + StatusCount(es, Completed) +
            StatusCount(es, Dropped) + StatusCount(es, Suspended) == |es|
  {
    if |es| > 0 {
      StatusCountsSum(es[1..]);
    }
  }

  /** `enrollments.reduce((sum, e) => sum + e.attendancePercentage, 0)`. */
  function SumAttendance(es: seq<Doc<Enrollment>>): real
  {
    if |es| == 0 then 0.0 else SumAttendance(es[..|es| - 1]) + es[|es| - 1].val.attendancePercentage
  }

  /** Percentages within [0, 100] sum to at most 100 per enrollment. */
  lemma {:induction false} SumAttendanceBounds(es: seq<Doc<Enrollment>>)
    requires forall k :: 0 <= k < |es| ==> PercentageOk(es[k].val)
    ensures 0.0 <= SumAttendance(es) <= 100.0 * |es| as real
  {
    if |es| > 0 {
      SumAttendanceBounds(es[..|es| - 1]);
    }
  }

  /** `sum / enrollments.length || 0`: the mean, and 0 (not `NaN`) for no enrollments. */
  function Average(sum: real, count: nat): real
  {
    if count == 0 then 0.0 else sum / count as real
  }

  /** The statistics of the course's enrollments. */
  function GetCourseEnrollmentStats(enrollments: seq<Doc<Enrollment>>, course: Id): (s: Stats)
    ensures s.total == Count(enrollments, (e: Enrollment) => e.course == course)
    ensures var es := Select(enrollments, (e: Enrollment) => e.course == course);
      s.active == StatusCount(es, Active) && s.completed == StatusCount(es, Completed) &&
      s.dropped == StatusCount(es, Dropped) && s.suspended == StatusCount(es, Suspended) &&
      s.averageAttendance == Average(SumAttendance(es), s.total)
    ensures s.total == s.active + s.completed + s.dropped + s.suspended
    ensures s.total == 0 ==> s.averageAttendance == 0.0
    ensures (forall k :: 0 <= k < |enrollments| ==> PercentageOk(enrollments[k].val)) ==>
      0.0 <= s.averageAttendance <= 100.0
  {
    var es := Select(enrollments, (e: Enrollment) => e.course == course);
    StatusCountsSum(es);
    var s := Stats(|es|, StatusCount(es, Active), StatusCount(es, Completed), StatusCount(es, Dropped),
                   StatusCount(es, Suspended), Average(SumAttendance(es), |es|));
    if (forall k :: 0 <= k < |enrollments| ==> PercentageOk(enrollments[k].val)) then
      assert forall k :: 0 <= k < |es| ==> PercentageOk(es[k].val) by {
        forall k | 0 <= k < |es| ensures PercentageOk(es[k].val) {
          assert es[k] in enrollments;
        }
      }
      SumAttendanceBounds(es);
      AverageBounds(SumAttendance(es), |es|);
      s
    else s
  }

  /** `getCourseEnrollmentStats` as written: `Enrollment` holds the object
      `{ EnrollmentModel }` that src/models/enrollment.model.js exports, so
      `Enrollment.find` throws, where the corrected statistics always have
      an answer. */
  function GetCourseEnrollmentStatsAsWritten(enrollments: seq<Doc<Enrollment>>, course: Id): (r: Result<Stats>)
    ensures r.Err? && r.msg == NotAFunction("Enrollment", "find")
    ensures r != Ok(GetCourseEnrollmentStats(enrollments, course))
  {
    Err(NotAFunction("Enrollment", "find"))
  }

  lemma AverageBounds(sum: real, count: nat)
    requires 0.0 <= sum <= 100.0 * count as real
    ensures 0.0 <= Average(sum, count) <= 100.0
  {
    if count > 0 {
      var a := sum / count as real;
      assert a * count as real == sum;
    }
  }
}
