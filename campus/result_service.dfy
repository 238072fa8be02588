/** src/services/resultService.js over the `Result` collection of
    src/models/Result.js: creation with its duplicate check, publication
    with its best-effort notifications, the role-scoped listings, update
    and delete. */
module ResultService {
  import opened Common
  import opened Store
  import opened Response

  /** The `grade` enum of src/models/Result.js. */
  const GradeEnum: set<string> := {"A+", "A", "A-", "B+", "B", "B-", "C+", "C", "C-", "D", "F"}

  /** The `semester` enum of src/models/Result.js. */
  const SemesterEnum: set<string> := {"Fall", "Spring", "Summer"}

  const DuplicateResult := "Result already exists for this student and course"
  const ResultNotFound := "Result not found"
  const ValidationFailed := "Result validation failed"

  /** The compound unique index. */
  function Key(r: ResultRecord): (Id, Id, string, int)
  {
    (r.student, r.course, r.semester, r.year)
  }

  /** At most one result per (student, course, semester, year). */
  predicate UniqueKeys(rs: seq<Doc<ResultRecord>>)
  {
    forall i, j :: 0 <= i < j < |rs| ==> Key(rs[i].val) != Key(rs[j].val)
  }

  /** The validators `save()` runs on a new result: marks within [0, 100],
      grade and semester from their enums. */
  predicate ValidRecord(r: ResultRecord)
  {
    0.0 <= r.marks <= 100.0 && r.grade in GradeEnum && r.semester in SemesterEnum
  }

  /** The document `new Result({...})` builds: the given grade as it is,
      `remarks` defaulting to the empty string, unpublished. */
  function NewRecord(student: Id, course: Id, marks: real, grade: string, semester: string,
                     year: int, remarks: Option<string>, now: int): ResultRecord
  {
    ResultRecord(student, course, marks, grade, semester, year,
                 if remarks.Some? then remarks.value else "", false, None, None, now)
  }

  /** `createResult`: refused when a result with the same key exists, then
      refused by the validators, otherwise stored under a fresh id. */
  method CreateResult(db: Db, student: Id, course: Id, marks: real, grade: string, semester: string,
                      year: int, remarks: Option<string>, now: int) returns (r: Result<Id>)
    requires db.Valid() && UniqueKeys(db.results)
    modifies db`results, db`nextId
    ensures db.Valid() && UniqueKeys(db.results)
    ensures r == Err(DuplicateResult) <==>
      exists i :: 0 <= i < |old(db.results)| && Key(old(db.results)[i].val) == (student, course, semester, year)
    ensures r.Ok? <==> (r != Err(DuplicateResult) &&
      ValidRecord(NewRecord(student, course, marks, grade, semester, year, remarks, now)))
    ensures r.Ok? ==> (r.value == old(db.nextId) && db.nextId == old(db.nextId) + 1 &&
      db.results == old(db.results) + [Doc(r.value, NewRecord(student, course, marks, grade, semester, year, remarks, now))])
    ensures r.Err? ==> db.results == old(db.results) && db.nextId == old(db.nextId)
  {
    var existing := FirstIndex(db.results, (d: Doc<ResultRecord>) => Key(d.val) == (student, course, semester, year));
    if existing.Some? {
      return Err(DuplicateResult);
    }
    var rec := NewRecord(student, course, marks, grade, semester, year, remarks, now);
    if !ValidRecord(rec) {
      return Err(ValidationFailed);
    }
    var id := db.InsertResultRecord(rec);
    r := Ok(id);
  }

  /** The `updateMany` of `publishResults`: every listed result becomes
      published at `now` by `publisher`, whatever its previous state. */
  function PublishAll(rs: seq<Doc<ResultRecord>>, ids: set<Id>, publisher: Id, now: int): (r: seq<Doc<ResultRecord>>)
    ensures |r| == |rs|
    ensures forall i :: 0 <= i < |rs| ==> r[i].id == rs[i].id && Key(r[i].val) == Key(rs[i].val)
    ensures forall i :: 0 <= i < |rs| && rs[i].id in ids ==>
      r[i].val.isPublished && r[i].val.publishedAt == Some(now) && r[i].val.publishedBy == Some(publisher) &&
      r[i].val.updatedAt == now
    ensures forall i :: 0 <= i < |rs| && rs[i].id in ids ==>
      r[i].val.(isPublished := false, publishedAt := None, publishedBy := None, updatedAt := 0) ==
      rs[i].val.(isPublished := false, publishedAt := None, publishedBy := None, updatedAt := 0)
    ensures forall i :: 0 <= i < |rs| && rs[i].id !in ids ==> r[i] == rs[i]
  {
    if |rs| == 0 then []
    else
      var d := rs[0];
      var d' := if d.id in ids
        then Doc(d.id, d.val.(isPublished := true, publishedAt := Some(now), publishedBy := Some(publisher), updatedAt := now))
        else d;
      [d'] + PublishAll(rs[1..], ids, publisher, now)
  }

  /** Publishing the same ids again changes nothing. */
  lemma PublishIdempotent(rs: seq<Doc<ResultRecord>>, ids: set<Id>, publisher: Id, now: int)
    ensures PublishAll(PublishAll(rs, ids, publisher, now), ids, publisher, now) == PublishAll(rs, ids, publisher, now)
  {
    var once := PublishAll(rs, ids, publisher, now);
    var twice := PublishAll(once, ids, publisher, now);
    forall i | 0 <= i < |rs| ensures twice[i] == once[i] {
      if rs[i].id in ids {
        assert twice[i].val == once[i].val;
      }
    }
  }

  /** `Result.find({ _id: { $in: resultIds } })`: the listed results in natural order. */
  function Listed(rs: seq<Doc<ResultRecord>>, ids: set<Id>): (r: seq<Doc<ResultRecord>>)
    ensures |r| <= |rs|
    ensures forall d :: d in r <==> d in rs && d.id in ids
  {
    if |rs| == 0 then []
    else if rs[0].id in ids then [rs[0]] + Listed(rs[1..], ids)
    else Listed(rs[1..], ids)
  }

  /** After publishing, every listed result is published. */
  lemma {:induction false} ListedArePublished(rs: seq<Doc<ResultRecord>>, ids: set<Id>, publisher: Id, now: int)
    ensures forall d :: d in Listed(PublishAll(rs, ids, publisher, now), ids) ==>
      d.val.isPublished && d.val.publishedBy == Some(publisher) && d.val.publishedAt == Some(now)
  {
    var p := PublishAll(rs, ids, publisher, now);
    forall d | d in Listed(p, ids)
      ensures d.val.isPublished && d.val.publishedBy == Some(publisher) && d.val.publishedAt == Some(now)
    {
      var i :| 0 <= i < |p| && p[i] == d;
    }
  }

  /** The notification sent for one published result: `None` when its
      student or course no longer exists (the populated field is null and
      reading from it throws inside the `try`). */
  function Notice(users: seq<Doc<User>>, courses: seq<Doc<Course>>, d: Doc<ResultRecord>, now: int): (n: Option<Notification>)
    ensures n.Some? <==> Find(users, d.val.student).Some? && Find(courses, d.val.course).Some?
    ensures n.Some? ==> (n.value.recipient == d.val.student && n.value.kind == "result" &&
      n.value.related == Some(Related("result", d.id)) && !n.value.isRead)
  {
    match (Find(users, d.val.student), Find(courses, d.val.course))
    case (Some(_), Some(c)) =>
      Some(Notification(d.val.student, "Results Published",
                        "Your results for " + courses[c].val.title + " have been published",
                        "result", Some(Related("result", d.id)), false, None, now, now))
    case _ => None
  }

  /** The notifications the loop of `publishResults` stores for the first
      `count` documents of `rs`, in order, numbered from `start`; `failing`
      holds the results whose `Notification.create` the store refuses. */
  function Notices(users: seq<Doc<User>>, courses: seq<Doc<Course>>, rs: seq<Doc<ResultRecord>>, count: nat,
                   failing: set<Id>, start: Id, now: int): (ns: seq<Doc<Notification>>)
    requires count <= |rs|
    ensures |ns| <= count
  {
    if count == 0 then []
    else
      var prev := Notices(users, courses, rs, count - 1, failing, start, now);
      prev + Attempt(users, courses, rs[count - 1], failing, start + |prev|, now)
  }

  /** What one attempt stores: the notice for `d` under id `id`, or nothing. */
  function Attempt(users: seq<Doc<User>>, courses: seq<Doc<Course>>, d: Doc<ResultRecord>,
                   failing: set<Id>, id: Id, now: int): (added: seq<Doc<Notification>>)
    ensures |added| <= 1
    ensures |added| == 1 <==> Notice(users, courses, d, now).Some? && d.id !in failing
    ensures |added| == 1 ==> added[0] == Doc(id, Notice(users, courses, d, now).value)
  {
    var n := Notice(users, courses, d, now);
    if n.Some? && d.id !in failing then [Doc(id, n.value)] else []
  }

  /** Each stored notification is the notice of one of the documents whose
      attempt did not fail. */
  lemma {:induction false} NoticesFromDocs(users: seq<Doc<User>>, courses: seq<Doc<Course>>, rs: seq<Doc<ResultRecord>>,
                                           count: nat, failing: set<Id>, start: Id, now: int)
    requires count <= |rs|
    ensures forall n :: n in Notices(users, courses, rs, count, failing, start, now) ==>
      (exists d :: d in rs && d.id !in failing && Notice(users, courses, d, now) == Some(n.val))
  {
    if count > 0 {
      NoticesFromDocs(users, courses, rs, count - 1, failing, start, now);
      assert rs[count - 1] in rs;
    }
  }

  /** Every notification goes to the student of a listed result and
      points back at it. */
  lemma NoticesReachListedStudents(users: seq<Doc<User>>, courses: seq<Doc<Course>>, rs: seq<Doc<ResultRecord>>,
                                   ids: set<Id>, failing: set<Id>, start: Id, now: int)
    ensures var l := Listed(rs, ids);
      forall n :: n in Notices(users, courses, l, |l|, failing, start, now) ==>
        (exists d :: d in rs && d.id in ids && n.val.recipient == d.val.student &&
          n.val.related == Some(Related("result", d.id)))
  {
    var l := Listed(rs, ids);
    NoticesFromDocs(users, courses, l, |l|, failing, start, now);
  }

  /** The stored notifications take consecutive ids from `start`. */
  lemma {:induction false} NoticesConsecutive(users: seq<Doc<User>>, courses: seq<Doc<Course>>, rs: seq<Doc<ResultRecord>>,
                                              count: nat, failing: set<Id>, start: Id, now: int)
    requires count <= |rs|
    ensures Consecutive(Notices(users, courses, rs, count, failing, start, now), start)
  {
    if count > 0 {
      NoticesConsecutive(users, courses, rs, count - 1, failing, start, now);
      var prev := Notices(users, courses, rs, count - 1, failing, start, now);
      var added := Attempt(users, courses, rs[count - 1], failing, start + |prev|, now);
      var ns := prev + added;
      assert Notices(users, courses, rs, count, failing, start, now) == ns;
      forall i | 0 <= i < |ns| ensures ns[i].id == start + i {
        if i < |prev| { assert ns[i] == prev[i]; } else { assert ns[i] == added[0]; }
      }
    }
  }

  /** The notification loop of `publishResults` starting from the id
      counter `start`: one attempt per document, each stored notification
      taking the next id, a failed attempt skipped without stopping the
      loop. `sent` is what the loop adds to the collection. */
  method NotifyEach(users: seq<Doc<User>>, courses: seq<Doc<Course>>, docs: seq<Doc<ResultRecord>>,
                    failing: set<Id>, now: int, start: Id)
    returns (sent: seq<Doc<Notification>>, next: Id)
    ensures sent == Notices(users, courses, docs, |docs|, failing, start, now)
    ensures next == start + |sent|
  {
    sent, next := [], start;
    var i := 0;
    while i < |docs|
      invariant 0 <= i <= |docs|
      invariant sent == Notices(users, courses, docs, i, failing, start, now)
      invariant next == start + |sent|
    {
      var added := Attempt(users, courses, docs[i], failing, next, now);
      NoticesStep(users, courses, docs, i, failing, start, now);
      sent, next := sent + added, next + |added|;
      i := i + 1;
    }
  }

  /** One more document extends the stored notifications by what its
      attempt stores, under the id after the previous ones. */
  lemma NoticesStep(users: seq<Doc<User>>, courses: seq<Doc<Course>>, rs: seq<Doc<ResultRecord>>, count: nat,
                    failing: set<Id>, start: Id, now: int)
    requires count < |rs|
    ensures var prev := Notices(users, courses, rs, count, failing, start, now);
      Notices(users, courses, rs, count + 1, failing, start, now) ==
      prev + Attempt(users, courses, rs[count], failing, start + |prev|, now)
  {
  }

  /** `publishResults`: publish every listed result, then try one
      notification per listed result. The returned number of matched
      results and the published results do not depend on which
      notifications fail. */
  method PublishResults(db: Db, resultIds: seq<Id>, publishedBy: Id, now: int, failing: set<Id>)
    returns (matched: nat)
    requires db.Valid()
    modifies db`results, db`notifications, db`nextId
    ensures matched == |Listed(old(db.results), (set x | x in resultIds))|
    ensures db.results == PublishAll(old(db.results), (set x | x in resultIds), publishedBy, now)
    ensures var l := Listed(db.results, set x | x in resultIds);
      var ns := Notices(db.users, db.courses, l, |l|, failing, old(db.nextId), now);
      db.notifications == old(db.notifications) + ns && db.nextId == old(db.nextId) + |ns|
    ensures db.Valid()
  {
    var ids := set x | x in resultIds;
    matched := |Listed(db.results, ids)|;
    var published := PublishAll(db.results, ids, publishedBy, now);
    forall i | 0 <= i < |published| ensures published[i].id == db.results[i].id { }
    SameIdsWellKeyed(db.results, published, db.nextId);
    db.SetResults(published);
    NotifyPublished(db, Listed(db.results, ids), failing, now);
  }

  /** The notification half of `publishResults`: one attempt per document
      of `docs`, stored in the notification collection under fresh ids. */
  method NotifyPublished(db: Db, docs: seq<Doc<ResultRecord>>, failing: set<Id>, now: int)
    requires db.Valid()
    modifies db`notifications, db`nextId
    ensures var ns := Notices(db.users, db.courses, docs, |docs|, failing, old(db.nextId), now);
      db.notifications == old(db.notifications) + ns && db.nextId == old(db.nextId) + |ns|
    ensures db.Valid()
  {
    var sent, next := NotifyEach(db.users, db.courses, docs, failing, now, db.nextId);
    NoticesConsecutive(db.users, db.courses, docs, |docs|, failing, db.nextId, now);
    AppendConsecutiveWellKeyed(db.notifications, db.nextId, Notices(db.users, db.courses, docs, |docs|, failing, db.nextId, now));
    db.CommitNotifications(db.notifications + sent, next);
  }

  /** The courses `userId` instructs (`Course.find({ instructor: userId })`). */
  function InstructedBy(courses: seq<Doc<Course>>, userId: Id): (ids: seq<Id>)
    ensures forall c :: c in ids <==> exists i :: 0 <= i < |courses| && courses[i].id == c && courses[i].val.instructor == userId
  {
    if |courses| == 0 then []
    else
      var rest := InstructedBy(courses[1..], userId);
      assert forall i :: 0 <= i < |courses[1..]| ==> courses[1..][i] == courses[i + 1];
      if courses[0].val.instructor == userId then [courses[0].id] + rest else rest
  }

  /** The `filter` `getResults` builds: published, and for a student their
      own, for faculty those of the courses they instruct. */
  predicate Visible(courses: seq<Doc<Course>>, userId: Id, role: Role, r: ResultRecord)
  {
    r.isPublished &&
    match role
    case Student => r.student == userId
    case Faculty => r.course in InstructedBy(courses, userId)
    case Admin => true
  }

  /** The visible results, as `countDocuments(filter)` counts them. */
  function VisibleCount(results: seq<Doc<ResultRecord>>, courses: seq<Doc<Course>>, userId: Id, role: Role): nat
  {
    Count(results, (r: ResultRecord) => Visible(courses, userId, role, r))
  }

  /** `getResults`: one page of the visible results and the pagination
      block. The query fields are the raw `page` and `limit` strings. */
  function GetResults(results: seq<Doc<ResultRecord>>, courses: seq<Doc<Course>>, userId: Id, role: Role,
                      page: Option<string>, limit: Option<string>): (r: Result<(seq<Doc<ResultRecord>>, PageInfo)>)
    ensures var pg := GetPaginationParams(page, limit, 20);
      (r.Err? <==> (pg.page - 1) * pg.limit < 0) &&
      (r.Ok? ==> r.value.1 == PageInfo(VisibleCount(results, courses, userId, role),
                                       PageCount(VisibleCount(results, courses, userId, role), pg.limit),
                                       pg.page, pg.limit))
    ensures r.Ok? ==> forall d :: d in r.value.0 ==> d in results && Visible(courses, userId, role, d.val)
    ensures r.Ok? ==> r.value.1.currentPage >= 1 && r.value.1.limit <= 100 && r.value.1.pages.Some?
  {
    var matching := Select(results, (r: ResultRecord) => Visible(courses, userId, role, r));
    var pg := GetPaginationParams(page, limit, 20);
    LimitNonZero(page, limit, 20);
    match Window(matching, (pg.page - 1) * pg.limit, pg.limit)
    case Err(msg) => Err(msg)
    case Ok(items) =>
      assert forall d :: d in items ==> d in matching;
      Ok((items, PageInfo(|matching|, PageCount(|matching|, pg.limit), pg.page, pg.limit)))
  }

  /** Nobody is shown an unpublished result, a student sees only their own
      and a faculty member only those of a course they instruct. */
  lemma ResultsScopedByRole(results: seq<Doc<ResultRecord>>, courses: seq<Doc<Course>>, userId: Id, role: Role,
                            page: Option<string>, limit: Option<string>, d: Doc<ResultRecord>)
    requires GetResults(results, courses, userId, role, page, limit).Ok?
    requires d in GetResults(results, courses, userId, role, page, limit).value.0
    ensures d.val.isPublished
    ensures role == Student ==> d.val.student == userId
    ensures role == Faculty ==>
      exists i :: 0 <= i < |courses| && courses[i].id == d.val.course && courses[i].val.instructor == userId
  {
  }

  /** `getStudentResults`: a student may ask only for their own results;
      the answer is the published results of `studentId`. */
  function GetStudentResults(results: seq<Doc<ResultRecord>>, studentId: Id, userId: Id, role: Role)
    : (r: Result<seq<Doc<ResultRecord>>>)
    ensures r.Err? <==> role == Student && userId != studentId
    ensures r.Ok? ==> forall d :: d in r.value <==> d in results && d.val.student == studentId && d.val.isPublished
  {
    if role == Student && userId != studentId then Err("Not authorized to view this student's results")
    else Ok(Select(results, (r: ResultRecord) => r.student == studentId && r.isPublished))
  }

  /** The update validators `runValidators` applies to the fields being set. */
  predicate UpdateValid(marks: Option<real>, grade: Option<string>)
  {
    (marks.Some? ==> 0.0 <= marks.value <= 100.0) && (Truthy(grade) ==> grade.value in GradeEnum)
  }

  /** The record after `updateResult`'s update: marks and remarks when given,
      the grade when truthy; an `undefined` field is left as it was. */
  function Amend(r: ResultRecord, marks: Option<real>, grade: Option<string>, remarks: Option<string>, now: int): ResultRecord
  {
    r.(marks := if marks.Some? then marks.value else r.marks,
       grade := if Truthy(grade) then grade.value else r.grade,
       remarks := if remarks.Some? then remarks.value else r.remarks,
       updatedAt := now)
  }

  /** An update never touches the key or the publication state: a published
      result can be changed like any other. */
  lemma AmendKeepsKeyAndPublication(r: ResultRecord, marks: Option<real>, grade: Option<string>,
                                    remarks: Option<string>, now: int)
    ensures Key(Amend(r, marks, grade, remarks, now)) == Key(r)
    ensures Amend(r, marks, grade, remarks, now).isPublished == r.isPublished
    ensures Amend(r, marks, grade, remarks, now).publishedAt == r.publishedAt
    ensures Amend(r, marks, grade, remarks, now).publishedBy == r.publishedBy
  {
  }

  /** Updating with nothing to change only refreshes `updatedAt`. */
  lemma AmendNothing(r: ResultRecord, now: int)
    ensures Amend(r, None, None, None, now) == r.(updatedAt := now)
    ensures Amend(r, None, Some(""), None, now) == r.(updatedAt := now)
  {
  }

  /** `updateResult`: the validators, then `findByIdAndUpdate`. */
  method UpdateResult(db: Db, resultId: Id, marks: Option<real>, grade: Option<string>,
                      remarks: Option<string>, now: int) returns (r: Result<ResultRecord>)
    requires db.Valid()
    modifies db`results
    ensures db.Valid()
    ensures UniqueKeys(old(db.results)) ==> UniqueKeys(db.results)
    ensures r.Ok? <==> UpdateValid(marks, grade) && Find(old(db.results), resultId).Some?
    ensures UpdateValid(marks, grade) && Find(old(db.results), resultId).None? ==> r == Err(ResultNotFound)
    ensures r.Ok? ==> var i := Find(old(db.results), resultId).value;
      r.value == Amend(old(db.results)[i].val, marks, grade, remarks, now) &&
      db.results == old(db.results)[i := Doc(resultId, r.value)]
    ensures r.Err? ==> db.results == old(db.results)
  {
    if !UpdateValid(marks, grade) {
      return Err(ValidationFailed);
    }
    var found := Find(db.results, resultId);
    if found.None? {
      return Err(ResultNotFound);
    }
    var i := found.value;
    var updated := Amend(db.results[i].val, marks, grade, remarks, now);
    AmendKeepsKeyAndPublication(db.results[i].val, marks, grade, remarks, now);
    UpdateWellKeyed(db.results, db.nextId, i, updated);
    db.SetResults(db.results[i := Doc(resultId, updated)]);
    r := Ok(updated);
  }

  /** `deleteResult`: the result is gone afterwards and the others stay. */
  method DeleteResult(db: Db, resultId: Id) returns (r: Result<()>)
    requires db.Valid()
    modifies db`results
    ensures db.Valid()
    ensures UniqueKeys(old(db.results)) ==> UniqueKeys(db.results)
    ensures r.Err? <==> Find(old(db.results), resultId).None?
    ensures r.Err? ==> r == Err(ResultNotFound) && db.results == old(db.results)
    ensures r.Ok? ==> db.results == RemoveAt(old(db.results), Find(old(db.results), resultId).value)
    ensures forall j :: 0 <= j < |db.results| ==> db.results[j].id != resultId
  {
    var found := Find(db.results, resultId);
    if found.None? {
      return Err(ResultNotFound);
    }
    RemoveAtWellKeyed(db.results, db.nextId, found.value);
    db.SetResults(RemoveAt(db.results, found.value));
    r := Ok(());
  }
}
