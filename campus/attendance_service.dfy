/** src/services/attendanceService.js over the `Attendance` collection of
    src/models/Attendance.js: marking with the same-day duplicate check,
    bulk marking, the per-course summary, update and delete. Dates are
    millisecond timestamps; the server's local zone is a fixed `offset`
    (milliseconds ahead of UTC). */
module AttendanceService {
  import opened Common
  import opened Store

  const AlreadyMarked := "Attendance already marked for this date"
  const RecordNotFound := "Attendance record not found"
  const AttendanceInvalid := "Attendance validation failed"

  const MsPerDay := 86400000

  /** Local midnight of the day holding `t` (`setHours(0, 0, 0, 0)`). */
  function DayStart(t: int, offset: int): int
  {
    t - (t + offset) % MsPerDay
  }

  /** Two instants fall on the same local calendar day. */
  predicate SameDay(t1: int, t2: int, offset: int)
  {
    DayStart(t1, offset) == DayStart(t2, offset)
  }

  /** The query window as written: from 00:00:00.000 up to, but not
      including, 23:59:59.999 (`$gte` / `$lt`). */
  predicate InWindowAsWritten(t: int, date: int, offset: int)
  {
    DayStart(date, offset) <= t < DayStart(date, offset) + MsPerDay - 1
  }

  /** The window evidently meant: the whole day, 23:59:59.999 included. */
  predicate InDay(t: int, date: int, offset: int)
  {
    DayStart(date, offset) <= t <= DayStart(date, offset) + MsPerDay - 1
  }

  /** `x % m` is the remainder of any division of `x` by `m` with a remainder in range. */
  lemma ModOfDivision(x: int, q: int, r: int)
    requires x == q * MsPerDay + r && 0 <= r < MsPerDay
    ensures x % MsPerDay == r
  {
  }

  /** The intended window is exactly the local day of `date`. */
  lemma InDayIsSameDay(t: int, date: int, offset: int)
    ensures InDay(t, date, offset) <==> SameDay(t, date, offset)
  {
    var q := (date + offset) / MsPerDay;
    var d := DayStart(date, offset);
    assert date + offset == q * MsPerDay + (date + offset) % MsPerDay;
    assert d == q * MsPerDay - offset;
    if InDay(t, date, offset) {
      ModOfDivision(t + offset, q, t - d);
    }
    if SameDay(t, date, offset) {
      assert 0 <= (t + offset) % MsPerDay < MsPerDay;
    }
  }

  /** At most one record per student, course and local day. */
  predicate OneADay(records: seq<Doc<Attendance>>, offset: int)
  {
    forall i, j :: (0 <= i < j < |records| && records[i].val.student == records[j].val.student &&
                    records[i].val.course == records[j].val.course) ==>
      !SameDay(records[i].val.date, records[j].val.date, offset)
  }

  /** One item of a marking request. */
  datatype Mark = Mark(student: Id, course: Id, date: int, status: string, remarks: Option<string>)

  /** The `status` enum. */
  function ParseStatus(s: string): (r: Option<AttendanceStatus>)
    ensures r.Some? <==> s in {"present", "absent", "late", "excused"}
  {
    if s == "present" then Some(Present)
    else if s == "absent" then Some(Absent)
    else if s == "late" then Some(Late)
    else if s == "excused" then Some(Excused)
    else None
  }

  /** The document `new Attendance({...})` builds; remarks default to the empty string. */
  function NewAttendance(m: Mark, status: AttendanceStatus, recordedBy: Id, now: int): Attendance
  {
    Attendance(m.student, m.course, m.date, status, if m.remarks.Some? then m.remarks.value else "", recordedBy, now)
  }

  /** A record of the same student and course on the day of `date`. */
  predicate Clashes(d: Doc<Attendance>, m: Mark, offset: int)
  {
    d.val.student == m.student && d.val.course == m.course && SameDay(d.val.date, m.date, offset)
  }

  /** What `markAttendance` decides against `records`, with the whole-day
      window: a clash on that day, then the status validator. */
  function MarkOn(records: seq<Doc<Attendance>>, m: Mark, recordedBy: Id, offset: int, now: int): (r: Result<Attendance>)
    ensures r == Err(AlreadyMarked) <==> exists k :: 0 <= k < |records| && Clashes(records[k], m, offset)
    ensures r.Ok? <==> r != Err(AlreadyMarked) && ParseStatus(m.status).Some?
    ensures r.Ok? ==> r.value == NewAttendance(m, ParseStatus(m.status).value, recordedBy, now)
  {
    var existing := FirstInDay(records, m, offset);
    if existing.Some? then Err(AlreadyMarked)
    else match ParseStatus(m.status)
      case None => Err(AttendanceInvalid)
      case Some(s) => Ok(NewAttendance(m, s, recordedBy, now))
  }

  /** `Attendance.findOne` with the whole-day window: the first record of the
      student and course dated within the local day of `m.date`. */
  function FirstInDay(records: seq<Doc<Attendance>>, m: Mark, offset: int): (r: Option<nat>)
    ensures r.Some? ==> r.value < |records| && Clashes(records[r.value], m, offset)
    ensures r.None? ==> forall k :: 0 <= k < |records| ==> !Clashes(records[k], m, offset)
  {
    if |records| == 0 then None
    else
      InDayIsSameDay(records[0].val.date, m.date, offset);
      if records[0].val.student == m.student && records[0].val.course == m.course &&
         InDay(records[0].val.date, m.date, offset)
      then Some(0)
      else match FirstInDay(records[1..], m, offset)
        case None => None
        case Some(k) => Some(k + 1)
  }

  /** A record that `MarkOn` accepts keeps one record per student, course and day. */
  lemma MarkOnKeepsOneADay(records: seq<Doc<Attendance>>, m: Mark, recordedBy: Id, offset: int, now: int, id: Id)
    requires OneADay(records, offset) && MarkOn(records, m, recordedBy, offset, now).Ok?
    ensures OneADay(records + [Doc(id, MarkOn(records, m, recordedBy, offset, now).value)], offset)
  {
    var a := MarkOn(records, m, recordedBy, offset, now).value;
    var rs := records + [Doc(id, a)];
    forall i, j | 0 <= i < j < |rs| && rs[i].val.student == rs[j].val.student && rs[i].val.course == rs[j].val.course
      ensures !SameDay(rs[i].val.date, rs[j].val.date, offset)
    {
      if j == |records| {
        assert rs[i] == records[i] && !Clashes(records[i], m, offset);
      } else {
        assert rs[i] == records[i] && rs[j] == records[j];
      }
    }
  }

  /** `markAttendance` as written: the `$lt` window, then the status
      validator, then the unique (student, course, date) index. */
  function MarkOnAsWritten(records: seq<Doc<Attendance>>, m: Mark, recordedBy: Id, offset: int, now: int)
    : (r: Result<Attendance>)
    ensures r.Ok? <==> (ParseStatus(m.status).Some? &&
      forall k :: 0 <= k < |records| && records[k].val.student == m.student && records[k].val.course == m.course ==>
        !InWindowAsWritten(records[k].val.date, m.date, offset) && records[k].val.date != m.date)
  {
    var existing := FirstIndex(records, (d: Doc<Attendance>) =>
      d.val.student == m.student && d.val.course == m.course && InWindowAsWritten(d.val.date, m.date, offset));
    if existing.Some? then Err(AlreadyMarked)
    else match ParseStatus(m.status)
      case None => Err(AttendanceInvalid)
      case Some(s) =>
        var exact := FirstIndex(records, (d: Doc<Attendance>) =>
          d.val.student == m.student && d.val.course == m.course && d.val.date == m.date);
        if exact.Some? then Err(DuplicateKey) else Ok(NewAttendance(m, s, recordedBy, now))
  }

  /** A record at 23:59:59.999 escapes the query as written: marking the
      same student and course again at midnight of that day is accepted and
      leaves two records for one day, where the whole-day window refuses it. */
  lemma WindowMissesLastMillisecond(student: Id, course: Id, recordedBy: Id, offset: int, now: int, midnight: int)
    requires DayStart(midnight, offset) == midnight
    ensures var late := [Doc(0, Attendance(student, course, midnight + MsPerDay - 1, Present, "", recordedBy, now))];
      var m := Mark(student, course, midnight, "present", None);
      OneADay(late, offset) &&
      MarkOnAsWritten(late, m, recordedBy, offset, now).Ok? &&
      !OneADay(late + [Doc(1, MarkOnAsWritten(late, m, recordedBy, offset, now).value)], offset) &&
      MarkOn(late, m, recordedBy, offset, now) == Err(AlreadyMarked)
  {
    var late := [Doc(0, Attendance(student, course, midnight + MsPerDay - 1, Present, "", recordedBy, now))];
    var m := Mark(student, course, midnight, "present", None);
    InDayIsSameDay(midnight + MsPerDay - 1, midnight, offset);
    assert Clashes(late[0], m, offset);
    assert !InWindowAsWritten(late[0].val.date, m.date, offset);
    var rs := late + [Doc(1, MarkOnAsWritten(late, m, recordedBy, offset, now).value)];
    assert rs[0].val.student == rs[1].val.student && rs[0].val.course == rs[1].val.course;
    assert SameDay(rs[0].val.date, rs[1].val.date, offset);
  }

  /** `markAttendance` (with the whole-day window): refused on a clash or an
      unknown status, otherwise one record appended under a fresh id. */
  method MarkAttendance(db: Db, m: Mark, recordedBy: Id, offset: int, now: int) returns (r: Result<Doc<Attendance>>)
    requires db.Valid()
    modifies db`attendance, db`nextId
    ensures db.Valid()
    ensures OneADay(old(db.attendance), offset) ==> OneADay(db.attendance, offset)
    ensures MarkOn(old(db.attendance), m, recordedBy, offset, now).Err? ==>
      r == Err(MarkOn(old(db.attendance), m, recordedBy, offset, now).msg) &&
      db.attendance == old(db.attendance) && db.nextId == old(db.nextId)
    ensures MarkOn(old(db.attendance), m, recordedBy, offset, now).Ok? ==>
      r == Ok(Doc(old(db.nextId), MarkOn(old(db.attendance), m, recordedBy, offset, now).value)) &&
      db.attendance == old(db.attendance) + [r.value] && db.nextId == old(db.nextId) + 1
  {
    var decision := MarkOn(db.attendance, m, recordedBy, offset, now);
    if decision.Err? {
      return Err(decision.msg);
    }
    if OneADay(db.attendance, offset) {
      MarkOnKeepsOneADay(db.attendance, m, recordedBy, offset, now, db.nextId);
    }
    var id := db.InsertAttendance(decision.value);
    r := Ok(Doc(id, decision.value));
  }

  /** One entry of `bulkMarkAttendance`'s answer. */
  datatype BulkResult = Marked(attendance: Doc<Attendance>) | Failed(student: Id, error: string)

  /** The answer so far, the attendance collection and the id counter. */
  datatype BulkState = BulkState(results: seq<BulkResult>, records: seq<Doc<Attendance>>, next: Id)

  /** One turn of the loop: `markAttendance({ ...record, recordedBy })`, its
      error caught and reported. */
  function BulkStep(s: BulkState, m: Mark, recordedBy: Id, offset: int, now: int): BulkState
  {
    match MarkOn(s.records, m, recordedBy, offset, now)
    case Ok(a) => BulkState(s.results + [Marked(Doc(s.next, a))], s.records + [Doc(s.next, a)], s.next + 1)
    case Err(msg) => BulkState(s.results + [Failed(m.student, msg)], s.records, s.next)
  }

  /** The state after the first `count` items. */
  function Bulk(records: seq<Doc<Attendance>>, next: Id, items: seq<Mark>, count: nat,
                recordedBy: Id, offset: int, now: int): (s: BulkState)
    requires count <= |items|
    ensures |s.results| == count
  {
    if count == 0 then BulkState([], records, next)
    else BulkStep(Bulk(records, next, items, count - 1, recordedBy, offset, now), items[count - 1], recordedBy, offset, now)
  }

  /** Each entry answers its own item: a failure names the item's student,
      a success stores the item's record with the caller as `recordedBy`. */
  lemma {:induction false} BulkAnswersEachItem(records: seq<Doc<Attendance>>, next: Id, items: seq<Mark>, count: nat,
                                               recordedBy: Id, offset: int, now: int)
    requires count <= |items|
    ensures var rs := Bulk(records, next, items, count, recordedBy, offset, now).results;
      forall i :: 0 <= i < count ==>
        (rs[i].Failed? ==> rs[i].student == items[i].student) &&
        (rs[i].Marked? ==> rs[i].attendance.val.student == items[i].student &&
                           rs[i].attendance.val.date == items[i].date &&
                           rs[i].attendance.val.recordedBy == recordedBy)
  {
    if count > 0 {
      BulkAnswersEachItem(records, next, items, count - 1, recordedBy, offset, now);
      var prev := Bulk(records, next, items, count - 1, recordedBy, offset, now);
      var rs := Bulk(records, next, items, count, recordedBy, offset, now).results;
      assert forall i :: 0 <= i < count - 1 ==> rs[i] == prev.results[i];
    }
  }

  /** The loop only appends, under consecutive ids from `next`, records
      with the caller as `recordedBy`. */
  lemma {:induction false} BulkAppends(records: seq<Doc<Attendance>>, next: Id, items: seq<Mark>, count: nat,
                                       recordedBy: Id, offset: int, now: int)
    requires count <= |items|
    ensures var s := Bulk(records, next, items, count, recordedBy, offset, now);
      |records| <= |s.records| && s.next == next + |s.records| - |records| &&
      (forall k :: 0 <= k < |records| ==> s.records[k] == records[k]) &&
      (forall k :: |records| <= k < |s.records| ==>
        s.records[k].id == next + k - |records| && s.records[k].val.recordedBy == recordedBy)
  {
    if count > 0 {
      BulkAppends(records, next, items, count - 1, recordedBy, offset, now);
    }
  }

  /** The loop keeps one record per student, course and day. */
  lemma {:induction false} BulkKeepsOneADay(records: seq<Doc<Attendance>>, next: Id, items: seq<Mark>, count: nat,
                                            recordedBy: Id, offset: int, now: int)
    requires count <= |items| && OneADay(records, offset)
    ensures OneADay(Bulk(records, next, items, count, recordedBy, offset, now).records, offset)
  {
    if count > 0 {
      BulkKeepsOneADay(records, next, items, count - 1, recordedBy, offset, now);
      var prev := Bulk(records, next, items, count - 1, recordedBy, offset, now);
      if MarkOn(prev.records, items[count - 1], recordedBy, offset, now).Ok? {
        MarkOnKeepsOneADay(prev.records, items[count - 1], recordedBy, offset, now, prev.next);
      }
    }
  }

  /** `bulkMarkAttendance`: one answer per item, in order; a failing item
      does not stop the ones after it. */
  method BulkMarkAttendance(db: Db, items: seq<Mark>, recordedBy: Id, offset: int, now: int)
    returns (results: seq<BulkResult>)
    requires db.Valid()
    modifies db`attendance, db`nextId
    ensures db.Valid()
    ensures var s := Bulk(old(db.attendance), old(db.nextId), items, |items|, recordedBy, offset, now);
      results == s.results && db.attendance == s.records && db.nextId == s.next
  {
    var s := BulkState([], db.attendance, db.nextId);
    for i := 0 to |items|
      invariant s == Bulk(db.attendance, db.nextId, items, i, recordedBy, offset, now)
    {
      s := BulkStep(s, items[i], recordedBy, offset, now);
    }
    BulkAppends(db.attendance, db.nextId, items, |items|, recordedBy, offset, now);
    var added := s.records[|db.attendance|..];
    assert Consecutive(added, db.nextId);
    AppendConsecutiveWellKeyed(db.attendance, db.nextId, added);
    assert db.attendance + added == s.records;
    db.CommitAttendance(s.records, s.next);
    results := s.results;
  }

  /** `bulkMarkAttendance` as written: `Attendance` holds the object
      `{ AttendanceModel }` that src/models/attendance.model.js exports, so
      each item's `markAttendance` throws at `Attendance.findOne`. The loop
      catches every error: each item is answered as failed and nothing is
      stored. */
  function BulkAsWritten(items: seq<Mark>): (r: seq<BulkResult>)
    ensures |r| == |items|
    ensures forall k :: 0 <= k < |items| ==> r[k] == Failed(items[k].student, NotAFunction("Attendance", "findOne"))
  {
    if |items| == 0 then []
    else BulkAsWritten(items[..|items| - 1]) + [Failed(items[|items| - 1].student, NotAFunction("Attendance", "findOne"))]
  }

  /** Where the corrected loop stores a mark (an item with a known status,
      nothing recorded yet), the loop as written answers a failure. */
  lemma BulkStoresNothingAsWritten(m: Mark, recordedBy: Id, offset: int, now: int, next: Id)
    requires ParseStatus(m.status).Some?
    ensures Bulk([], next, [m], 1, recordedBy, offset, now).results == [Marked(Doc(next, NewAttendance(m, ParseStatus(m.status).value, recordedBy, now)))]
    ensures BulkAsWritten([m]) == [Failed(m.student, NotAFunction("Attendance", "findOne"))]
  {
    assert MarkOn([], m, recordedBy, offset, now).Ok?;
  }

  /** The per-status counts of `getStudentCourseAttendance`. */
  datatype Summary = Summary(total: nat, present: nat, absent: nat, late: nat, excused: nat, percentage: real)

  function StatusCount(records: seq<Doc<Attendance>>, s: AttendanceStatus): nat
  {
    Count(records, (a: Attendance) => a.status == s)
  }

  /** Every record has exactly one of the four statuses. */
  lemma {:induction false} StatusCountsSum(records: seq<Doc<Attendance>>)
    ensures StatusCount(records, Present) + StatusCount(records, Absent) +
            StatusCount(records, Late) + StatusCount(records, Excused) == |records|
  {
    if |records| > 0 {
      StatusCountsSum(records[1..]);
    }
  }

  /** The share of attended sessions, in percent; 0 when there are none. */
  function Percentage(part: nat, total: nat): (p: real)
    requires part <= total
    ensures 0.0 <= p <= 100.0
    ensures p == 100.0 <==> part == total && total > 0
    ensures total == 0 ==> p == 0.0
  {
    if total == 0 then 0.0
    else
      var q := part as real / total as real;
      assert q * total as real == part as real;
      q * 100.0
  }

  /** The summary of a student's records; excused absences count as attended. */
  function Summarize(recs: seq<Doc<Attendance>>): (s: Summary)
    ensures s.total == |recs| && s.total == s.present + s.absent + s.late + s.excused
    ensures s.present == StatusCount(recs, Present) && s.absent == StatusCount(recs, Absent)
    ensures s.late == StatusCount(recs, Late) && s.excused == StatusCount(recs, Excused)
    ensures s.percentage == Percentage(s.present + s.excused, s.total)
  {
    StatusCountsSum(recs);
    Summary(|recs|, StatusCount(recs, Present), StatusCount(recs, Absent), StatusCount(recs, Late),
            StatusCount(recs, Excused), Percentage(StatusCount(recs, Present) + StatusCount(recs, Excused), |recs|))
  }

  /** `getStudentCourseAttendance`: the student's records in the course and their summary. */
  function GetStudentCourseAttendance(records: seq<Doc<Attendance>>, student: Id, course: Id)
    : (r: (seq<Doc<Attendance>>, Summary))
    ensures forall d :: d in r.0 <==> d in records && d.val.student == student && d.val.course == course
    ensures r.0 == Select(records, (a: Attendance) => a.student == student && a.course == course)
    ensures r.1 == Summarize(r.0)
  {
    var recs := Select(records, (a: Attendance) => a.student == student && a.course == course);
    (recs, Summarize(recs))
  }

  /** The fields `updateAttendance` sets: the status when truthy (and then
      from the enum), the remarks when given. */
  predicate AttendanceUpdateOk(status: Option<string>)
  {
    Truthy(status) ==> ParseStatus(status.value).Some?
  }

  function AmendAttendance(a: Attendance, status: Option<string>, remarks: Option<string>, now: int): Attendance
    requires AttendanceUpdateOk(status)
  {
    a.(status := if Truthy(status) then ParseStatus(status.value).value else a.status,
       remarks := if remarks.Some? then remarks.value else a.remarks,
       updatedAt := now)
  }

  /** An update changes neither who nor when: student, course, date and
      recorder stay. */
  lemma AmendKeepsWhoAndWhen(a: Attendance, status: Option<string>, remarks: Option<string>, now: int)
    requires AttendanceUpdateOk(status)
    ensures var a' := AmendAttendance(a, status, remarks, now);
      a'.student == a.student && a'.course == a.course && a'.date == a.date && a'.recordedBy == a.recordedBy
    ensures !Truthy(status) ==> AmendAttendance(a, status, remarks, now).status == a.status
    ensures remarks.None? ==> AmendAttendance(a, status, remarks, now).remarks == a.remarks
  {
  }

  /** `updateAttendance`: the validators, then `findByIdAndUpdate`. */
  method UpdateAttendance(db: Db, attendanceId: Id, status: Option<string>, remarks: Option<string>, now: int)
    returns (r: Result<Attendance>)
    requires db.Valid()
    modifies db`attendance
    ensures db.Valid()
    ensures forall offset :: OneADay(old(db.attendance), offset) ==> OneADay(db.attendance, offset)
    ensures r.Ok? <==> AttendanceUpdateOk(status) && Find(old(db.attendance), attendanceId).Some?
    ensures r == Err(RecordNotFound) <==> AttendanceUpdateOk(status) && Find(old(db.attendance), attendanceId).None?
    ensures r.Ok? ==> var i := Find(old(db.attendance), attendanceId).value;
      r.value == AmendAttendance(old(db.attendance)[i].val, status, remarks, now) &&
      db.attendance == old(db.attendance)[i := Doc(attendanceId, r.value)]
    ensures r.Err? ==> db.attendance == old(db.attendance)
  {
    if !AttendanceUpdateOk(status) {
      return Err(AttendanceInvalid);
    }
    var found := Find(db.attendance, attendanceId);
    if found.None? {
      return Err(RecordNotFound);
    }
    var i := found.value;
    var a := AmendAttendance(db.attendance[i].val, status, remarks, now);
    UpdateWellKeyed(db.attendance, db.nextId, i, a);
    db.SetAttendance(db.attendance[i := Doc(attendanceId, a)]);
    r := Ok(a);
  }

  /** `deleteAttendance`: the record is gone and the others stay. */
  method DeleteAttendance(db: Db, attendanceId: Id) returns (r: Result<()>)
    requires db.Valid()
    modifies db`attendance
    ensures db.Valid()
    ensures r.Err? <==> Find(old(db.attendance), attendanceId).None?
    ensures r.Err? ==> r == Err(RecordNotFound) && db.attendance == old(db.attendance)
    ensures r.Ok? ==> db.attendance == RemoveAt(old(db.attendance), Find(old(db.attendance), attendanceId).value)
    ensures forall j :: 0 <= j < |db.attendance| ==> db.attendance[j].id != attendanceId
  {
    var found := Find(db.attendance, attendanceId);
    if found.None? {
      return Err(RecordNotFound);
    }
    RemoveAtWellKeyed(db.attendance, db.nextId, found.value);
    db.SetAttendance(RemoveAt(db.attendance, found.value));
    r := Ok(());
  }
}
