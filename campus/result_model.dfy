/** The result document of src/models/result.model.js: the semester and
    grade enums, the marks bounds, the unique (student, course, semester,
    year) index and the pre-save hook that derives the grade from the marks. */
module ResultModel {
  import opened Common

  datatype Semester = Spring | Summer | Fall | Winter

  /** The semester enum: `['spring', 'summer', 'fall', 'winter']`. */
  function ParseSemester(s: string): (r: Option<Semester>)
    ensures r.Some? <==> s in ["spring", "summer", "fall", "winter"]
  {
    if s == "spring" then Some(Spring)
    else if s == "summer" then Some(Summer)
    else if s == "fall" then Some(Fall)
    else if s == "winter" then Some(Winter)
    else None
  }

  /** The grade enum `['A', 'B', 'C', 'D', 'F', 'N/A']`. */
  datatype Grade = A | B | C | D | F | NA

  /** The hook's threshold chain. */
  function GradeFor(marks: real): (g: Grade)
    ensures g != NA
  {
    if marks >= 90.0 then A
    else if marks >= 80.0 then B
    else if marks >= 70.0 then C
    else if marks >= 60.0 then D
    else F
  }

  /** Position of a letter grade, F lowest. */
  function Rank(g: Grade): nat
  {
    match g
    case F => 0
    case D => 1
    case C => 2
    case B => 3
    case A => 4
    case NA => 0
  }

  /** Each letter covers exactly its band of marks. */
  lemma GradeBands(m: real)
    ensures GradeFor(m) == A <==> m >= 90.0
    ensures GradeFor(m) == B <==> 80.0 <= m < 90.0
    ensures GradeFor(m) == C <==> 70.0 <= m < 80.0
    ensures GradeFor(m) == D <==> 60.0 <= m < 70.0
    ensures GradeFor(m) == F <==> m < 60.0
  {
  }

  /** More marks never give a lower grade. */
  lemma GradeMonotone(m1: real, m2: real)
    requires m1 <= m2
    ensures Rank(GradeFor(m1)) <= Rank(GradeFor(m2))
  {
  }

  /** The boundaries: 90 is an A, 80 a B, 70 a C, 60 a D, 50 an F; 85 is a
      B and 75 a C. */
  lemma GradeBoundaries()
    ensures GradeFor(90.0) == A && GradeFor(80.0) == B && GradeFor(70.0) == C
    ensures GradeFor(60.0) == D && GradeFor(50.0) == F
    ensures GradeFor(85.0) == B && GradeFor(75.0) == C && GradeFor(89.9) == B
  {
  }

  /** The grade enum as text. */
  function ParseGrade(s: string): (r: Option<Grade>)
    ensures r.Some? <==> s in ["A", "B", "C", "D", "F", "N/A"]
  {
    if s == "A" then Some(A)
    else if s == "B" then Some(B)
    else if s == "C" then Some(C)
    else if s == "D" then Some(D)
    else if s == "F" then Some(F)
    else if s == "N/A" then Some(NA)
    else None
  }

  /** The text a grade is stored as. */
  function GradeName(g: Grade): (s: string)
    ensures ParseGrade(s) == Some(g)
  {
    match g
    case A => "A" case B => "B" case C => "C" case D => "D" case F => "F" case NA => "N/A"
  }

  /** A stored result document, with the `createdAt` and `updatedAt` of the
      schema's `timestamps`. */
  datatype GradedResult = GradedResult(
    student: Id, course: Id, semester: Semester, year: int, marks: real, grade: Grade,
    isPublished: bool, publishedAt: Option<int>, remarks: Option<string>,
    createdAt: int, updatedAt: int)

  /** The unique index key. */
  function Key(r: GradedResult): (Id, Id, Semester, int)
  {
    (r.student, r.course, r.semester, r.year)
  }

  /** At most one result per (student, course, semester, year). */
  predicate UniqueKeys(store: seq<Doc<GradedResult>>)
  {
    forall i, j :: 0 <= i < j < |store| ==> Key(store[i].val) != Key(store[j].val)
  }

  /** Whether a document other than `id` already holds `key`. */
  predicate KeyTaken(store: seq<Doc<GradedResult>>, id: Id, key: (Id, Id, Semester, int))
  {
    exists i :: 0 <= i < |store| && store[i].id != id && Key(store[i].val) == key
  }

  /** The `trim: true` setter of `remarks`. */
  function TrimRemarks(remarks: Option<string>): (r: Option<string>)
    ensures r.Some? <==> remarks.Some?
    ensures r.Some? ==> r.value == Trim(remarks.value)
  {
    match remarks
    case None => None
    case Some(t) => Some(Trim(t))
  }

  /** The semester as stored text. */
  function SemesterName(s: Semester): (t: string)
    ensures ParseSemester(t) == Some(s)
  {
    match s
    case Spring => "spring" case Summer => "summer" case Fall => "fall" case Winter => "winter"
  }

  /** A result document in memory, before `save()`. `grade` holds the text
      given or defaulted, checked against the enum only when saving;
      `marksModified` is Mongoose's `isModified('marks')`, and a new document
      counts its marks as modified; `isNew` is Mongoose's flag of a document
      never saved, whose timestamps are still unset. */
  class ResultDocument {
    var id: Id
    var student: Id
    var course: Id
    var semester: string
    var year: int
    var marks: real
    var grade: string
    var isPublished: bool
    var publishedAt: Option<int>
    var remarks: Option<string>
    var marksModified: bool
    var isNew: bool
    var createdAt: int
    var updatedAt: int

    /** `new ResultModel({...})` under the fresh id `id`: unpublished, no
        publication date, the grade given or the default `N/A`, the remarks
        trimmed by their setter. */
    constructor (id: Id, student: Id, course: Id, semester: string, year: int, marks: real,
                 grade: Option<string>, remarks: Option<string>)
      ensures this.id == id && this.student == student && this.course == course
      ensures this.semester == semester && this.year == year && this.marks == marks
      ensures this.grade == (if grade.Some? then grade.value else "N/A")
      ensures this.remarks == TrimRemarks(remarks)
      ensures !isPublished && publishedAt.None? && marksModified && isNew
    {
      this.id := id;
      this.student := student;
      this.course := course;
      this.semester := semester;
      this.year := year;
      this.marks := marks;
      this.grade := if grade.Some? then grade.value else "N/A";
      this.remarks := TrimRemarks(remarks);
      isPublished := false;
      publishedAt := None;
      marksModified := true;
      isNew := true;
      createdAt := 0;
      updatedAt := 0;
    }

    /** A stored document loaded for modification; setters do not run. */
    constructor Load(d: Doc<GradedResult>)
      ensures id == d.id && student == d.val.student && course == d.val.course
      ensures ParseSemester(semester) == Some(d.val.semester)
      ensures year == d.val.year && marks == d.val.marks && ParseGrade(grade) == Some(d.val.grade)
      ensures remarks == d.val.remarks
      ensures isPublished == d.val.isPublished && publishedAt == d.val.publishedAt && !marksModified
      ensures createdAt == d.val.createdAt && updatedAt == d.val.updatedAt && !isNew
    {
      id := d.id;
      student := d.val.student;
      course := d.val.course;
      semester := SemesterName(d.val.semester);
      year := d.val.year;
      marks := d.val.marks;
      grade := GradeName(d.val.grade);
      remarks := d.val.remarks;
      isPublished := d.val.isPublished;
      publishedAt := d.val.publishedAt;
      marksModified := false;
      isNew := false;
      createdAt := d.val.createdAt;
      updatedAt := d.val.updatedAt;
    }

    /** Assigning `doc.marks`: the path becomes modified only when the value
        changes. */
    method SetMarks(m: real)
      modifies this`marks, this`marksModified
      ensures marks == m
      ensures marksModified <==> old(marksModified) || m != old(marks)
    {
      if m != marks {
        marksModified := true;
      }
      marks := m;
    }

    /** The pre-save hook: the grade follows the marks when they changed. */
    method GradeHook()
      modifies this`grade
      ensures marksModified ==> grade == GradeName(GradeFor(marks))
      ensures !marksModified ==> grade == old(grade)
    {
      if marksModified {
        grade := GradeName(GradeFor(marks));
      }
    }

    /** The `timestamps` of `save()` at `now`: a new document gets both
        dates, a modified one a new `updatedAt`, an unchanged one neither. */
    method Stamp(now: int)
      modifies this`createdAt, this`updatedAt
      ensures createdAt == if isNew then now else old(createdAt)
      ensures updatedAt == if isNew || marksModified then now else old(updatedAt)
    {
      if isNew {
        createdAt := now;
      }
      if isNew || marksModified {
        updatedAt := now;
      }
    }

    /** `save()` into `store` at `now`: the validators (semester and grade
        enums, marks within [0, 100]) run first, then the hook and the
        timestamps, then the unique index, against every document other
        than this one. The saved record is returned; the document itself
        keeps its new grade and dates. */
    method Save(store: seq<Doc<GradedResult>>, now: int) returns (r: Result<GradedResult>)
      modifies this`grade, this`marksModified, this`isNew, this`createdAt, this`updatedAt
      ensures r.Ok? <==>
        ParseSemester(semester).Some? && ParseGrade(old(grade)).Some? && 0.0 <= marks <= 100.0 &&
        !KeyTaken(store, id, (student, course, ParseSemester(semester).value, year))
      ensures r.Ok? ==> (ParseGrade(grade).Some? &&
                         r.value == GradedResult(student, course, ParseSemester(semester).value, year, marks,
                                                 ParseGrade(grade).value, isPublished, publishedAt, remarks,
                                                 createdAt, updatedAt))
      ensures r.Ok? && old(marksModified) ==> r.value.grade == GradeFor(marks)
      ensures r.Ok? && !old(marksModified) ==> Some(r.value.grade) == ParseGrade(old(grade))
      ensures r.Ok? ==> r.value.createdAt == (if old(isNew) then now else old(createdAt))
      ensures r.Ok? ==> r.value.updatedAt == (if old(isNew) || old(marksModified) then now else old(updatedAt))
      ensures r.Ok? ==> !isNew && !marksModified
    {
      var sem := ParseSemester(semester);
      if sem.None? || ParseGrade(grade).None? || marks < 0.0 || marks > 100.0 {
        return Err("Result validation failed");
      }
      GradeHook();
      Stamp(now);
      var g := ParseGrade(grade);
      var rec := GradedResult(student, course, sem.value, year, marks, g.value, isPublished, publishedAt, remarks,
                              createdAt, updatedAt);
      var self := id;
      var clash := FirstIndex(store, (d: Doc<GradedResult>) => d.id != self && Key(d.val) == Key(rec));
      if clash.Some? {
        return Err("E11000 duplicate key error");
      }
      marksModified := false;
      isNew := false;
      r := Ok(rec);
    }
  }

  /** A new result saves with the letter its marks earn, unpublished,
      created and updated at `now`, and appending it keeps the unique index;
      a grade outside the enum is refused even though the hook would replace
      it. */
  method SaveNew(store: seq<Doc<GradedResult>>, id: Id, student: Id, course: Id, semester: string,
                 year: int, marks: real, grade: Option<string>, remarks: Option<string>, now: int)
    returns (r: Result<GradedResult>)
    requires UniqueKeys(store)
    requires forall i :: 0 <= i < |store| ==> store[i].id != id
    ensures r.Ok? ==> r.value.grade == GradeFor(marks) && !r.value.isPublished && r.value.publishedAt.None?
    ensures r.Ok? ==> r.value.remarks == TrimRemarks(remarks)
    ensures r.Ok? ==> r.value.createdAt == now && r.value.updatedAt == now
    ensures r.Ok? ==> UniqueKeys(store + [Doc(id, r.value)])
    ensures r.Err? <==> (ParseSemester(semester).None? || marks < 0.0 || marks > 100.0 ||
      (grade.Some? && ParseGrade(grade.value).None?) ||
      exists i :: 0 <= i < |store| && Key(store[i].val) == (student, course, ParseSemester(semester).value, year))
  {
    var doc := new ResultDocument(id, student, course, semester, year, marks, grade, remarks);
    r := doc.Save(store, now);
  }

  /** Re-saving a stored result whose fields are valid succeeds and changes
      nothing, not even `updatedAt`: its own stored copy does not count
      against the unique index, and no path is modified. */
  method Resave(store: seq<Doc<GradedResult>>, k: nat, now: int) returns (r: Result<GradedResult>)
    requires UniqueKeys(store) && k < |store|
    requires forall i :: 0 <= i < |store| && i != k ==> store[i].id != store[k].id
    requires 0.0 <= store[k].val.marks <= 100.0
    ensures r == Ok(store[k].val)
  {
    var doc := new ResultDocument.Load(store[k]);
    r := doc.Save(store, now);
  }

  /** Loading a stored result, assigning its marks and saving it at `now`:
      the grade is recomputed and `updatedAt` moves only when the marks
      really changed, and the record keeps its key, so the index stays
      unique. */
  method ChangeMarks(store: seq<Doc<GradedResult>>, k: nat, m: real, now: int) returns (r: Result<GradedResult>)
    requires UniqueKeys(store) && k < |store|
    requires forall i :: 0 <= i < |store| && i != k ==> store[i].id != store[k].id
    ensures r.Ok? <==> 0.0 <= m <= 100.0
    ensures r.Ok? ==> r.value == store[k].val.(marks := m,
      grade := if m != store[k].val.marks then GradeFor(m) else store[k].val.grade,
      updatedAt := if m != store[k].val.marks then now else store[k].val.updatedAt)
    ensures r.Ok? ==> UniqueKeys(store[k := Doc(store[k].id, r.value)])
  {
    var doc := new ResultDocument.Load(store[k]);
    doc.SetMarks(m);
    r := doc.Save(store, now);
  }
}
