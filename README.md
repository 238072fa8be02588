# Campus portal rule layer in Dafny

This project models the rule layer of the campus portal API (a Node.js and
Mongoose service). That layer is the role tables and request guards that
decide who may act, and the service functions that read, check and update the
shared collections: courses and their rosters, events and registrations,
results and their publication, attendance, announcements, enrollments, the
notification inbox, users and API keys, and course materials.

The MongoDB store is one `Store.Db` object with one sequence of documents per
collection, in natural (insertion) order. Ids come from a counter, so every
stored id is below it and no two documents share one. A service function that
writes becomes a method over that object. Its `ensures` give the new state of
every collection it may change: an update in place becomes `s[i := d]`, an
insert becomes `s + [d]`, and a delete becomes `RemoveAt(s, i)`. Rules that
only compute a value are functions. The invariants the services keep are
predicates with lemmas that prove they are preserved:
- rosters and registrations within capacity and without duplicates;
- unique keys for results, course codes and API keys;
- one attendance record per student, course and day;
- API-key hashes consistent with the keys.

Modules, one per source file:

- `Common`: options and results, JSON values, roles, document lookup, counting and the string setters (`trim`, `lowercase`, `uppercase`).
- `Store`: the documents and the database class, with fan-out of notifications and ordered bulk inserts.
- `Rbac`: `src/utils/rbac.js`, the permission table, the route table and the path matcher.
- `AuthMiddleware`: `src/middleware/auth.js`.
- `Response`: `src/utils/responseHandler.js`, the envelope, `parseInt`, the pagination clamp, `Math.ceil` page counts and the `.skip().limit()` window.
- `ResultModel`: `src/models/result.model.js`, the grade hook, the validators and the unique key, as a document class.
- `ApiKeyModel`: `src/models/ApiKey.js`, key verification and the hashing hook, as a document class.
- The services, one module each: `CourseService`, `EventService`, `ResultService`, `AttendanceService`, `AnnouncementService`, `EnrollmentService`, `NotificationService`, `AuthService`, `AdminService` and `MaterialService`.

Throughout, a Mongoose `findById` is `Find`, a `findOne` is the first
matching document, and `find(filter)` is `Select`. A thrown `Error` is an `Err`
carrying the source's message. The clock (`now`), the local time-zone offset,
generated keys, JWT verification and the failures of best-effort notification
inserts are parameters.

## Model

| member | source | states |
|---|---|---|
| Common.ParseRole | src/models/User.js:36-41 | a string is accepted only as the name of the role it yields |
| Common.ParseRoleName | src/models/User.js:38 | each of `student`, `faculty` and `admin` is accepted as its role, so with the above exactly the three names parse |
| Common.FirstIndex | src/services/courseService.js:201-205 | `findOne`: the first document that matches, none exactly when none matches |
| Common.Find | src/services/courseService.js:138 | `findById`: a document with that id, none exactly when no document has it |
| Common.Select | src/services/courseService.js:89 | `find(filter)`: exactly the stored documents that match, as many as `countDocuments` reports |
| Common.SelectAllowed | src/services/courseService.js:96-103 | the `allowedFields` loop keeps exactly the given fields that are on the list, with their values |
| Common.RemoveAll | src/services/courseService.js:193 | `$pull`: every occurrence of the value goes, and every other value keeps its number of occurrences |
| Common.RemoveAllNoDup | src/services/courseService.js:193 | pulling from a list without duplicates leaves one without duplicates |
| Common.RemoveAllIdempotent | src/services/courseService.js:193 | pulling the same value twice is pulling it once |
| Common.ToLower | src/services/authService.js:13 | `toLowerCase()` on ASCII letters: each of `A`–`Z` becomes its lower-case letter, every other character is kept, and so is the length |
| Common.ToLowerIdempotent | src/services/authService.js:13-22 | lower-casing twice is lower-casing once, so the stored email matches the lower-cased query |
| Common.Trim | src/models/User.js:6-20 | the `trim` setter: no whitespace left at either end |
| Common.TrimKeepsMiddle | src/models/User.js:6-20 | `trim` keeps one contiguous stretch of the input and removes only whitespace on either side of it |
| Common.TrimStartDropsSpace | src/models/User.js:6-20 | trimming the start removes a prefix made only of whitespace |
| Common.TrimEndDropsSpace | src/models/User.js:6-20 | trimming the end removes a suffix made only of whitespace |
| Common.ToUpper | src/models/Course.js:9 | the `uppercase` setter on ASCII letters: each of `a`–`z` becomes its upper-case letter, every other character is kept, and so is the length |
| Rbac.UnknownRoleHasNoPermission | src/utils/rbac.js:68-70 | a role with no `PERMISSIONS` entry is refused every resource and action |
| Rbac.AdminPermissions | src/utils/rbac.js:16-20 | admin is granted any resource exactly for `read`, `write` and `delete`; any other action fails the lookup at line 73 before the admin shortcut at line 76 |
| Rbac.NonAdminPermission | src/utils/rbac.js:68-79 | for a known role other than admin, permission holds exactly when the resource or `'*'` is in that role's list for the action |
| Rbac.HasPermission | src/utils/rbac.js:68-80 | only a known role and a `read`, `write` or `delete` action can be granted; admin is granted exactly those three actions, whatever the resource |
| Rbac.CanAccessRouteIn | src/utils/rbac.js:85-102 | over any table, access is granted only by an entry whose key is the route, or whose method is the request's and whose pattern matches the path, and which lists the role or `'public'` |
| Rbac.CanAccessRoute | src/utils/rbac.js:85-102 | over `ROUTE_ROLES`, access is granted only by an entry for the request that lists the role or `'public'` |
| Rbac.StudentDeletesNothing | src/utils/rbac.js:6-10 | `hasPermission('student', r, 'delete')` is false for every resource |
| Rbac.FacultyWriteAndDelete | src/utils/rbac.js:11-15 | faculty may delete only `own_materials` and write only announcements, materials and their own profile |
| Rbac.RouteDecision | src/utils/rbac.js:85-102 | over any table: an exact key admits the role or `'public'`; otherwise the first entry with the same method and a matching pattern decides, without honouring `'public'`; with no match the answer is false |
| Rbac.ExactEntry | src/utils/rbac.js:89-92 | the `ROUTE_ROLES["<METHOD> <path>"]` lookup: the entry whose key is the route, none exactly when no key equals it |
| Rbac.PatternEntry | src/utils/rbac.js:94-99 | the pattern loop: the first entry with the same method whose pattern matches the path, none exactly when none does |
| Rbac.AuthEntryPointsArePublic | src/utils/rbac.js:29-30 | `POST /auth/login` and `POST /auth/register` admit every role string, known or not |
| Rbac.CourseCreationIsAdminOnly | src/utils/rbac.js:48 | `POST /courses` admits admin and refuses student and faculty |
| Rbac.MaterialsRoutesByPattern | src/utils/rbac.js:53-54 | a concrete materials path (a course id without `/` or `:`) has no exact key; listing admits the three known roles and posting admits only faculty and admin |
| Rbac.MaterialsRouteEntry | src/utils/rbac.js:94-99 | a materials path falls through the exact lookup to the materials entry, whose role list decides |
| Rbac.NoEarlierMatch | src/utils/rbac.js:27-52 | no GET or POST entry listed before the materials entries matches a materials path |
| Rbac.ResultsPatternMissesMaterials | src/utils/rbac.js:41 | `/results/:studentId` does not match a materials path |
| Rbac.EarlierGetAndPostEntries | src/utils/rbac.js:29-50 | before the materials entries, every GET or POST pattern is a literal or `/results/:studentId` |
| Rbac.NoExactMaterialsKey | src/utils/rbac.js:89 | no `ROUTE_ROLES` key equals a method and a concrete materials path |
| Rbac.KeysShortOrParametric | src/utils/rbac.js:27-63 | every route key is shorter than 24 characters or contains a parameter |
| Rbac.MaterialsPathMatch | src/utils/rbac.js:107-112 | `/courses/:courseId/materials` matches `/courses/<id>/materials` exactly when the id is non-empty and has no `/` |
| Rbac.MatchPath | src/utils/rbac.js:107-112 | a path that matches a pattern has as many `/` as the pattern, so `[^/]+` never spans two segments |
| Rbac.OneParamPattern | src/utils/rbac.js:107-112 | a pattern with one `:name` segment between literals matches exactly the paths that put a non-empty, `/`-free segment there |
| Rbac.Run | src/utils/rbac.js:110 | the length of the leading run of non-`/` characters that `[^/]+` consumes |
| Rbac.LiteralPatternMatchesExactly | src/utils/rbac.js:107-112 | a pattern without `:` matches exactly itself (the match is anchored at both ends) |
| Rbac.LiteralPrefix | src/utils/rbac.js:109-111 | a literal prefix is matched character by character |
| Rbac.ParamStep | src/utils/rbac.js:110 | a `:name` segment consumes the whole leading run of non-`/` characters, which must be non-empty |
| Rbac.ParamMatchesOneSegment | src/utils/rbac.js:110-111 | a `:name` segment matches exactly one non-empty run of non-`/` characters followed by the rest of the pattern |
| AuthMiddleware.UntilSpace | src/middleware/auth.js:16 | the text before the first space, with no space inside it |
| AuthMiddleware.BearerToken | src/middleware/auth.js:15-16 | a token exactly when the header starts with `Bearer `; the token is the second space-separated part (section 2.1 of RFC 6750) |
| AuthMiddleware.Decide | src/middleware/auth.js:8-65 | 401 "No authentication credentials provided" exactly when there is neither a Bearer header nor a truthy `x-api-key`; a success by `jwt` has a Bearer token that verifies to an active user; a success by API key has no Bearer header and a key that verifies, and admits that key's active owner |
| AuthMiddleware.DecideOptional | src/middleware/auth.js:70-100 | any attached user is active; by `jwt` the Bearer token verifies to that user; by API key there is no Bearer header and the key verifies and belongs to that user |
| AuthMiddleware.DecideAsWritten | src/middleware/auth.js:1-29 | as written, with `User` bound at line 1: every request with a Bearer header is refused with 401 "Invalid JWT token"; without one, the decision is the intended one |
| AuthMiddleware.DecideOptionalAsWritten | src/middleware/auth.js:75-87 | as written, with `User` bound at line 1: a Bearer header never attaches a user; without one, the outcome is the intended one |
| AuthMiddleware.JwtRefusedAsWritten | src/middleware/auth.js:1-29 | a valid token of an active user is let through by the intended binding and refused as written, by both `authenticate` and `optionalAuth` |
| AuthMiddleware.Authenticate | src/middleware/auth.js:8-65 | the outcome is the decision over the stored users and keys; when an API key admits the request, only that key changes, to `Used`: `lastUsedAt` is now, and `updatedAt` too unless the date was already now; otherwise no key changes |
| AuthMiddleware.OptionalAgreesWithAuthenticate | src/middleware/auth.js:70-110 | `optionalAuth` attaches exactly the user `authenticate` lets through, and attaches nobody where `authenticate` would answer with an error |
| AuthMiddleware.OptionalAuth | src/middleware/auth.js:70-110 | always proceeds with at most an attached user, never an error; only when it attached a key's owner does that key change, to `Used`; otherwise no key changes |
| AuthMiddleware.ProceedOnlyForActiveUsers | src/middleware/auth.js:21-44 | whoever is let through is a stored, active user, and every refusal is a 401 |
| AuthMiddleware.BearerTakesPrecedence | src/middleware/auth.js:15-30 | with a Bearer header the decision does not depend on the `x-api-key` header, and a success is by `jwt` |
| AuthMiddleware.NoCredentialsRejected | src/middleware/auth.js:56-58 | with neither credential the answer is 401 "No authentication credentials provided" |
| AuthMiddleware.RevokedKeyNeverAuthenticates | src/middleware/auth.js:34-48 | a deactivated key never lets its owner through by way of that key |
| AuthMiddleware.CheckRole | src/middleware/auth.js:115-125 | 401 without a user, 403 when the role is not allowed, otherwise pass |
| AuthMiddleware.CheckOwnershipOrAdmin | src/middleware/auth.js:130-142 | 401 without a user; 403 exactly when the user is neither the target nor an admin |
| Response.SendResponse | src/utils/responseHandler.js:6-14 | the envelope carries the given status, flag, message and data, and an `error` key exactly when a truthy error was given |
| Response.SendSuccess | src/utils/responseHandler.js:19-21 | a success envelope with the data and no `error` key |
| Response.SendError | src/utils/responseHandler.js:26-28 | a failure envelope with `data: null`, and an `error` key only for a truthy error |
| Response.EnvelopeDefaults | src/utils/responseHandler.js:19-26 | `sendSuccess` defaults to 200 "Success" and `sendError` to 400 with no `error` key |
| Response.LeadingDigits | src/utils/responseHandler.js:58-59 | the longest prefix of decimal digits that `parseInt(_, 10)` reads |
| Response.ParseInt | src/utils/responseHandler.js:58-59 | `parseInt(s, 10)` is a number exactly when a digit follows the leading blanks and an optional sign |
| Response.Show | src/utils/responseHandler.js:58-59 | the decimal rendering of a number is a non-empty string of digits |
| Response.ShowValue | src/utils/responseHandler.js:58-59 | the digits of a number denote that number |
| Response.AllDigitsLeading | src/utils/responseHandler.js:58-59 | a string made only of digits is read whole |
| Response.ParseIntShow | src/utils/responseHandler.js:58-59 | `parseInt` reads back a printed number, with or without a minus sign |
| Response.ParseIntStopsAtNonDigit | src/utils/responseHandler.js:58-59 | `parseInt` stops at the first character that is not a digit |
| Response.LeadingDigitsOfConcat | src/utils/responseHandler.js:58-59 | the leading digits of digits followed by a non-digit are those digits |
| Response.GetPaginationParams | src/utils/responseHandler.js:57-63 | the page is at least 1, the limit at most 100, and skip = (page − 1) × limit |
| Response.CeilDiv | src/utils/responseHandler.js:60 | `Math.ceil(a / b)` for both signs of the divisor, stated by its bracketing inequalities |
| Response.PageCount | src/services/enrollmentService.js:24 | `Math.ceil(total / limit)` is a number exactly when the limit is not 0, and with a positive limit it is the least page count that covers the total |
| Response.LimitNonZero | src/utils/responseHandler.js:59 | a zero limit falls back to the default, so the limit is never 0 when the default is not |
| Response.PageClamp | src/utils/responseHandler.js:58 | a positive page is kept; a missing, 0, negative or non-numeric page becomes 1 |
| Response.LimitClamp | src/utils/responseHandler.js:59 | a non-zero numeric limit is capped at 100 and otherwise kept; a missing, 0 or non-numeric one becomes the default, also capped |
| Response.NegativeLimitPassesThrough | src/utils/responseHandler.js:59-60 | a negative numeric limit is kept unchanged, and from page 2 on the skip is then negative |
| Response.SkipNonNegative | src/utils/responseHandler.js:60 | the skip is non-negative whenever the limit is |
| Response.Window | src/services/enrollmentService.js:12-14 | `.skip(s).limit(l)`: refused for a negative skip; otherwise the elements from `s` on, in order, at most `|l|` of them, all of them when `l` is 0 |
| Response.PagesCoverListing | src/services/enrollmentService.js:9-24 | with a positive limit, item `i` lies on page `i / limit + 1`, which is between 1 and the page count: the pages reach every item |
| ResultModel.ParseSemester | src/models/result.model.js:15-19 | exactly the four semester names are accepted |
| ResultModel.GradeBands | src/models/result.model.js:60-64 | A for marks ≥ 90, B for [80, 90), C for [70, 80), D for [60, 70), F below 60 |
| ResultModel.GradeMonotone | src/models/result.model.js:60-64 | the grade never drops when the marks rise |
| ResultModel.GradeBoundaries | src/models/result.model.js:60-64 | 90→A, 80→B, 70→C, 60→D, 50→F, and 85→B and 75→C |
| ResultModel.ParseGrade | src/models/result.model.js:30-34 | exactly the six grade names of the enum are accepted |
| ResultModel.GradeName | src/models/result.model.js:30-34 | a grade is stored as the name the enum parses back to it |
| ResultModel.SemesterName | src/models/result.model.js:15-19 | a semester is stored as the name the enum parses back to it |
| ResultModel.TrimRemarks | src/models/result.model.js:43-46 | the `trim` setter: given remarks are trimmed, absent ones stay absent |
| ResultModel.ResultDocument.constructor | src/models/result.model.js:24-46 | a new document under a fresh id: the given fields, the given grade or the default `N/A`, remarks trimmed, unpublished, no `publishedAt`, new, marks counted as modified |
| ResultModel.ResultDocument.Load | src/models/result.model.js:5-48 | a loaded document carries the stored id, fields and timestamps, is not new and has no pending modification |
| ResultModel.ResultDocument.Stamp | src/models/result.model.js:48 | the `timestamps` of `save()`: a new document is created and updated now, a modified one updated now, an unchanged one keeps both dates |
| ResultModel.ResultDocument.SetMarks | src/models/result.model.js:59 | assigning the marks: they become modified exactly when they were already, or the new value differs |
| ResultModel.ResultDocument.GradeHook | src/models/result.model.js:58-67 | the grade is recomputed from the marks only when they were modified, and is otherwise left alone |
| ResultModel.ResultDocument.Save | src/models/result.model.js:15-67 | saved exactly when the semester and the grade are in their enums, checked before the hook, the marks lie in [0, 100] and no other stored result has the same (student, course, semester, year); the saved grade is the hook's; a new document gets both timestamps, a modified one a new `updatedAt` |
| ResultModel.SaveNew | src/models/result.model.js:15-67 | a new result is saved with the grade of its marks, unpublished, with trimmed remarks, created and updated now, and keeps the key unique; refused exactly on a bad semester, marks out of range, a given grade outside the enum (such as `A+`) or a taken key |
| ResultModel.Resave | src/models/result.model.js:51 | re-saving a stored result with valid marks succeeds unchanged, `updatedAt` included: its own copy does not count against the unique index, and nothing is modified |
| ResultModel.ChangeMarks | src/models/result.model.js:51-67 | a loaded result given new marks saves exactly when they lie in [0, 100]; the grade is recomputed and `updatedAt` becomes now only when the marks changed, everything else is kept, and the key stays unique |
| ResultService.CreateResult | src/services/resultService.js:7-37 | refused with "Result already exists…" exactly when a stored result has the same (student, course, semester, year); otherwise stored under a fresh id exactly when the schema validators pass; the key stays unique and a refusal changes nothing |
| ResultService.PublishAll | src/services/resultService.js:43-50 | `updateMany` with `$in`: every result whose id is listed becomes published with that time and publisher, with its other fields and key unchanged; the rest are untouched |
| ResultService.PublishIdempotent | src/services/resultService.js:43-50 | publishing the same ids twice at the same time gives the same collection as publishing once |
| ResultService.Listed | src/services/resultService.js:53 | `find({ _id: { $in: resultIds } })`: exactly the stored results whose id is listed |
| ResultService.ListedArePublished | src/services/resultService.js:43-55 | every result the notification loop reads back is published, by that publisher, at that time |
| ResultService.Notice | src/services/resultService.js:59-68 | a notice exists exactly when the populated student and course exist; it goes to the student, has type `result` and points at the result, unread |
| ResultService.Notices | src/services/resultService.js:57-72 | the loop adds at most one notification per result it reads |
| ResultService.Attempt | src/services/resultService.js:58-71 | one result adds exactly one notification when its notice can be built and the create does not fail, and none otherwise (the error is caught and the loop goes on) |
| ResultService.NoticesFromDocs | src/services/resultService.js:57-72 | every notification the loop adds is the notice of one of the results it read whose create did not fail |
| ResultService.NoticesReachListedStudents | src/services/resultService.js:53-72 | every notification sent goes to the student of a result whose id was listed, and points at that result |
| ResultService.NoticesConsecutive | src/services/resultService.js:57-72 | the notifications the loop stores take consecutive fresh ids |
| ResultService.NotifyEach | src/services/resultService.js:57-72 | the loop returns exactly the notices of the results it reads, in order, numbered from the id counter, and the counter advanced by their number |
| ResultService.NoticesStep | src/services/resultService.js:58-71 | one more pass of the loop appends the notices of the next result, numbered after those already sent |
| ResultService.PublishResults | src/services/resultService.js:42-75 | the results become `PublishAll` of the listed ids, the answer is how many matched, and the stored notifications gain exactly the notices for the listed results |
| ResultService.NotifyPublished | src/services/resultService.js:57-72 | the stored notifications gain exactly the loop's notices and nothing else changes |
| ResultService.InstructedBy | src/services/resultService.js:89-90 | the ids of exactly the courses the faculty member instructs |
| ResultService.GetResults | src/services/resultService.js:80-117 | one page of published results in the caller's scope, with total, `Math.ceil(total / limit)`, the clamped page and limit; refused only for a negative skip |
| ResultService.ResultsScopedByRole | src/services/resultService.js:81-92 | every listed result is published; a student sees only their own, a faculty member only those of courses they instruct |
| ResultService.GetStudentResults | src/services/resultService.js:122-136 | a student asking for another student is refused; otherwise exactly that student's published results |
| ResultService.AmendKeepsKeyAndPublication | src/services/resultService.js:141-153 | an update never changes the result's key or its publication fields |
| ResultService.AmendNothing | src/services/resultService.js:147-150 | with no marks, no remarks and a missing or empty grade, only `updatedAt` changes (`grade \|\| undefined`) |
| ResultService.UpdateResult | src/services/resultService.js:141-160 | succeeds exactly when the update validators pass and the result exists; the stored result becomes the amended one and the key stays unique; "Result not found" for a missing id; a failure changes nothing |
| ResultService.DeleteResult | src/services/resultService.js:165-173 | "Result not found" exactly when no result has the id; otherwise that result is removed, no result with that id remains, and the key stays unique |
| CourseService.NewCourseRosterOk | src/models/Course.js:49-58 | a new course that passes validation starts with a roster that is duplicate-free and within `maxStudents` |
| CourseService.CreateCourse | src/services/courseService.js:9-34 | "Course code already exists" exactly when a stored course has the normalised (trimmed, upper-case) code; otherwise stored under a fresh id exactly when the schema validators pass; codes stay unique and a refusal changes nothing |
| CourseService.InsertCourse | src/services/courseService.js:30 | `course.save()` of a course whose code is free appends it under a fresh id and keeps codes unique |
| CourseService.ApplyCourseUpdateFields | src/services/courseService.js:96-108 | an update keeps the code, instructor, department, term and roster; it stamps `updatedAt`; an absent field keeps its value and a present one replaces it |
| CourseService.UpdateCanOverfillRoster | src/services/courseService.js:96-108 | `updateCourse` can set `maxStudents` below the roster size, so the roster bound is not kept by updates |
| CourseService.UpdateCourse | src/services/courseService.js:95-116 | succeeds exactly when the copied fields pass the cast and validators (the required `title` not blank) and the course exists; the course becomes the updated one; "Course not found" for a missing id; codes stay unique; a failure changes nothing |
| CourseService.EnrollCheck | src/services/courseService.js:138-151 | "Course not found" exactly for a missing course; passes exactly when the roster has room and does not hold the student |
| CourseService.FullBeforeDuplicate | src/services/courseService.js:144-151 | a full course answers "Course is full" even to a student already on it |
| CourseService.EnrollStudentAsWritten | src/services/courseService.js:154-160 | as written every enrolment fails: the check's error, or a validation error because the new enrollment lacks the required semester and year |
| CourseService.Enrolled | src/services/courseService.js:163-164 | the roster gains the student at its end |
| CourseService.EnrolledRosterOk | src/services/courseService.js:144-164 | pushing a student who passed both checks keeps the roster duplicate-free and within `maxStudents` |
| CourseService.PushCourse | src/services/courseService.js:167-171 | the student, when stored, gains the course at the end of `enrolledCourses`; a missing student leaves the users unchanged |
| CourseService.EnrollStudent | src/services/courseService.js:134-185 | after the checks, "duplicate key" exactly when an enrollment with the same (student, course, semester, year) exists; otherwise one active enrollment is stored, the course's roster and the student's course list gain each other; any failure changes nothing |
| CourseService.PushCourseOnStudent | src/services/courseService.js:167-171 | the users become `PushCourse` of the old users |
| CourseService.PushStudent | src/services/courseService.js:163-164 | the course at that position becomes the enrolled one and nothing else changes |
| CourseService.EnrollKeepsRosters | src/services/courseService.js:144-164 | if every roster was within bounds and duplicate-free before an enrolment that passed the checks, every roster still is |
| CourseService.Pulled | src/services/courseService.js:191-195 | `$pull` removes every occurrence of the student from the roster |
| CourseService.DroppedRosterOk | src/services/courseService.js:191-195 | dropping keeps the roster invariant and leaves the student off the roster |
| CourseService.DropCourse | src/services/courseService.js:190-208 | "Course not found" exactly for a missing course; otherwise the student is pulled and the first matching enrollment, if any, becomes dropped and is returned, else `null` |
| EventService.NewEvent | src/services/eventService.js:14-24 | the new event has the caller as organizer, no registrations, is published, and is visible to the given roles or, when none are given, to students and faculty |
| EventService.EventNoticesReachAudience | src/services/eventService.js:178-191 | every notice is an unread `event` notice for that event addressed to a stored user whose role is in `visibleTo`, and every such user gets one |
| EventService.CreateEvent | src/services/eventService.js:7-33 | "Start date must be before end date" exactly when the start is not before the end; otherwise stored exactly when the schema validators pass, followed by the notices `insertMany` accepted under consecutive ids; a failure changes nothing |
| EventService.CreateEventAsWritten | src/services/eventService.js:1-14 | as written: always an error; "Start date must be before end date" exactly in the intended case, and otherwise "Event is not a constructor" |
| EventService.EventError | src/services/eventService.js:10-26 | "Start date must be before end date" exactly when the start is not before the end; no error exactly when the dates are in order and the validators pass |
| EventService.SaveEvent | src/services/eventService.js:10-30 | an error leaves every collection and the counter alone; otherwise the event is stored under the next id and the accepted notices after it |
| EventService.StoredEventNotices | src/services/eventService.js:178-195 | the stored notices are at most one per user in the audience, under consecutive ids from the given one |
| EventService.StoreEvent | src/services/eventService.js:26-30 | the event is appended under a fresh id, then the accepted notices under the ids that follow |
| EventService.NotifyEventCreation | src/services/eventService.js:174-199 | the notifications gain the accepted prefix of the audience's notices, numbered from the next id; a failed insert is swallowed |
| EventService.GetEvents | src/services/eventService.js:38-66 | one page of published, not yet started events visible to the role, with their total and `Math.ceil(total / limit)`; refused only for a negative skip |
| EventService.ListedEventsAreUpcoming | src/services/eventService.js:39-55 | with a positive limit, every published upcoming event meant for the role appears on a page between 1 and the page count |
| EventService.RegisterCheck | src/services/eventService.js:85-103 | "Event not found" exactly for a missing event; passes exactly when there is room and the user has no registration yet |
| EventService.FullBeforeRegistered | src/services/eventService.js:92-94 | a full event answers "Event is full" whoever asks, registered or not |
| EventService.Registered | src/services/eventService.js:105 | the registrations gain one entry for the user at the end |
| EventService.RegisteredOk | src/services/eventService.js:92-106 | a registration that passed both checks keeps the registrations within capacity and one per user |
| EventService.RegisterForEvent | src/services/eventService.js:84-109 | a failed check answers its error and changes nothing; otherwise only that event changes, gaining the registration, and the registration invariant is kept |
| EventService.PullUser | src/services/eventService.js:118-120 | `$pull: { registrations: { user } }` keeps exactly the other users' registrations |
| EventService.PullUserIdempotent | src/services/eventService.js:114-130 | unregistering twice is the same as once |
| EventService.PullUserOk | src/services/eventService.js:114-130 | unregistering keeps the registration invariant |
| EventService.PullUserNoDup | src/services/eventService.js:118-120 | pulling keeps the registrations one per user |
| EventService.UnregisterFromEvent | src/services/eventService.js:114-130 | "Event not found" exactly for a missing event; otherwise the user's registrations are pulled and the invariant is kept |
| EventService.ApplyEventUpdateKeeps | src/services/eventService.js:136-148 | an update keeps organizer, dates, category, audience and registrations; a given capacity replaces the old one; an absent flag keeps its value |
| EventService.UpdateCanOverfillEvent | src/services/eventService.js:136-148 | `updateEvent` can set the capacity below the number of registrations |
| EventService.UpdateEvent | src/services/eventService.js:135-156 | succeeds exactly when the copied fields pass the cast and validators (the required `title` not blank, `description` and `location` not empty) and the event exists; "Event not found" for a missing id; a failure changes nothing |
| Store.FanOut | src/services/eventService.js:178-191 | one notification per user whose role is in the audience |
| Store.FanOutExact | src/services/eventService.js:178-191 | every user whose role is in the audience is sent the message, and every notification is addressed to such a user |
| Store.Numbered | src/services/eventService.js:194 | the documents are stored in order under consecutive fresh ids |
| Store.Accepted | src/services/eventService.js:193-198 | an ordered `insertMany` that fails part-way has stored a prefix of its documents, all of them when it did not fail |
| Store.Db.InsertNotification | src/services/notificationService.js:91 | `notification.save()` appends the notification under a fresh id and changes nothing else |
| Store.Db.InsertAttendance | src/services/attendanceService.js:33 | `attendance.save()` appends the record under a fresh id |
| Store.Db.InsertApiKey | src/services/authService.js:89 | `apiKey.save()` appends the key under a fresh id |
| Store.Db.InsertMaterial | src/services/materialService.js:21 | `material.save()` appends the material under a fresh id |
| Store.Db.InsertUser | src/services/authService.js:29 | `user.save()` appends the user under a fresh id |
| Store.Db.InsertMany | src/services/eventService.js:193-195 | the notifications gain exactly the accepted prefix under consecutive fresh ids; the answer is how many were stored |
| Store.Db.InsertCourse | src/services/courseService.js:17-30 | `new Course(...).save()` appends the course under a fresh id above every stored id |
| Store.Db.InsertEnrollment | src/services/courseService.js:160 | `enrollment.save()` appends the enrollment under a fresh id |
| Store.Db.InsertEvent | src/services/eventService.js:26 | `event.save()` appends the event under a fresh id |
| Store.Db.InsertResultRecord | src/services/resultService.js:22-32 | `result.save()` appends the result under a fresh id |
| Store.Db.InsertAnnouncement | src/services/announcementService.js:19 | `announcement.save()` appends the announcement under a fresh id |
| ApiKeyModel.VerifyKey | src/models/ApiKey.js:79-89 | the first stored key whose hash equals the SHA-256 of the presented key, that is active and expires after now; none exactly when no stored key passes that filter |
| ApiKeyModel.RevokedOrExpiredNeverVerifies | src/models/ApiKey.js:84-88 | a revoked key, or one whose expiry is not after now, is never the one returned |
| ApiKeyModel.VerifiedKeyIsUnique | src/models/ApiKey.js:79-89 | with hashes consistent with the keys and keys unique, the key returned is the one presented and the only one the filter accepts |
| ApiKeyModel.ApiKeyDocument.constructor | src/models/ApiKey.js:5-61 | a new key: the given fields, active, never used, expiring one year (365 × 24 × 60 × 60 × 1000 ms) after now, created and updated now, no hash yet, new and with no path modified |
| ApiKeyModel.ApiKeyDocument.Load | src/models/ApiKey.js:79-89 | a loaded key carries the stored fields and is neither new nor modified |
| ApiKeyModel.ApiKeyDocument.SetKey | src/models/ApiKey.js:69 | assigning the key sets it, and marks it modified exactly when it was already or the value differs |
| ApiKeyModel.ApiKeyDocument.SetActive | src/services/authService.js:128 | assigning `isActive` sets it, and marks the document modified exactly when it was already or the value differs |
| ApiKeyModel.ApiKeyDocument.SetLastUsed | src/middleware/auth.js:51 | assigning `lastUsedAt` sets it, and marks the document modified exactly when it was already or the date differs |
| ApiKeyModel.ApiKeyDocument.Stamp | src/models/ApiKey.js:58-60 | the `timestamps` of `save()`: `updatedAt` becomes now exactly when the document is new or modified, and is otherwise kept |
| ApiKeyModel.Used | src/middleware/auth.js:50-52 | a key after `lastUsedAt = new Date()` and `save()`: the date is now, `updatedAt` is now unless the date already was, and no other field changes |
| ApiKeyModel.ApiKeyDocument.HashHook | src/models/ApiKey.js:68-76 | a new or re-keyed document gets the SHA-256 of its key as `hashedKey`; otherwise the hash is left alone |
| ApiKeyModel.RecordUse | src/middleware/auth.js:50-52 | loading an admitted key, setting `lastUsedAt` and saving it always succeeds and yields `Used`: the hash is kept, the date is now, `updatedAt` moves only if the date changed |
| ApiKeyModel.ApiKeyDocument.SaveAsWritten | src/models/ApiKey.js:18-76 | `required` on `hashedKey` is checked before the hook fills it, so a new key without a hash is always refused |
| ApiKeyModel.ApiKeyDocument.Save | src/models/ApiKey.js:68-76 | with the hash filled before validation: saved exactly when key and name are non-empty and a hash is present or computed; a computed hash is the SHA-256 of the key, otherwise the old hash is kept; `updatedAt` becomes now exactly when the document was new or modified |
| ApiKeyModel.NewKeyRefusedAsWritten | src/services/authService.js:82-90 | as written, saving any freshly created key fails |
| ApiKeyModel.NewKeyStoredWhenCorrected | src/services/authService.js:82-90 | with the hook before validation, a fresh key with a name is stored with the SHA-256 of its key, active, expiring after one year |
| AuthService.RoleOrDefault | src/services/authService.js:26 | `role \|\| 'student'`: a missing or empty role becomes student, any other string must be one of the three roles |
| AuthService.FindByEmail | src/services/authService.js:13 | `findOne({ email: email.toLowerCase() })`: a user whose stored email equals the lower-cased one, none exactly when no user has it |
| AuthService.RegisterUser | src/services/authService.js:9-43 | "Email already registered" exactly when the lower-cased email is taken; otherwise stored under a fresh id exactly when the schema validators pass, with trimmed names, lower-cased email and hashed password; any failure changes nothing |
| AuthService.RegisteredEmailIsTaken | src/services/authService.js:12-16 | once a user is registered, registering any spelling of that email that lower-cases to the same string finds it taken; the stored email is already lower-case |
| AuthService.LoginCheck | src/services/authService.js:49-57 | "Invalid email or password" exactly when the email is unknown or the password does not match; "User account is disabled" only after the credentials match; a success names an active user |
| AuthService.UnknownEmailLikeWrongPassword | src/services/authService.js:51-53 | an unknown email and a wrong password get the same answer, so the reply does not tell which accounts exist |
| AuthService.LoginUser | src/services/authService.js:48-74 | fails exactly as the checks do and then changes nothing; on success only that user's `lastLogin` and `updatedAt` change and the token carries the user's id, email and role |
| AuthService.IssuingKeepsKeysSound | src/models/ApiKey.js:68-76 | appending a key whose hash is the SHA-256 of its key, and whose key is not taken, keeps every hash consistent and the keys unique |
| AuthService.CreateApiKey | src/services/authService.js:79-98 | stored exactly when the name and the generated key are non-empty and the key is not taken; the key comes back once with its id and name, defaults `permissions` to `['read']`; a failure changes nothing |
| AuthService.ListApiKeys | src/services/authService.js:103-116 | one summary per key of the user, and exactly the summaries of that user's keys, without key or hash |
| AuthService.FindOwnKey | src/services/authService.js:122 | `findOne({ _id: keyId, user: userId })`: a key with that id owned by the user; none exactly when no key with that id belongs to the user |
| AuthService.RevokeIdempotent | src/services/authService.js:121-132 | revoking finds the same key again, revoking twice, at any later time, is revoking once (the second save modifies nothing, so not even `updatedAt` moves), and no other key changes |
| AuthService.RevokeApiKey | src/services/authService.js:121-132 | "API key not found" exactly when the user owns no key with that id, changing nothing; otherwise only that key changes: it becomes inactive, and its `updatedAt` becomes now if it was active |
| AuthService.RevokedKeyRejected | src/models/ApiKey.js:84-88 | a revoked key is never the one `verifyKey` returns |
| AuthService.ProfileUpdateKeepsAccount | src/services/authService.js:151-158 | a profile update never touches email, password, role, activation, department, enrolments or last login; an absent field keeps its value; a given phone replaces the old one |
| AuthService.UpdateUserProfile | src/services/authService.js:150-171 | succeeds exactly when the copied fields pass the cast and validators as modelled (text only, names of two characters or more once trimmed) and the user exists; "User not found" for a missing id; a failure changes nothing |
| AdminService.UpdateUserRole | src/services/adminService.js:9-27 | "Invalid role" for a role outside the three, before any lookup; "User not found" exactly for a valid role and a missing user; otherwise only the role and `updatedAt` change |
| AdminService.UpdateUserRoleAsWritten | src/services/adminService.js:1-20 | as written: always an error; "Invalid role" exactly for a role outside the three, and otherwise "User.findByIdAndUpdate is not a function" |
| AdminService.WithActive | src/services/adminService.js:32-61 | sets `isActive` and `updatedAt` and nothing else |
| AdminService.WithActiveIdempotent | src/services/adminService.js:32-61 | deactivating or activating twice is the same as once; the opposite call undoes everything but `updatedAt` |
| AdminService.SetUserActive | src/services/adminService.js:32-61 | "User not found" exactly for a missing user, changing nothing; otherwise only that user's flag and `updatedAt` change |
| AdminService.DeactivateUser | src/services/adminService.js:32-44 | the user becomes inactive and nothing else changes but `updatedAt` |
| AdminService.ActivateUser | src/services/adminService.js:49-61 | the user becomes active and nothing else changes but `updatedAt` |
| AdminService.RoleCountsSum | src/services/adminService.js:66-101 | the three role counts add up to the number of users |
| AdminService.GroupByRole | src/services/adminService.js:66-101 | the `$group` on role has an entry exactly for each role some user holds, and each entry is that role's count |
| AdminService.GetAdminStats | src/services/adminService.js:66-101 | the totals are the collection sizes, the active counts never exceed them, and the role entries are positive counts that sum to the user total |
| MaterialService.DueDateOrNull | src/services/materialService.js:18 | `dueDate \|\| null`: a missing or zero timestamp gives no due date, any other is kept |
| MaterialService.NewMaterial | src/services/materialService.js:6-20 | the caller's course and user as uploader, published, no downloads, the trimmed title and the given file |
| MaterialService.CreateMaterial | src/services/materialService.js:6-25 | as intended: stored under a fresh id exactly when the schema validators pass; a failure changes nothing |
| MaterialService.CreateMaterialAsWritten | src/services/materialService.js:9-21 | as written: `uploader` is not the required `uploadedBy` of src/models/Material.js:36-40, so the document never validates; with `uploadedBy` it would validate exactly when the other fields do |
| MaterialService.GetCourseMaterials | src/services/materialService.js:30-58 | one page of the course's published materials with total and `Math.ceil(total / limit)`, page 1 and limit 20 by default; refused only for a negative skip |
| MaterialService.EveryPublishedMaterialListed | src/services/materialService.js:30-58 | with a positive limit every published material of the course appears on a page between 1 and the page count |
| MaterialService.GetMaterialById | src/services/materialService.js:61-72 | "Material not found" exactly for a missing id; otherwise the stored material with that id |
| MaterialService.MaterialUpdateKeepsFile | src/services/materialService.js:78-90 | an update never changes course, file, uploader or downloads; an absent flag keeps its value; a `null` due date clears it |
| MaterialService.UpdateMaterial | src/services/materialService.js:77-98 | succeeds exactly when the copied fields pass the cast and validators (the required `title` not blank) and the material exists; "Material not found" for a missing id; a failure changes nothing |
| MaterialService.DeleteMaterial | src/services/materialService.js:103-111 | "Material not found" exactly for a missing id, changing nothing; otherwise exactly that material is removed |
| MaterialService.WithDownload | src/services/materialService.js:117-128 | appends one download for the user at that time, stamps `updatedAt`, and changes nothing else |
| MaterialService.DownloadsCountUsers | src/services/materialService.js:117-128 | each recorded download adds exactly one entry for that user and none for anybody else |
| MaterialService.RecordDownload | src/services/materialService.js:116-135 | as intended: "Material not found" exactly for a missing id; otherwise only that material changes, gaining the download |
| MaterialService.RecordDownloadAsWritten | src/services/materialService.js:116-125 | as written: the `$push` onto the number path `downloads` of src/models/Material.js:41-44 is a cast error, never a recorded download |
| AttendanceService.ModOfDivision | src/services/attendanceService.js:15-16 | a time written as whole days plus a remainder within one day leaves that remainder modulo a day |
| AttendanceService.InDayIsSameDay | src/services/attendanceService.js:15-16 | the corrected window `[midnight, next midnight)` contains a time exactly when it falls on the same local day |
| AttendanceService.ParseStatus | src/models/Attendance.js:19-22 | exactly the four statuses of the enum are accepted |
| AttendanceService.MarkOn | src/services/attendanceService.js:7-38 | "Attendance already marked for this date" exactly when the student already has a record for that course on that local day; otherwise a record exactly when the status is in the enum |
| AttendanceService.FirstInDay | src/services/attendanceService.js:11-22 | the `findOne` duplicate query: the first record for that student and course on that local day, none exactly when there is none |
| AttendanceService.MarkOnKeepsOneADay | src/services/attendanceService.js:10-33 | storing an accepted mark keeps at most one record per student, course and day |
| AttendanceService.MarkOnAsWritten | src/services/attendanceService.js:11-22 | as written the duplicate window ends at 23:59:59.999 exclusive, so a record in that last millisecond is not seen |
| AttendanceService.WindowMissesLastMillisecond | src/services/attendanceService.js:14-17 | a record at 23:59:59.999 lets a second mark for the same day through as written, breaking one-a-day; the corrected check refuses it |
| AttendanceService.MarkAttendance | src/services/attendanceService.js:7-38 | a refused mark answers its error and changes nothing; an accepted one is appended under a fresh id; one-a-day is kept |
| AttendanceService.Bulk | src/services/attendanceService.js:105-125 | one result per item processed |
| AttendanceService.BulkAnswersEachItem | src/services/attendanceService.js:108-122 | the i-th result answers the i-th item: a failure names its student, a success is that student's record for that date, recorded by the caller |
| AttendanceService.BulkAppends | src/services/attendanceService.js:105-125 | the records only grow, at the end, under consecutive fresh ids, all recorded by the caller |
| AttendanceService.BulkKeepsOneADay | src/services/attendanceService.js:105-125 | the bulk loop keeps at most one record per student, course and day |
| AttendanceService.BulkMarkAttendance | src/services/attendanceService.js:105-125 | the loop's results and the stored records are those of marking the items one after another, a failure not stopping the rest |
| AttendanceService.BulkAsWritten | src/services/attendanceService.js:105-125 | as written, with `Attendance` bound at line 1 and its `findOne` at line 11: one failed result per item, in order, each "Attendance.findOne is not a function" |
| AttendanceService.BulkStoresNothingAsWritten | src/services/attendanceService.js:105-125 | a mark with a valid status is stored by the intended binding and fails as written |
| AttendanceService.StatusCountsSum | src/services/attendanceService.js:81-85 | the four status counts add up to the number of records |
| AttendanceService.Percentage | src/services/attendanceService.js:87 | between 0 and 100; 100 exactly when every record counts and there is one; 0 with no records |
| AttendanceService.Summarize | src/services/attendanceService.js:81-98 | the total and the four counts, which add up, and the percentage of present or excused |
| AttendanceService.GetStudentCourseAttendance | src/services/attendanceService.js:75-100 | exactly the student's records for the course, in stored order and with their multiplicities (`Select`), with their summary |
| AttendanceService.AmendKeepsWhoAndWhen | src/services/attendanceService.js:131-136 | an update keeps student, course, date and recorder; a missing or empty status and an absent remark keep their values |
| AttendanceService.UpdateAttendance | src/services/attendanceService.js:130-149 | succeeds exactly when the status passes the enum and the record exists; "Attendance record not found" for a missing id; one-a-day is kept; a failure changes nothing |
| AttendanceService.DeleteAttendance | src/services/attendanceService.js:154-162 | "Attendance record not found" exactly for a missing id, changing nothing; otherwise that record is removed and none with its id remains |
| AnnouncementService.NewAnnouncement | src/services/announcementService.js:10-17 | the caller as author, published, no views, the given target roles or students and faculty, category `general` and not pinned by default |
| AnnouncementService.AnnouncementNoticesReachTargets | src/services/announcementService.js:141-154 | every notice is an unread `announcement` notice for that announcement addressed to a stored user whose role is targeted, and every such user gets one |
| AnnouncementService.CreateAnnouncement | src/services/announcementService.js:7-26 | stored under a fresh id exactly when the schema validators pass, followed by the notices `insertMany` accepted under the ids that follow; a failure changes nothing |
| AnnouncementService.NotifyUsersOfAnnouncement | src/services/announcementService.js:137-162 | the notifications gain the accepted prefix of the targeted users' notices, numbered from the next id; a failed insert is swallowed |
| AnnouncementService.InsertListed | src/services/announcementService.js:39 | placing one announcement into a listing sorted by `{ isPinned: -1, createdAt: -1 }` keeps it sorted and adds exactly that announcement |
| AnnouncementService.WindowOrdered | src/services/announcementService.js:38-41 | a `.skip().limit()` page of the sorted listing is itself sorted, with every pinned announcement before every unpinned one |
| AnnouncementService.SortListing | src/services/announcementService.js:39 | the sort yields a permutation of its input in listing order |
| AnnouncementService.Listing | src/services/announcementService.js:34-39 | exactly the published announcements targeted at the role, in listing order, as many as the count |
| AnnouncementService.GetAnnouncements | src/services/announcementService.js:31-58 | one page of the listing, pinned first and otherwise newest first, with total and `Math.ceil(total / limit)`; refused only for a negative skip |
| AnnouncementService.EveryAnnouncementListed | src/services/announcementService.js:32-53 | with a positive limit every visible announcement is on a page between 1 and the page count |
| AnnouncementService.RecordView | src/services/announcementService.js:74-81 | as intended: a view is appended only for a user who has none, so viewers stay distinct and the user has viewed afterwards |
| AnnouncementService.RecordViewIdempotent | src/services/announcementService.js:74-81 | recording a second view by the same user changes nothing |
| AnnouncementService.Opened | src/services/announcementService.js:74-81 | opening records the view; a first view also stamps `updatedAt` (the schema keeps timestamps) and changes nothing else, and a repeat view changes nothing |
| AnnouncementService.ViewRecordedTwiceAsWritten | src/services/announcementService.js:74-79 | as written, an ObjectId compared with `===` to the string id never matches, so every visit appends a view and one user is counted twice |
| AnnouncementService.GetAnnouncementById | src/services/announcementService.js:63-84 | "Announcement not found" exactly for a missing id, changing nothing; otherwise only that announcement changes, to `Opened`: a first view is recorded and stamps `updatedAt` |
| AnnouncementService.MergeAnnouncement | src/services/announcementService.js:101-108 | author, views, publication and creation time are kept; an absent or empty field keeps its value (`x \|\| old`), an absent `isPinned` keeps its value; `updatedAt` is now |
| AnnouncementService.MergeNothing | src/services/announcementService.js:103-108 | an empty update changes only `updatedAt` |
| AnnouncementService.MayUpdateAsWritten | src/services/announcementService.js:97-99 | as written, only the author gets past the check: anyone else reaches the undeclared `userRole` and fails with a reference error |
| AnnouncementService.MayModify | src/services/announcementService.js:125-127 | the author or an admin may modify; anyone else gets the given refusal |
| AnnouncementService.AdminUpdateRefusedAsWritten | src/services/announcementService.js:97 | an admin who is not the author is refused as written but allowed by the intended check |
| AnnouncementService.UpdateAnnouncement | src/services/announcementService.js:89-112 | "Announcement not found" for a missing id; then author-or-admin, then the schema validators; on success only that announcement changes, to the merged one; a failure changes nothing |
| AnnouncementService.DeleteAnnouncement | src/services/announcementService.js:117-132 | "Announcement not found" for a missing id; removed exactly when the caller is the author or an admin, otherwise "Not authorized to delete…"; a failure changes nothing |
| EnrollmentService.Listing | src/services/enrollmentService.js:8-28 | one page of the enrollments that match, with the total and `Math.ceil(total / limit)`; refused only for a negative skip |
| EnrollmentService.GetStudentEnrollments | src/services/enrollmentService.js:8-28 | the page holds only the student's enrollments and the total counts all of them |
| EnrollmentService.GetCourseEnrollments | src/services/enrollmentService.js:33-52 | the page holds only the course's enrollments and the total counts all of them |
| EnrollmentService.ListingReachesEveryEnrollment | src/services/enrollmentService.js:9-24 | with a positive limit every matching enrollment is on a page between 1 and the page count |
| EnrollmentService.ParseEnrollmentStatus | src/models/Enrollment.js:15-19 | exactly the four statuses of the enum are accepted |
| EnrollmentService.AmendEnrollment | src/services/enrollmentService.js:60-63 | student, course and term are kept; a truthy status replaces the old one, a given percentage replaces the old one; `updatedAt` is now |
| EnrollmentService.AmendKeepsPercentageOk | src/models/Enrollment.js:32-37 | with the update validators passing, the attendance percentage stays within [0, 100] |
| EnrollmentService.UpdateEnrollmentStatus | src/services/enrollmentService.js:57-76 | refused by the validators first, then "Enrollment not found" for a missing id; succeeds exactly when both pass, changing only that enrollment; a failure changes nothing |
| EnrollmentService.StatusCountsSum | src/services/enrollmentService.js:85-89 | the four status counts add up to the number of enrollments |
| EnrollmentService.SumAttendanceBounds | src/services/enrollmentService.js:91 | with every percentage in [0, 100], the sum lies between 0 and 100 times the count |
| EnrollmentService.GetCourseEnrollmentStats | src/services/enrollmentService.js:81-95 | the total counts the course's enrollments; each status count is the number of them in that status, and they add up to the total; the average is their summed attendance over the total, 0 with none, within [0, 100] |
| EnrollmentService.GetCourseEnrollmentStatsAsWritten | src/services/enrollmentService.js:81-82 | as written, with `Enrollment` bound at line 1: always "Enrollment.find is not a function", never the intended statistics |
| EnrollmentService.AverageBounds | src/services/enrollmentService.js:91 | `sum / n \|\| 0` lies in [0, 100] when the sum is within bounds |
| NotificationService.GetUserNotifications | src/services/notificationService.js:6-30 | one page of the user's own notifications, the unread count, which never exceeds the total, and `Math.ceil(total / limit)`; a page or limit left out defaults to 1 or 20; refused only for a negative skip |
| NotificationService.EveryNotificationListed | src/services/notificationService.js:7-25 | with a positive limit every notification of the user is on a page between 1 and the page count |
| NotificationService.MarkedRead | src/services/notificationService.js:37-40 | read, `readAt` and `updatedAt` (the schema's `timestamps`) are the time, and otherwise the same notification |
| NotificationService.MarkedReadTwice | src/services/notificationService.js:35-47 | marking read twice is marking read once, at the later time |
| NotificationService.FindOwn | src/services/notificationService.js:36-37 | `findOneAndUpdate({ _id, recipient })`: a notification with that id owned by the user; none exactly when no such notification belongs to the user |
| NotificationService.MarkAsRead | src/services/notificationService.js:35-47 | "Notification not found" exactly when the user owns no notification with that id, changing nothing; otherwise only that one changes, to `MarkedRead` (read, `readAt` and `updatedAt` now), and the unread count drops by one if it was unread |
| NotificationService.AllRead | src/services/notificationService.js:53-56 | every unread notification of the user becomes `MarkedRead` (read, `readAt` and `updatedAt` now); every other notification is unchanged |
| NotificationService.AllReadCounts | src/services/notificationService.js:52-59 | afterwards the user has nothing unread and every other user's unread count is unchanged |
| NotificationService.MarkAllAsRead | src/services/notificationService.js:52-59 | the notifications become `AllRead` and the answer is how many were unread |
| NotificationService.DeleteNotification | src/services/notificationService.js:64-75 | "Notification not found" exactly when the user owns no notification with that id, changing nothing; otherwise that one is removed and no other user's notification is lost |
| NotificationService.CreateNotification | src/services/notificationService.js:80-93 | stored for the recipient, unread, under a fresh id exactly when the schema validators pass; a failure changes nothing |

## Left out

- `getAttendanceRecords`, `getCurrentUser`, `getAllCourses`, `getCourseById`, `deleteCourse`, `getEventById` and `deleteEvent` are not modelled: they are plain lookups, listings and deletes outside the rule layer described here.
- Sort orders other than the announcement listing are not modelled. Listings are in natural order, and the `.skip().limit()` window is taken over that order. This covers events by `startDate`, results, materials and notifications by `createdAt`, attendance by `date`, and a student's results by year and semester. `getAnnouncements`' pinned-first, newest-first order is modelled.
- ResultService.GetResults: states that the page holds only visible results and reports their count, not which window of the `createdAt` order it is.
- EventService.GetEvents: states that the page holds only listable events, not which window of the `startDate` order it is; `EventService.ListedEventsAreUpcoming` says which page holds each event in natural order.
- MaterialService.GetCourseMaterials: states that the page holds only the course's published materials, not which window of the `createdAt` order it is; `MaterialService.EveryPublishedMaterialListed` says which page holds each one in natural order.
- NotificationService.GetUserNotifications: states that the page holds only the user's own notifications, not which window of the `createdAt` order it is; `NotificationService.EveryNotificationListed` says which page holds each one in natural order.
- EnrollmentService.Listing: states that the page holds only matching enrollments; `EnrollmentService.ListingReachesEveryEnrollment` says which page holds each one.
- `populate` is not modelled: returned documents carry ids. In `publishResults`, a missing student or course makes building the notice throw, and the loop catches it; `Notice` is `None` in that case.
- Email (welcome and enrollment confirmation) is I/O whose failure is caught; it is not modelled.
- JWT signing and verification, bcrypt and SHA-256 are not computed. A login returns the token payload, and verification is a function parameter. The two hashes are injective constructors, so `comparePassword` is equality of hashes.
- `uuidv4()` for API keys is the parameter `generatedKey`.
- The clock is the parameter `now`. The server's local time zone is a fixed offset, so `setHours` is whole-day arithmetic on millisecond timestamps.
- Failures of best-effort inserts are parameters. `accepted` is how many documents an ordered `insertMany` stores before failing. `failing` is the set of results whose `Notification.create` throws. The console logging of those failures is left out.
- Concurrency between the read, check and write steps of `enrollStudent` and `registerForEvent` is left out: each service call is atomic.
- The email `match` regex of `src/models/User.js` is not modelled: a registration needs a non-empty email.
- `toFixed(2)` is left out: the attendance percentage and the average attendance are exact reals. Marks and percentages are reals, not IEEE doubles.
- JSON numbers in request bodies are integers (`Value.Num`).
- CourseService.CourseUpdateOk, EventService.EventUpdateOk, MaterialService.MaterialUpdateOk, AttendanceService.AttendanceUpdateOk, AuthService.ProfileUpdateOk, AuthService.UpdateUserProfile: they accept only a value of the path's own JSON kind, where Mongoose would cast some values of other kinds. Mongoose's casts are not modelled: it turns numbers and booleans into strings, numeric strings into numbers, `"true"`, `"false"`, `"1"` and `"0"` into booleans, and accepts `null` on a path that is not required. A refused cast has one message per service rather than Mongoose's text. For a profile, `{ phone: null }`, `{ avatar: null }` and `{ phone: 5551234 }` are refused by the model, while src/models/User.js:56-63 declares both as String paths that are not required, so Mongoose stores them.
- EnrollmentService.UpdateEnrollmentStatus: `attendancePercentage` is `Option<real>`, where `None` is `undefined`. An explicit `null` cannot be given. src/services/enrollmentService.js:62 copies it because it is `!== undefined`, and the `min`/`max` validators of src/models/Enrollment.js:32-37 skip `null`, so the source stores a `null` percentage that the model does not represent.
- `parseInt` is decimal only (radix 10, as `getPaginationParams` calls it). Page and limit given directly to a service are integers.
- ResultService.GetResults: reads `page` and `limit` as decimal through `Response.GetPaginationParams`, but src/services/resultService.js:95-96 calls `parseInt` with no radix, so there a `0x` prefix is read as hexadecimal (`"0x10"` is 16, where the model reads 0 and falls back to the default).
- Roles, statuses and API-key permissions are datatypes, so stored documents always hold values of their enums. Strings are parsed at the boundaries: `updateUserRole`, registration, and the status updates.
- A user's absent `phone` and `avatar` are stored as the empty string rather than `null`.
- `loginUser`'s `user.save()` is not re-validated: a stored user already passed validation, and only `lastLogin` changes.
- Two sets of schema files exist. Every `src/models/*.model.js` file exports an object `{ XModel }`, while the capitalised files (`User.js`, `Event.js`, `Attendance.js`, `Enrollment.js`, …) export the model itself. `src/middleware/auth.js:1`, `eventService.js:1-2,176`, `attendanceService.js:1-2`, `adminService.js:1-3` and `enrollmentService.js:1-3` bind the `*.model.js` export without destructuring. As written, their first model call therefore throws a `TypeError`; see Findings. The model follows the evidently intended binding: the capitalised schema of each entity, and the fields the services read (`maxStudents`/`enrolledStudents`, `visibleTo`). `resultService.js` uses `src/models/Result.js`. `ResultModel` models `src/models/result.model.js` on its own.
- AuthMiddleware.Authenticate: models the intended binding of `User`. As written, every Bearer request is 401 "Invalid JWT token" (`AuthMiddleware.DecideAsWritten`).
- AuthMiddleware.OptionalAuth: models the intended binding of `User`. As written, a Bearer header never attaches a user (`AuthMiddleware.DecideOptionalAsWritten`).
- EventService.CreateEvent: models the intended binding of `Event`. As written, every call past the date check fails with "Event is not a constructor" (`EventService.CreateEventAsWritten`).
- EventService.SaveEvent, EventService.StoreEvent: the intended `event.save()`. As written it is never reached, because `new Event` throws first.
- EventService.NotifyEventCreation: models the intended binding of `User`. As written, `User.find` at `eventService.js:177` throws, and the caught error means no notice is sent.
- EventService.GetEvents, EventService.RegisterForEvent, EventService.UnregisterFromEvent, EventService.UpdateEvent: model the intended binding. As written, each throws "… is not a function" at its first model call.
- AdminService.UpdateUserRole: models the intended binding. As written, a valid role fails with "User.findByIdAndUpdate is not a function" (`AdminService.UpdateUserRoleAsWritten`).
- AdminService.SetUserActive, AdminService.DeactivateUser, AdminService.ActivateUser, AdminService.GetAdminStats: model the intended binding. As written, each throws at its first model call.
- AttendanceService.MarkAttendance: models the intended binding, with the `recordedBy` field of `src/models/Attendance.js`. As written, `Attendance.findOne` throws. `src/models/attendance.model.js` would also require `markedBy`, `semester` and `year`.
- AttendanceService.BulkMarkAttendance: models the intended binding. As written, every item fails and nothing is stored (`AttendanceService.BulkAsWritten`).
- AttendanceService.GetStudentCourseAttendance, AttendanceService.UpdateAttendance, AttendanceService.DeleteAttendance: model the intended binding. As written, each throws at its first model call.
- EnrollmentService.Listing, EnrollmentService.GetStudentEnrollments, EnrollmentService.GetCourseEnrollments, EnrollmentService.UpdateEnrollmentStatus, EnrollmentService.GetCourseEnrollmentStats: model the intended binding, with the fields and enums of `src/models/Enrollment.js`. `src/models/enrollment.model.js` is not part of this model. The controllers destructure `{ EnrollmentModel }` from it, so as written each of these throws at its first model call (`EnrollmentService.GetCourseEnrollmentStatsAsWritten`).
- MaterialService.CreateMaterial: models the intended document. The uploader is `uploadedBy` and is required, as in `src/models/Material.js:36-40`. As written the service sets `uploader`, so validation always fails (`MaterialService.CreateMaterialAsWritten`). The service's `type` is kept, although `Material.js` has no such path and strict mode drops it. `fileType` and its enum are not modelled.
- MaterialService.RecordDownload: `downloads` is modelled as the list the service pushes onto. In `Material.js:41-44` it is a number, so as written the `$push` is a cast error (`MaterialService.RecordDownloadAsWritten`). `downloadedBy` is not modelled.
- AuthService.CreateApiKey: models the corrected hook order, with the hash computed before validation. As written, every call fails validation (`ApiKeyModel.NewKeyRefusedAsWritten`).
- AnnouncementService.GetAnnouncementById: models the corrected view check, which compares ids as strings. As written, every visit appends a view (`AnnouncementService.ViewRecordedTwiceAsWritten`).
- AttendanceService.GetStudentCourseAttendance: the records come in stored order. The `.sort({ date: 1 })` of src/services/attendanceService.js:79 is not modelled.
- MaterialService.UpdateMaterial: an update of `type` is applied. As written, strict mode drops it, because `src/models/Material.js` has no `type` path.
- `src/utils/auth.js` (`verifyJWT`, `verifyApiKey`) is not part of this model. JWT verification is a parameter, and `verifyApiKey` is taken to be the key check of `ApiKeyModel`.
- Rbac.UnknownRoleHasNoPermission, Rbac.AdminPermissions, Rbac.NonAdminPermission, Rbac.HasPermission: these do not model JavaScript's lookup of inherited `Object.prototype` keys in `PERMISSIONS[role]` and `rolePerms[action]`. As written, `hasPermission('constructor', 'bj', 'name')` is true, admin passes for the action `toString`, and a student asking for `toString` throws. The model treats every key outside the table as missing.
- Common.ToLower, Common.ToUpper: only the ASCII letters are mapped. JavaScript's full Unicode case mapping is not modelled: `'ß'` upper-cases to `"SS"` and `'İ'` lower-cases to two characters.
- Common.Trim, Response.ParseInt: only ASCII whitespace is skipped (space, tab, line feed, carriage return, vertical tab, form feed). JavaScript also skips U+00A0, U+FEFF and the other Unicode space separators and line terminators.
- The response envelope's `message` and `error` are strings, and `data` is a JSON value. Express's `res.status().json()` is the returned envelope.
- Controllers, routes, `src/index.js`, the rate-limit and CORS middleware, and the commented-out zod schemas are not modelled.
- Integer ids are unbounded: the ObjectId format is not modelled.

## Findings

| source | as written | input that shows it | evidently intended | confidence | as-written member | corrected member |
|---|---|---|---|---|---|---|
| src/services/attendanceService.js:16 | the duplicate window ends with `$lt` 23:59:59.999 | a record stored at 23:59:59.999 local time, then a mark for the same student, course and day | the whole day, up to and including 23:59:59.999 | not executed | AttendanceService.WindowMissesLastMillisecond | AttendanceService.MarkOn |
| src/services/announcementService.js:75 | `v.user.toString() === userId` compares a string with the ObjectId the controller passes | the same user opens the same announcement twice | compare both ids as strings, so a user is recorded once | not executed | AnnouncementService.ViewRecordedTwiceAsWritten | AnnouncementService.RecordView |
| src/models/ApiKey.js:18-21 | `hashedKey` is `required`, but validation runs before the `pre('save')` hook that fills it | any `createApiKey` call | compute the hash before validation, so a new key is stored | not executed | ApiKeyModel.NewKeyRefusedAsWritten | ApiKeyModel.NewKeyStoredWhenCorrected |
| src/services/courseService.js:154-158 | `new Enrollment` gets no `semester` or `year`, which src/models/Enrollment.js requires | any enrolment that passes the capacity and duplicate checks | take the term from the course | not executed | CourseService.EnrollStudentAsWritten | CourseService.EnrollStudent |
| src/services/announcementService.js:97 | `userRole` is not a parameter of `updateAnnouncement`, so the admin test throws a reference error | an admin who is not the author updates an announcement | allow the author or an admin, as `deleteAnnouncement` does | not executed | AnnouncementService.AdminUpdateRefusedAsWritten | AnnouncementService.UpdateAnnouncement |
| src/middleware/auth.js:1 | `User` is bound to the exported object `{ UserModel }`, so `User.findById` at line 19 throws and the catch at lines 27-28 answers 401 "Invalid JWT token"; `optionalAuth` swallows the same error | a Bearer token that verifies to the id of a stored, active user | bind `const { UserModel: User } = …`, so the token's user is let through | not executed | AuthMiddleware.JwtRefusedAsWritten | AuthMiddleware.Decide |
| src/services/eventService.js:1 | `Event` is bound to the object `{ EventModel }`, so `new Event` at line 14 throws "Event is not a constructor" | any `createEvent` whose start is before its end | bind the model, so a valid event is stored | not executed | EventService.CreateEventAsWritten | EventService.CreateEvent |
| src/services/attendanceService.js:1 | `Attendance` is bound to the object `{ AttendanceModel }`, so `Attendance.findOne` at line 11 throws | a bulk mark of one student with status `present` | bind the model, so the mark is stored | not executed | AttendanceService.BulkStoresNothingAsWritten | AttendanceService.BulkMarkAttendance |
| src/services/adminService.js:1 | `User` is bound to the object `{ UserModel }`, so `User.findByIdAndUpdate` at line 16 throws | an admin sets a stored user's role to `faculty` | bind the model, so the role is changed | not executed | AdminService.UpdateUserRoleAsWritten | AdminService.UpdateUserRole |
| src/services/enrollmentService.js:1 | `Enrollment` is bound to the whole export of `enrollment.model.js`, which the controllers destructure as `{ EnrollmentModel }`, so `Enrollment.find` at line 82 throws | statistics for any course | bind the model, so the counts and the average are returned | not executed | EnrollmentService.GetCourseEnrollmentStatsAsWritten | EnrollmentService.GetCourseEnrollmentStats |
| src/services/materialService.js:17 | the uploader is written as `uploader`, but src/models/Material.js:36-40 requires `uploadedBy` | any `createMaterial` call | write `uploadedBy`, so a valid material is stored | not executed | MaterialService.CreateMaterialAsWritten | MaterialService.CreateMaterial |
| src/services/materialService.js:120-125 | the download is `$push`ed onto `downloads`, which src/models/Material.js:41-44 declares as a number | any `recordDownload` call | push onto the array `downloadedBy` (or `$inc` the counter), so the download is recorded | not executed | MaterialService.RecordDownloadAsWritten | MaterialService.RecordDownload |
