/** The role/action permission table, the route-to-roles table and the route
    matcher of src/utils/rbac.js. Everything here is a total, state-free
    decision; roles, resources, actions, methods and paths are the strings the
    source compares. */
module Rbac {
  import opened Common

  /** One role's entry of `PERMISSIONS`: the resource list of each action. */
  datatype ActionTable = ActionTable(read: seq<string>, write: seq<string>, delete: seq<string>)

  /** `PERMISSIONS[role]`. */
  function PermissionsOf(role: string): Option<ActionTable>
  {
    if role == "student" then
      Some(ActionTable(["announcements", "courses", "materials", "own_results", "events"],
                       ["own_profile"],
                       []))
    else if role == "faculty" then
      Some(ActionTable(["announcements", "courses", "materials", "all_results", "events", "users_in_course"],
                       ["announcements", "materials", "own_profile"],
                       ["own_materials"]))
    else if role == "admin" then
      Some(ActionTable(["*"], ["*"], ["*"]))
    else None
  }

  /** `rolePerms[action]`. */
  function ActionList(t: ActionTable, action: string): Option<seq<string>>
  {
    if action == "read" then Some(t.read)
    else if action == "write" then Some(t.write)
    else if action == "delete" then Some(t.delete)
    else None
  }

  /** `hasPermission(role, resource, action)`. An empty list is still a
      present (truthy) entry, so only a missing role or action stops the
      lookup before the admin shortcut. */
  function HasPermission(role: string, resource: string, action: string): (b: bool)
    ensures b ==> KnownRole(role) && StandardAction(action)
    ensures role == "admin" ==> (b <==> StandardAction(action))
  {
    match PermissionsOf(role)
    case None => false
    case Some(t) =>
      match ActionList(t, action)
      case None => false
      case Some(perms) => role == "admin" || resource in perms || "*" in perms
  }

  predicate KnownRole(role: string)
  {
    role == "student" || role == "faculty" || role == "admin"
  }

  predicate StandardAction(action: string)
  {
    action == "read" || action == "write" || action == "delete"
  }

  /** A role outside the table gets nothing, whatever the resource and action. */
  lemma UnknownRoleHasNoPermission(role: string, resource: string, action: string)
    requires !KnownRole(role)
    ensures !HasPermission(role, resource, action)
  {
  }

  /** Admin holds every resource for read, write and delete, and nothing for
      any other action: the action lookup fails before the admin shortcut. */
  lemma AdminPermissions(resource: string, action: string)
    ensures HasPermission("admin", resource, action) <==> StandardAction(action)
  {
  }

  /** For a non-admin role, permission is membership of the resource (or of
      `'*'`) in that role's list for the action. */
  lemma NonAdminPermission(role: string, resource: string, action: string)
    requires KnownRole(role) && role != "admin"
    ensures HasPermission(role, resource, action) <==>
      exists perms :: ActionList(PermissionsOf(role).value, action) == Some(perms) && (resource in perms || "*" in perms)
  {
    var t := PermissionsOf(role).value;
    if HasPermission(role, resource, action) {
      var perms := ActionList(t, action).value;
      assert ActionList(t, action) == Some(perms);
    }
  }

  /** A student can delete nothing. */
  lemma StudentDeletesNothing(resource: string)
    ensures !HasPermission("student", resource, "delete")
  {
  }

  /** Faculty may delete exactly their own materials, and write exactly
      announcements, materials and their own profile. */
  lemma FacultyWriteAndDelete(resource: string)
    ensures HasPermission("faculty", resource, "delete") <==> resource == "own_materials"
    ensures HasPermission("faculty", resource, "write") <==>
      resource == "announcements" || resource == "materials" || resource == "own_profile"
  {
  }

  /** One `ROUTE_ROLES` entry: the key `'<method> <pattern>'` split at its space. */
  datatype RouteEntry = RouteEntry(verb: string, pattern: string, roles: seq<string>)

  function Key(e: RouteEntry): string
  {
    e.verb + " " + e.pattern
  }

  /** `ROUTE_ROLES`, in its key order. */
  const RouteRoles: seq<RouteEntry> := [
    R0, R1, R2, R3, R4, R5, R6, R7,
    R8, R9, R10, R11, R12, R13, R14, R15,
    R16, R17, R18, R19, R20, R21, R22, R23
  ]

  const R0 := RouteEntry("POST", "/auth/register", ["public"])
  const R1 := RouteEntry("POST", "/auth/login", ["public"])
  const R2 := RouteEntry("GET", "/auth/me", ["student", "faculty", "admin"])
  const R3 := RouteEntry("GET", "/announcements", ["student", "faculty", "admin"])
  const R4 := RouteEntry("POST", "/announcements", ["faculty", "admin"])
  const R5 := RouteEntry("PUT", "/announcements/:id", ["faculty", "admin"])
  const R6 := RouteEntry("DELETE", "/announcements/:id", ["faculty", "admin"])
  const R7 := RouteEntry("GET", "/results", ["student", "faculty", "admin"])
  const R8 := RouteEntry("GET", "/results/:studentId", ["student", "faculty", "admin"])
  const R9 := RouteEntry("POST", "/results", ["admin"])
  const R10 := RouteEntry("PUT", "/results/:id", ["admin"])
  const R11 := RouteEntry("DELETE", "/results/:id", ["admin"])
  const R12 := RouteEntry("GET", "/courses", ["student", "faculty", "admin"])
  const R13 := RouteEntry("POST", "/courses", ["admin"])
  const R14 := RouteEntry("PUT", "/courses/:id", ["admin"])
  const R15 := RouteEntry("DELETE", "/courses/:id", ["admin"])
  const R16 := RouteEntry("GET", "/courses/:courseId/materials", ["student", "faculty", "admin"])
  const R17 := RouteEntry("POST", "/courses/:courseId/materials", ["faculty", "admin"])
  const R18 := RouteEntry("PUT", "/courses/:courseId/materials/:materialId", ["faculty", "admin"])
  const R19 := RouteEntry("DELETE", "/courses/:courseId/materials/:materialId", ["faculty", "admin"])
  const R20 := RouteEntry("GET", "/admin/users", ["admin"])
  const R21 := RouteEntry("PUT", "/admin/users/:id/role", ["admin"])
  const R22 := RouteEntry("DELETE", "/admin/users/:id", ["admin"])
  const R23 := RouteEntry("GET", "/admin/stats", ["admin"])

  /** `ROUTE_ROLES[route]`: the entry whose key is exactly `route`. */
  function ExactEntry(table: seq<RouteEntry>, route: string): (r: Option<nat>)
    ensures r.Some? ==> (r.value < |table| && Key(table[r.value]) == route &&
      forall j :: 0 <= j < r.value ==> Key(table[j]) != route)
    ensures r.None? ==> forall j :: 0 <= j < |table| ==> Key(table[j]) != route
  {
    if |table| == 0 then None
    else if Key(table[0]) == route then Some(0)
    else
      match ExactEntry(table[1..], route)
      case None => None
      case Some(k) => Some(k + 1)
  }

  /** The `for … of` scan: the first entry with the same HTTP method whose pattern matches. */
  function PatternEntry(table: seq<RouteEntry>, verb: string, path: string): (r: Option<nat>)
    ensures r.Some? ==> (r.value < |table| && table[r.value].verb == verb && MatchPath(table[r.value].pattern, path) &&
      forall j :: 0 <= j < r.value ==> !(table[j].verb == verb && MatchPath(table[j].pattern, path)))
    ensures r.None? ==> forall j :: 0 <= j < |table| ==> !(table[j].verb == verb && MatchPath(table[j].pattern, path))
  {
    if |table| == 0 then None
    else if table[0].verb == verb && MatchPath(table[0].pattern, path) then Some(0)
    else
      match PatternEntry(table[1..], verb, path)
      case None => None
      case Some(k) => Some(k + 1)
  }

  /** Entry `e` is about this request (its key is the route, or its method
      is the request's and its pattern matches) and lists the role or
      `'public'`. */
  predicate Admits(e: RouteEntry, role: string, verb: string, path: string)
  {
    (Key(e) == verb + " " + path || (e.verb == verb && MatchPath(e.pattern, path))) &&
    (role in e.roles || "public" in e.roles)
  }

  /** `canAccessRoute` over an arbitrary table. */
  function CanAccessRouteIn(table: seq<RouteEntry>, role: string, verb: string, path: string): (b: bool)
    ensures b ==> exists i :: 0 <= i < |table| && Admits(table[i], role, verb, path)
  {
    match ExactEntry(table, verb + " " + path)
    case Some(i) => role in table[i].roles || "public" in table[i].roles
    case None =>
      match PatternEntry(table, verb, path)
      case Some(i) => role in table[i].roles
      case None => false
  }

  /** `canAccessRoute(role, method, path)`. */
  function CanAccessRoute(role: string, verb: string, path: string): (b: bool)
    ensures b ==> exists i :: 0 <= i < |RouteRoles| && Admits(RouteRoles[i], role, verb, path)
  {
    CanAccessRouteIn(RouteRoles, role, verb, path)
  }

  /** How the decision is reached, for any table: an exact key admits its
      roles and `'public'`; otherwise the first pattern entry with the same
      HTTP method decides and `'public'` does not count there; otherwise deny. */
  lemma RouteDecision(table: seq<RouteEntry>, role: string, verb: string, path: string)
    ensures (exists i :: 0 <= i < |table| && Key(table[i]) == verb + " " + path) ==>
      exists i :: 0 <= i < |table| && Key(table[i]) == verb + " " + path &&
        (forall j :: 0 <= j < i ==> Key(table[j]) != verb + " " + path) &&
        (CanAccessRouteIn(table, role, verb, path) <==> role in table[i].roles || "public" in table[i].roles)
    ensures (forall i :: 0 <= i < |table| ==> Key(table[i]) != verb + " " + path) ==>
      (CanAccessRouteIn(table, role, verb, path) <==>
        exists i :: 0 <= i < |table| && table[i].verb == verb && MatchPath(table[i].pattern, path) &&
          (forall j :: 0 <= j < i ==> !(table[j].verb == verb && MatchPath(table[j].pattern, path))) &&
          role in table[i].roles)
  {
    var route := verb + " " + path;
    match ExactEntry(table, route)
    case Some(i) =>
    case None =>
      match PatternEntry(table, verb, path)
      case Some(i) =>
        forall i' | 0 <= i' < |table| && table[i'].verb == verb && MatchPath(table[i'].pattern, path) &&
                    (forall j :: 0 <= j < i' ==> !(table[j].verb == verb && MatchPath(table[j].pattern, path)))
          ensures PatternEntry(table, verb, path) == Some(i')
        {
          PatternHit(table, verb, path, i');
        }
      case None =>
  }

  /** Login and registration are open to every role string, known or not. */
  lemma AuthEntryPointsArePublic(role: string)
    ensures CanAccessRoute(role, "POST", "/auth/login")
    ensures CanAccessRoute(role, "POST", "/auth/register")
  {
    assert Key(RouteRoles[1]) == "POST /auth/login";
    assert Key(RouteRoles[0]) == "POST /auth/register";
  }

  /** Only admin may create a course. */
  lemma CourseCreationIsAdminOnly()
    ensures !CanAccessRoute("student", "POST", "/courses")
    ensures !CanAccessRoute("faculty", "POST", "/courses")
    ensures CanAccessRoute("admin", "POST", "/courses")
  {
    CoursesPostEntry();
    assert "POST" + " " + "/courses" == "POST /courses";
    assert RouteRoles[13].roles == ["admin"];
    AdminOnlyEntry(RouteRoles, 13, "POST", "/courses");
  }

  /** An exact entry listing only admin admits admin and neither other role. */
  lemma AdminOnlyEntry(table: seq<RouteEntry>, i: nat, verb: string, path: string)
    requires ExactEntry(table, verb + " " + path) == Some(i)
    requires i < |table| && table[i].roles == ["admin"]
    ensures !CanAccessRouteIn(table, "student", verb, path)
    ensures !CanAccessRouteIn(table, "faculty", verb, path)
    ensures CanAccessRouteIn(table, "admin", verb, path)
  {
  }

  /** `'POST /courses'` is the key of entry 13 and of no earlier entry. */
  lemma CoursesPostEntry()
    ensures ExactEntry(RouteRoles, "POST /courses") == Some(13)
  {
    assert |Key(R0)| != 13;
    assert |Key(R1)| != 13;
    assert |Key(R2)| != 13;
    assert |Key(R3)| != 13;
    assert |Key(R4)| != 13;
    assert |Key(R5)| != 13;
    assert |Key(R6)| != 13;
    assert |Key(R7)| != 13;
    assert |Key(R8)| != 13;
    assert Key(R9)[6] == 'r';
    assert |Key(R10)| != 13;
    assert |Key(R11)| != 13;
    assert |Key(R12)| != 13;
    ExactHit(RouteRoles, 13, "POST /courses");
  }

  lemma ExactHit(table: seq<RouteEntry>, i: nat, route: string)
    requires i < |table| && Key(table[i]) == route
    requires forall j :: 0 <= j < i ==> Key(table[j]) != route
    ensures ExactEntry(table, route) == Some(i)
  {
  }

  /** The path of a course's materials list. */
  function MaterialsPath(courseId: string): string
  {
    "/courses/" + courseId + "/materials"
  }

  /** For a course id free of `:` the materials routes are reached through
      the pattern scan: every known role may list materials, only faculty and
      admin may upload them. */
  lemma MaterialsRoutesByPattern(role: string, courseId: string)
    requires |courseId| > 0 && '/' !in courseId && ':' !in courseId
    ensures CanAccessRoute(role, "GET", MaterialsPath(courseId)) <==> KnownRole(role)
    ensures CanAccessRoute(role, "POST", MaterialsPath(courseId)) <==> role == "faculty" || role == "admin"
  {
    MaterialsRouteEntry("GET", 16, courseId);
    MaterialsRouteEntry("POST", 17, courseId);
    MaterialsRoles();
  }

  /** Who the two materials entries admit. */
  lemma MaterialsRoles()
    ensures forall role :: role in RouteRoles[16].roles <==> KnownRole(role)
    ensures forall role :: role in RouteRoles[17].roles <==> role == "faculty" || role == "admin"
  {
    assert RouteRoles[16] == R16 && RouteRoles[17] == R17;
  }

  /** The materials path falls through the exact lookup to entry `n`. */
  lemma MaterialsRouteEntry(verb: string, n: nat, courseId: string)
    requires (verb == "GET" && n == 16) || (verb == "POST" && n == 17)
    requires |courseId| > 0 && '/' !in courseId && ':' !in courseId
    ensures forall role :: CanAccessRoute(role, verb, MaterialsPath(courseId)) == (role in RouteRoles[n].roles)
  {
    var path := MaterialsPath(courseId);
    assert RouteRoles[n].verb == verb && RouteRoles[n].pattern == R16.pattern by {
      if n == 16 { assert RouteRoles[16] == R16; } else { assert RouteRoles[17] == R17; }
    }
    MaterialsPathMatch(courseId);
    NoEarlierMatch(verb, n, courseId);
    PatternHit(RouteRoles, verb, path, n);
    NoExactMaterialsKey(verb, courseId);
  }

  /** No GET or POST entry before the materials entries matches a materials path. */
  lemma NoEarlierMatch(verb: string, n: nat, courseId: string)
    requires (verb == "GET" && n == 16) || (verb == "POST" && n == 17)
    ensures forall j :: 0 <= j < n ==> !(RouteRoles[j].verb == verb && MatchPath(RouteRoles[j].pattern, MaterialsPath(courseId)))
  {
    var path := MaterialsPath(courseId);
    EarlierGetAndPostEntries();
    ResultsPatternMissesMaterials(courseId);
    forall j | 0 <= j < n && RouteRoles[j].verb == verb ensures !MatchPath(RouteRoles[j].pattern, path) {
      if j != 8 && j != 16 {
        LiteralPatternMatchesExactly(RouteRoles[j].pattern, path);
      }
    }
  }

  lemma ResultsPatternMissesMaterials(courseId: string)
    ensures !MatchPath(R8.pattern, MaterialsPath(courseId))
  {
    var path := MaterialsPath(courseId);
    assert path[..1] == "/" && path[1] == 'c';
    LiteralMismatch(R8.pattern, path, 1);
  }

  /** A pattern whose literal start disagrees with the path at `i` does not match it. */
  lemma {:induction false} LiteralMismatch(pattern: string, path: string, i: nat)
    requires i < |pattern| && i < |path|
    requires forall k :: 0 <= k <= i ==> pattern[k] != ':'
    requires pattern[..i] == path[..i] && pattern[i] != path[i]
    ensures !MatchPath(pattern, path)
  {
    if i > 0 {
      assert pattern[1..][..i - 1] == pattern[..i][1..];
      assert path[1..][..i - 1] == path[..i][1..];
      LiteralMismatch(pattern[1..], path[1..], i - 1);
    }
  }

  lemma PatternHit(table: seq<RouteEntry>, verb: string, path: string, i: nat)
    requires i < |table| && table[i].verb == verb && MatchPath(table[i].pattern, path)
    requires forall j :: 0 <= j < i ==> !(table[j].verb == verb && MatchPath(table[j].pattern, path))
    ensures PatternEntry(table, verb, path) == Some(i)
  {
  }

  /** Before the materials entries, the only GET and POST patterns are
      short literals and `/results/:studentId`. */
  lemma EarlierGetAndPostEntries()
    ensures forall j :: 0 <= j < 17 && (RouteRoles[j].verb == "GET" || RouteRoles[j].verb == "POST") ==>
      j == 8 || j == 16 || (':' !in RouteRoles[j].pattern && |RouteRoles[j].pattern| < 23)
  {
  }

  /** No `ROUTE_ROLES` key is a materials path of a `:`-free course id. */
  lemma NoExactMaterialsKey(verb: string, courseId: string)
    requires verb == "GET" || verb == "POST"
    requires |courseId| > 0 && ':' !in courseId
    ensures ExactEntry(RouteRoles, verb + " " + MaterialsPath(courseId)) == None
  {
    MaterialsRouteShape(verb, courseId);
    KeysShortOrParametric();
    LongPlainRouteHasNoEntry(RouteRoles, verb + " " + MaterialsPath(courseId));
  }

  /** A GET or POST materials route of a `:`-free course id is at least 24
      characters long and has no `:`. */
  lemma MaterialsRouteShape(verb: string, courseId: string)
    requires verb == "GET" || verb == "POST"
    requires |courseId| > 0 && ':' !in courseId
    ensures var route := verb + " " + MaterialsPath(courseId);
      |route| >= 24 && ':' !in route
  {
    var route := verb + " " + MaterialsPath(courseId);
    assert route == verb + " /courses/" + courseId + "/materials";
  }

  /** A route of 24 or more characters without `:` has no exact entry in a
      table whose keys are all shorter or parametric. */
  lemma LongPlainRouteHasNoEntry(table: seq<RouteEntry>, route: string)
    requires forall j :: 0 <= j < |table| ==> |Key(table[j])| < 24 || ':' in Key(table[j])
    requires |route| >= 24 && ':' !in route
    ensures ExactEntry(table, route) == None
  {
  }

  /** Every key is either shorter than 24 characters or has a parameter. */
  lemma KeysShortOrParametric()
    ensures forall j :: 0 <= j < |RouteRoles| ==> |Key(RouteRoles[j])| < 24 || ':' in Key(RouteRoles[j])
  {
  }

  /** The materials pattern matches `/courses/<id>/materials` exactly when
      the id is one non-empty segment. */
  lemma MaterialsPathMatch(courseId: string)
    ensures MatchPath(R16.pattern, MaterialsPath(courseId)) <==> |courseId| > 0 && '/' !in courseId
  {
    assert R16.pattern == "/courses/" + (":" + "courseId" + "/materials");
    assert MaterialsPath(courseId) == "/courses/" + (courseId + "/materials");
    OneParamPattern("/courses/", "courseId", "/materials", courseId);
  }

  /** A pattern with one `:name` segment between literal parts matches the
      literal parts around exactly one non-empty segment. */
  lemma OneParamPattern(prefix: string, name: string, tail: string, segment: string)
    requires ':' !in prefix && ':' !in tail
    requires |name| > 0 && '/' !in name
    requires |tail| > 0 && tail[0] == '/'
    ensures MatchPath(prefix + (":" + name + tail), prefix + (segment + tail)) <==>
      |segment| > 0 && '/' !in segment
  {
    var rest := segment + tail;
    LiteralPrefix(prefix, ":" + name + tail, rest);
    ParamStep(name, tail, rest);
    var k := Run(rest);
    LiteralPatternMatchesExactly(tail, rest[k..]);
    if '/' !in segment {
      RunOverSegment(segment, tail);
      assert rest[k..] == tail;
    } else {
      var j :| 0 <= j < |segment| && segment[j] == '/';
      assert rest[j] == '/';
      assert |rest[k..]| > |tail|;
    }
  }

  /** The number of `/` in `s`: one less than its segments. */
  function Slashes(s: string): nat
  {
    if |s| == 0 then 0 else (if s[0] == '/' then 1 else 0) + Slashes(s[1..])
  }

  /** Dropping a prefix without `/` keeps the count of `/`. */
  lemma {:induction false} SlashFreePrefix(s: string, k: nat)
    requires k <= |s|
    requires forall i :: 0 <= i < k ==> s[i] != '/'
    ensures Slashes(s[k..]) == Slashes(s)
  {
    if k > 0 {
      SlashFreePrefix(s[1..], k - 1);
      assert s[1..][k - 1..] == s[k..];
    }
  }

  /** Number of leading characters of `s` before the first `'/'`. */
  function Run(s: string): (n: nat)
    ensures n <= |s|
    ensures forall i :: 0 <= i < n ==> s[i] != '/'
    ensures n < |s| ==> s[n] == '/'
  {
    if |s| == 0 || s[0] == '/' then 0 else 1 + Run(s[1..])
  }

  /** `matchPath(pattern, path)`: `^…$` anchored, every `:name` becoming
      `[^/]+`. After the `/` escaping a `:` that is not the last character
      swallows the rest of its segment, so it stands for one non-empty run of
      non-`/` characters of the path; every other character matches itself. */
  function MatchPath(pattern: string, path: string): (b: bool)
    ensures b ==> Slashes(path) == Slashes(pattern)
    decreases |pattern|
  {
    if |pattern| == 0 then |path| == 0
    else if pattern[0] == ':' && |pattern| > 1 then
      var k := Run(path);
      var j := 1 + Run(pattern[1..]);
      SlashFreePrefix(path, k);
      SlashFreePrefix(pattern, j);
      k > 0 && MatchPath(pattern[j..], path[k..])
    else
      |path| > 0 && path[0] == pattern[0] &&
      MatchPath(pattern[1..], path[1..])
  }

  /** A pattern without parameters matches exactly itself. */
  lemma {:induction false} LiteralPatternMatchesExactly(pattern: string, path: string)
    requires ':' !in pattern
    ensures MatchPath(pattern, path) <==> pattern == path
  {
    if |pattern| > 0 {
      assert ':' !in pattern[1..] by {
        forall i | 0 <= i < |pattern[1..]| ensures pattern[1..][i] != ':' {
          assert pattern[1..][i] == pattern[i + 1];
        }
      }
      if |path| > 0 {
        LiteralPatternMatchesExactly(pattern[1..], path[1..]);
        if pattern == path {
          assert pattern[1..] == path[1..];
        } else if path[0] == pattern[0] {
          assert pattern == [pattern[0]] + pattern[1..] && path == [path[0]] + path[1..];
        }
      }
    }
  }

  /** A literal prefix is consumed character by character. */
  lemma {:induction false} LiteralPrefix(lit: string, rest: string, path: string)
    requires ':' !in lit
    ensures MatchPath(lit + rest, lit + path) == MatchPath(rest, path)
  {
    if |lit| == 0 {
      assert lit + rest == rest && lit + path == path;
    } else {
      assert (lit + rest)[0] == lit[0] && (lit + path)[0] == lit[0];
      assert (lit + rest)[1..] == lit[1..] + rest && (lit + path)[1..] == lit[1..] + path;
      assert ':' !in lit[1..] by {
        forall i | 0 <= i < |lit[1..]| ensures lit[1..][i] != ':' {
          assert lit[1..][i] == lit[i + 1];
        }
      }
      LiteralPrefix(lit[1..], rest, path);
    }
  }

  /** A `:name` segment consumes the leading run of non-`/` characters of
      the path, which must not be empty. */
  lemma ParamStep(name: string, rest: string, path: string)
    requires |name| > 0 && '/' !in name
    requires |rest| == 0 || rest[0] == '/'
    ensures MatchPath(":" + name + rest, path) == (Run(path) > 0 && MatchPath(rest, path[Run(path)..]))
  {
    var pattern := ":" + name + rest;
    assert pattern[1..] == name + rest;
    RunOverSegment(name, rest);
    assert pattern[1 + |name|..] == rest;
  }

  /** A `:name` segment matches exactly one non-empty run of non-`/`
      characters, after which the rest of the pattern must match the rest of
      the path. */
  lemma ParamMatchesOneSegment(name: string, rest: string, path: string)
    requires |name| > 0 && '/' !in name
    requires |rest| == 0 || rest[0] == '/'
    ensures MatchPath(":" + name + rest, path) <==>
      exists k :: 0 < k <= |path| && (forall i :: 0 <= i < k ==> path[i] != '/') &&
        (k == |path| || path[k] == '/') && MatchPath(rest, path[k..])
  {
    ParamStep(name, rest, path);
    var k := Run(path);
    if exists k' :: 0 < k' <= |path| && (forall i :: 0 <= i < k' ==> path[i] != '/') &&
        (k' == |path| || path[k'] == '/') && MatchPath(rest, path[k'..]) {
      var k' :| 0 < k' <= |path| && (forall i :: 0 <= i < k' ==> path[i] != '/') &&
        (k' == |path| || path[k'] == '/') && MatchPath(rest, path[k'..]);
      assert k == k';
    }
  }

  lemma {:induction false} RunOverSegment(name: string, rest: string)
    requires '/' !in name
    requires |rest| == 0 || rest[0] == '/'
    ensures Run(name + rest) == |name|
  {
    if |name| > 0 {
      assert (name + rest)[1..] == name[1..] + rest;
      assert '/' !in name[1..] by {
        forall i | 0 <= i < |name[1..]| ensures name[1..][i] != '/' {
          assert name[1..][i] == name[i + 1];
        }
      }
      RunOverSegment(name[1..], rest);
    } else {
      assert name + rest == rest;
    }
  }
}
