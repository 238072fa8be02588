/** src/services/adminService.js: role changes, account activation and the
    dashboard counts. */
module AdminService {
  import opened Common
  import opened Store

  const InvalidRole := "Invalid role"
  const UserNotFound := "User not found"

  /** `updateUserRole`: the role is checked against `validRoles` before any
      lookup; then only the role and `updatedAt` change. */
  method UpdateUserRole(db: Db, userId: Id, newRole: string, now: int) returns (r: Result<User>)
    requires db.Valid()
    modifies db`users
    ensures db.Valid()
    ensures r.Err? ==> db.users == old(db.users)
    ensures ParseRole(newRole).None? ==> r == Err(InvalidRole)
    ensures r == Err(UserNotFound) <==> ParseRole(newRole).Some? && Find(old(db.users), userId).None?
    ensures r.Ok? <==> ParseRole(newRole).Some? && Find(old(db.users), userId).Some?
    ensures r.Ok? ==> var i := Find(old(db.users), userId).value;
      r.value == old(db.users)[i].val.(role := ParseRole(newRole).value, updatedAt := now) &&
      db.users == old(db.users)[i := Doc(userId, r.value)]
  {
    var role := ParseRole(newRole);
    if role.None? {
      return Err(InvalidRole);
    }
    var found := Find(db.users, userId);
    if found.None? {
      return Err(UserNotFound);
    }
    var i := found.value;
    var u := db.users[i].val.(role := role.value, updatedAt := now);
    UpdateWellKeyed(db.users, db.nextId, i, u);
    db.SetUsers(db.users[i := Doc(userId, u)]);
    r := Ok(u);
  }

  /** `updateUserRole` as written: `User` holds the object `{ UserModel }`
      that src/models/user.model.js exports, so past the role check
      `User.findByIdAndUpdate` throws and no role ever changes. */
  function UpdateUserRoleAsWritten(newRole: string): (r: Result<User>)
    ensures r.Err?
    ensures r == Err(InvalidRole) <==> ParseRole(newRole).None?
    ensures ParseRole(newRole).Some? ==> r == Err(NotAFunction("User", "findByIdAndUpdate"))
  {
    if ParseRole(newRole).None? then Err(InvalidRole) else Err(NotAFunction("User", "findByIdAndUpdate"))
  }

  /** `{ isActive, updatedAt }` applied to one user. */
  function WithActive(u: User, active: bool, now: int): (v: User)
    ensures v.isActive == active && v.updatedAt == now
    ensures v.(isActive := u.isActive, updatedAt := u.updatedAt) == u
  {
    u.(isActive := active, updatedAt := now)
  }

  /** Activating or deactivating twice is the same as doing it once, and
      the opposite call undoes everything but `updatedAt`. */
  lemma WithActiveIdempotent(u: User, active: bool, t1: int, t2: int)
    ensures WithActive(WithActive(u, active, t1), active, t2) == WithActive(u, active, t2)
    ensures WithActive(WithActive(u, active, t1), !active, t2) == WithActive(u, !active, t2)
    ensures WithActive(WithActive(u, !u.isActive, t1), u.isActive, u.updatedAt) == u
  {
  }

  /** The shared body of `activateUser` and `deactivateUser`. */
  method SetUserActive(db: Db, userId: Id, active: bool, now: int) returns (r: Result<User>)
    requires db.Valid()
    modifies db`users
    ensures db.Valid()
    ensures r.Err? <==> Find(old(db.users), userId).None?
    ensures r.Err? ==> r == Err(UserNotFound) && db.users == old(db.users)
    ensures r.Ok? ==> var i := Find(old(db.users), userId).value;
      r.value == WithActive(old(db.users)[i].val, active, now) &&
      db.users == old(db.users)[i := Doc(userId, r.value)]
  {
    var found := Find(db.users, userId);
    if found.None? {
      return Err(UserNotFound);
    }
    var i := found.value;
    var u := WithActive(db.users[i].val, active, now);
    UpdateWellKeyed(db.users, db.nextId, i, u);
    db.SetUsers(db.users[i := Doc(userId, u)]);
    r := Ok(u);
  }

  /** `deactivateUser`. */
  method DeactivateUser(db: Db, userId: Id, now: int) returns (r: Result<User>)
    requires db.Valid()
    modifies db`users
    ensures db.Valid()
    ensures r.Err? <==> Find(old(db.users), userId).None?
    ensures r.Err? ==> r == Err(UserNotFound) && db.users == old(db.users)
    ensures r.Ok? ==> !r.value.isActive && var i := Find(old(db.users), userId).value;
      db.users == old(db.users)[i := Doc(userId, WithActive(old(db.users)[i].val, false, now))]
  {
    r := SetUserActive(db, userId, false, now);
  }

  /** `activateUser`. */
  method ActivateUser(db: Db, userId: Id, now: int) returns (r: Result<User>)
    requires db.Valid()
    modifies db`users
    ensures db.Valid()
    ensures r.Err? <==> Find(old(db.users), userId).None?
    ensures r.Err? ==> r == Err(UserNotFound) && db.users == old(db.users)
    ensures r.Ok? ==> r.value.isActive && var i := Find(old(db.users), userId).value;
      db.users == old(db.users)[i := Doc(userId, WithActive(old(db.users)[i].val, true, now))]
  {
    r := SetUserActive(db, userId, true, now);
  }

  /** The object `getAdminStats` returns. `byRole` comes from a `$group` on
      the role, so a role nobody holds has no entry. */
  datatype AdminStats = AdminStats(
    usersTotal: nat, usersActive: nat, byRole: map<Role, nat>,
    coursesTotal: nat, coursesActive: nat, enrollmentsTotal: nat)

  function RoleCount(users: seq<Doc<User>>, role: Role): nat
  {
    Count(users, (u: User) => u.role == role)
  }

  /** Every user holds exactly one of the three roles. */
  lemma {:induction false} RoleCountsSum(users: seq<Doc<User>>)
    ensures RoleCount(users, Student) + RoleCount(users, Faculty) + RoleCount(users, Admin) == |users|
  {
    if |users| > 0 {
      RoleCountsSum(users[1..]);
    }
  }

  /** An absent role counts as zero. */
  function Entry(byRole: map<Role, nat>, role: Role): nat
  {
    if role in byRole then byRole[role] else 0
  }

  /** The `$group` stage: one entry per role some user holds. */
  function GroupByRole(users: seq<Doc<User>>): (m: map<Role, nat>)
    ensures forall role :: role in m <==> RoleCount(users, role) > 0
    ensures forall role :: Entry(m, role) == RoleCount(users, role)
  {
    map role: Role | RoleCount(users, role) > 0 :: RoleCount(users, role)
  }

  /** `getAdminStats`: the counts, with `byRole` summing to the user total
      and the active counts bounded by the totals. */
  function GetAdminStats(users: seq<Doc<User>>, courses: seq<Doc<Course>>, enrollments: seq<Doc<Enrollment>>)
    : (s: AdminStats)
    ensures s.usersTotal == |users| && s.coursesTotal == |courses| && s.enrollmentsTotal == |enrollments|
    ensures s.usersActive == Count(users, (u: User) => u.isActive) <= s.usersTotal
    ensures s.coursesActive == Count(courses, (c: Course) => c.isActive) <= s.coursesTotal
    ensures forall role :: role in s.byRole ==> s.byRole[role] == RoleCount(users, role) > 0
    ensures Entry(s.byRole, Student) + Entry(s.byRole, Faculty) + Entry(s.byRole, Admin) == s.usersTotal
  {
    RoleCountsSum(users);
    AdminStats(|users|, Count(users, (u: User) => u.isActive), GroupByRole(users),
               |courses|, Count(courses, (c: Course) => c.isActive), |enrollments|)
  }
}
