/** src/services/authService.js over src/models/User.js and
    src/models/ApiKey.js: registration, login, API-key creation, listing and
    revocation, and the profile update. */
module AuthService {
  import opened Common
  import opened Store
  import opened ApiKeyModel

  const EmailTaken := "Email already registered"
  const BadCredentials := "Invalid email or password"
  const AccountDisabled := "User account is disabled"
  const UserNotFound := "User not found"
  const UserInvalid := "User validation failed"
  const ApiKeyNotFound := "API key not found"
  const ApiKeyInvalid := "ApiKey validation failed"

  /** The fields `registerUser` reads; `None` is `undefined`. */
  datatype Registration = Registration(
    firstName: string, lastName: string, email: string, password: string,
    department: string, phone: Option<string>, role: Option<string>)

  /** `role || 'student'`, then the role enum. */
  function RoleOrDefault(role: Option<string>): (r: Option<Role>)
    ensures !Truthy(role) ==> r == Some(Student)
    ensures Truthy(role) ==> r == ParseRole(role.value)
  {
    if Truthy(role) then ParseRole(role.value) else Some(Student)
  }

  /** The schema validators checked before the password is hashed: trimmed
      names of two characters or more, a department, a password of six
      characters or more, a role from the enum. */
  predicate RegistrationOk(reg: Registration)
  {
    |Trim(reg.firstName)| >= 2 && |Trim(reg.lastName)| >= 2 && |Trim(reg.department)| > 0 &&
    |reg.email| > 0 && |reg.password| >= 6 && RoleOrDefault(reg.role).Some?
  }

  /** The user `new User({...}).save()` stores: trimmed names, the email in
      lower case, the bcrypt hash of the password, active, never logged in. */
  function NewUser(reg: Registration, now: int): User
    requires RegistrationOk(reg)
  {
    User(Trim(reg.firstName), Trim(reg.lastName), ToLower(reg.email), Bcrypt(reg.password),
         Trim(reg.department), if reg.phone.Some? then reg.phone.value else "", "",
         RoleOrDefault(reg.role).value, true, None, [], now)
  }

  /** The email search of `registerUser` and `loginUser`: the lower-cased
      address, compared with the stored one. */
  function FindByEmail(users: seq<Doc<User>>, email: string): (r: Option<nat>)
    ensures r.Some? ==> r.value < |users| && users[r.value].val.email == ToLower(email)
    ensures r.None? ==> forall k :: 0 <= k < |users| ==> users[k].val.email != ToLower(email)
  {
    FirstIndex(users, (d: Doc<User>) => d.val.email == ToLower(email))
  }

  /** `registerUser`: refused when the lower-cased email is taken or a
      validator fails; otherwise the user is stored under a fresh id. The
      welcome email is sent after and its failure ignored. */
  method RegisterUser(db: Db, reg: Registration, now: int) returns (r: Result<Doc<User>>)
    requires db.Valid()
    modifies db`users, db`nextId
    ensures db.Valid()
    ensures r == Err(EmailTaken) <==> FindByEmail(old(db.users), reg.email).Some?
    ensures r.Ok? <==> FindByEmail(old(db.users), reg.email).None? && RegistrationOk(reg)
    ensures r.Err? ==> db.users == old(db.users) && db.nextId == old(db.nextId)
    ensures r.Ok? ==> (r.value == Doc(old(db.nextId), NewUser(reg, now)) &&
      db.users == old(db.users) + [r.value] && db.nextId == old(db.nextId) + 1)
  {
    if FindByEmail(db.users, reg.email).Some? {
      return Err(EmailTaken);
    }
    if !RegistrationOk(reg) {
      return Err(UserInvalid);
    }
    var u := NewUser(reg, now);
    var id := db.InsertUser(u);
    r := Ok(Doc(id, u));
  }

  /** A registered user blocks every later registration whose email differs
      from theirs only in letter case, and is stored with a lower-case email. */
  lemma RegisteredEmailIsTaken(users: seq<Doc<User>>, reg: Registration, now: int, id: Id, email: string)
    requires RegistrationOk(reg) && ToLower(email) == ToLower(reg.email)
    ensures FindByEmail(users + [Doc(id, NewUser(reg, now))], email).Some?
    ensures ToLower(NewUser(reg, now).email) == NewUser(reg, now).email
  {
    var us := users + [Doc(id, NewUser(reg, now))];
    assert us[|users|].val.email == ToLower(email);
    ToLowerIdempotent(reg.email);
  }

  /** The payload of the token `loginUser` signs. */
  datatype TokenPayload = TokenPayload(id: Id, email: string, role: Role)

  /** `comparePassword`: bcrypt accepts exactly the password it hashed. */
  predicate PasswordMatches(u: User, password: string)
  {
    u.password == Bcrypt(password)
  }

  /** The decision of `loginUser`: the same error for an unknown email and a
      wrong password; the disabled-account error only once they pass. */
  function LoginCheck(users: seq<Doc<User>>, email: string, password: string): (r: Result<nat>)
    ensures r.Ok? ==> r.value < |users| && users[r.value].val.isActive
    ensures r == Err(BadCredentials) <==>
      FindByEmail(users, email).None? || !PasswordMatches(users[FindByEmail(users, email).value].val, password)
    ensures r == Err(AccountDisabled) ==>
      FindByEmail(users, email).Some? && PasswordMatches(users[FindByEmail(users, email).value].val, password)
    ensures r.Ok? || r == Err(BadCredentials) || r == Err(AccountDisabled)
  {
    match FindByEmail(users, email)
    case None => Err(BadCredentials)
    case Some(i) =>
      if !PasswordMatches(users[i].val, password) then Err(BadCredentials)
      else if !users[i].val.isActive then Err(AccountDisabled)
      else Ok(i)
  }

  /** An unknown email and a wrong password cannot be told apart. */
  lemma UnknownEmailLikeWrongPassword(users: seq<Doc<User>>, email: string, password: string, email': string,
                                      wrong: string)
    requires FindByEmail(users, email).None?
    requires FindByEmail(users, email').Some? && !PasswordMatches(users[FindByEmail(users, email').value].val, wrong)
    ensures LoginCheck(users, email, password) == LoginCheck(users, email', wrong)
  {
  }

  /** `loginUser`: on success `lastLogin` is set and the token carries the
      user's id, email and role; nothing else changes. */
  method LoginUser(db: Db, email: string, password: string, now: int) returns (r: Result<TokenPayload>)
    requires db.Valid()
    modifies db`users
    ensures db.Valid()
    ensures r.Err? <==> LoginCheck(old(db.users), email, password).Err?
    ensures r.Err? ==> r.msg == LoginCheck(old(db.users), email, password).msg && db.users == old(db.users)
    ensures r.Ok? ==> var i := LoginCheck(old(db.users), email, password).value;
      var u := old(db.users)[i];
      r.value == TokenPayload(u.id, u.val.email, u.val.role) &&
      db.users == old(db.users)[i := Doc(u.id, u.val.(lastLogin := Some(now), updatedAt := now))]
  {
    var check := LoginCheck(db.users, email, password);
    if check.Err? {
      return Err(check.msg);
    }
    var i := check.value;
    var u := db.users[i];
    UpdateWellKeyed(db.users, db.nextId, i, u.val.(lastLogin := Some(now), updatedAt := now));
    db.SetUsers(db.users[i := Doc(u.id, u.val.(lastLogin := Some(now), updatedAt := now))]);
    r := Ok(TokenPayload(u.id, u.val.email, u.val.role));
  }

  /** What `createApiKey` returns: the only time the raw key is shown. */
  datatype CreatedKey = CreatedKey(id: Id, key: string, name: string)

  /** The key `createApiKey` stores: read permission and an empty
      description by default, active, expiring a year after creation, and
      hashed. */
  function IssuedKey(user: Id, name: string, description: Option<string>, permissions: Option<seq<Permission>>,
                     generatedKey: string, now: int): ApiKey
  {
    ApiKey(user, generatedKey, Sha256(generatedKey), name,
           if description.Some? then description.value else "",
           if permissions.Some? then permissions.value else [Read],
           true, None, now + KeyLifetimeMs, now, now)
  }

  /** The `unique` index on `key` already holds this key. */
  predicate KeyTaken(keys: seq<Doc<ApiKey>>, key: string)
  {
    exists k :: 0 <= k < |keys| && keys[k].val.key == key
  }

  /** Storing a hashed key that is not yet taken keeps every stored hash the
      hash of its key and every key unique. */
  lemma IssuingKeepsKeysSound(keys: seq<Doc<ApiKey>>, id: Id, k: ApiKey)
    requires k.hashedKey == Sha256(k.key) && !KeyTaken(keys, k.key)
    ensures HashConsistent(keys) ==> HashConsistent(keys + [Doc(id, k)])
    ensures UniqueKeys(keys) ==> UniqueKeys(keys + [Doc(id, k)])
  {
    var ks := keys + [Doc(id, k)];
    assert forall i :: 0 <= i < |keys| ==> ks[i] == keys[i];
    assert ks[|keys|].val == k;
  }

  /** `createApiKey`: a document with the generated key, saved (the hash is
      computed before validation, as the pre-save rule evidently means), then
      inserted under the `unique` index on `key`. */
  method CreateApiKey(db: Db, user: Id, name: string, description: Option<string>,
                      permissions: Option<seq<Permission>>, generatedKey: string, now: int)
    returns (r: Result<CreatedKey>)
    requires db.Valid()
    modifies db`apiKeys, db`nextId
    ensures db.Valid()
    ensures r.Ok? <==> name != "" && generatedKey != "" && !KeyTaken(old(db.apiKeys), generatedKey)
    ensures r.Err? ==> db.apiKeys == old(db.apiKeys) && db.nextId == old(db.nextId)
    ensures r.Ok? ==> (r.value == CreatedKey(old(db.nextId), generatedKey, name) &&
      db.nextId == old(db.nextId) + 1 &&
      db.apiKeys == old(db.apiKeys) + [Doc(r.value.id, IssuedKey(user, name, description, permissions, generatedKey, now))])
  {
    var doc := new ApiKeyDocument(user, name, if description.Some? then description.value else "",
                                  if permissions.Some? then permissions.value else [Read], generatedKey, now);
    var saved := doc.Save(now);
    if saved.Err? {
      return Err(saved.msg);
    }
    assert saved.value == IssuedKey(user, name, description, permissions, generatedKey, now);
    var clash := FirstIndex(db.apiKeys, (d: Doc<ApiKey>) => d.val.key == generatedKey);
    if clash.Some? {
      return Err(DuplicateKey);
    }
    var id := db.InsertApiKey(saved.value);
    r := Ok(CreatedKey(id, generatedKey, name));
  }

  /** One entry of `listApiKeys`: every field but the key and its hash. */
  datatype KeySummary = KeySummary(
    id: Id, name: string, description: string, permissions: seq<Permission>,
    isActive: bool, lastUsedAt: Option<int>, createdAt: int, expiresAt: int)

  function Summarize(d: Doc<ApiKey>): KeySummary
  {
    KeySummary(d.id, d.val.name, d.val.description, d.val.permissions, d.val.isActive, d.val.lastUsedAt,
               d.val.createdAt, d.val.expiresAt)
  }

  /** `listApiKeys`: the caller's keys, summarised, in natural order. */
  function ListApiKeys(keys: seq<Doc<ApiKey>>, user: Id): (r: seq<KeySummary>)
    ensures |r| == Count(keys, (k: ApiKey) => k.user == user)
    ensures forall s :: s in r ==> exists d :: d in keys && d.val.user == user && s == Summarize(d)
    ensures forall d :: d in keys && d.val.user == user ==> Summarize(d) in r
  {
    if |keys| == 0 then []
    else
      var rest := ListApiKeys(keys[1..], user);
      assert forall d :: d in keys[1..] ==> d in keys;
      assert forall d :: d in keys ==> d == keys[0] || d in keys[1..];
      if keys[0].val.user == user then [Summarize(keys[0])] + rest else rest
  }

  /** The caller's key with this id (`findOne({ _id: keyId, user: userId })`). */
  function FindOwnKey(keys: seq<Doc<ApiKey>>, keyId: Id, user: Id): (r: Option<nat>)
    ensures r.Some? ==> r.value < |keys| && keys[r.value].id == keyId && keys[r.value].val.user == user
    ensures r.None? ==> forall k :: 0 <= k < |keys| && keys[k].id == keyId ==> keys[k].val.user != user
  {
    FirstIndex(keys, (d: Doc<ApiKey>) => d.id == keyId && d.val.user == user)
  }

  /** The keys after the one at `i` is deactivated and saved at `now`:
      `updatedAt` moves only when the key was still active. */
  function Revoked(keys: seq<Doc<ApiKey>>, i: nat, now: int): seq<Doc<ApiKey>>
    requires i < |keys|
  {
    keys[i := Doc(keys[i].id, keys[i].val.(isActive := false,
                                           updatedAt := if keys[i].val.isActive then now else keys[i].val.updatedAt))]
  }

  /** Revoking is idempotent: the same caller finds the same key again and a
      second revocation, at any later time, changes nothing (not even
      `updatedAt`, since `isActive` is already false); every other key is
      untouched. */
  lemma RevokeIdempotent(keys: seq<Doc<ApiKey>>, keyId: Id, user: Id, now: int, later: int)
    requires FindOwnKey(keys, keyId, user).Some?
    ensures var i := FindOwnKey(keys, keyId, user).value;
      FindOwnKey(Revoked(keys, i, now), keyId, user) == Some(i) &&
      Revoked(Revoked(keys, i, now), i, later) == Revoked(keys, i, now) &&
      forall k :: 0 <= k < |keys| && k != i ==> Revoked(keys, i, now)[k] == keys[k]
  {
    var i := FindOwnKey(keys, keyId, user).value;
    var p := (d: Doc<ApiKey>) => d.id == keyId && d.val.user == user;
    var after := Revoked(keys, i, now);
    assert forall j :: 0 <= j < |keys| ==> after[j].id == keys[j].id && after[j].val.user == keys[j].val.user;
    FirstIndexIs(after, p, i);
  }

  /** `revokeApiKey`: the caller's key is loaded, deactivated and saved; its
      key and hash stay, and a stored key always passes the validators. */
  method RevokeApiKey(db: Db, user: Id, keyId: Id, now: int) returns (r: Result<()>)
    requires db.Valid() && Validated(db.apiKeys)
    modifies db`apiKeys
    ensures db.Valid()
    ensures r.Err? <==> FindOwnKey(old(db.apiKeys), keyId, user).None?
    ensures r.Err? ==> r == Err(ApiKeyNotFound) && db.apiKeys == old(db.apiKeys)
    ensures r.Ok? ==> var i := FindOwnKey(old(db.apiKeys), keyId, user).value;
      db.apiKeys == Revoked(old(db.apiKeys), i, now)
  {
    var found := FindOwnKey(db.apiKeys, keyId, user);
    if found.None? {
      return Err(ApiKeyNotFound);
    }
    var i := found.value;
    var doc := new ApiKeyDocument.Load(db.apiKeys[i].val);
    doc.SetActive(false);
    var saved := doc.Save(now);
    assert saved.Ok?;
    assert saved.value == Revoked(db.apiKeys, i, now)[i].val;
    UpdateWellKeyed(db.apiKeys, db.nextId, i, saved.value);
    db.SetApiKeys(db.apiKeys[i := Doc(keyId, saved.value)]);
    r := Ok(());
  }

  /** A revoked key is never accepted again, whatever is presented. */
  lemma RevokedKeyRejected(keys: seq<Doc<ApiKey>>, i: nat, at: int, raw: string, now: int)
    requires i < |keys|
    ensures VerifyKey(Revoked(keys, i, at), raw, now) != Some(i)
  {
    RevokedOrExpiredNeverVerifies(Revoked(keys, i, at), raw, now, i);
  }

  /** The `allowedFields` of `updateUserProfile`; `bio` is not in the schema. */
  const ProfileFields := ["firstName", "lastName", "phone", "bio", "avatar"]

  /** The casts and update validators: text fields only, names of two
      characters or more once trimmed. */
  predicate ProfileUpdateOk(upd: map<string, Value>)
  {
    ("firstName" in upd ==> upd["firstName"].Text? && |Trim(upd["firstName"].s)| >= 2) &&
    ("lastName" in upd ==> upd["lastName"].Text? && |Trim(upd["lastName"].s)| >= 2) &&
    ("phone" in upd ==> upd["phone"].Text?) &&
    ("avatar" in upd ==> upd["avatar"].Text?)
  }

  /** The user after `{ ...updateData, updatedAt }`; `bio` is dropped by the
      strict schema. */
  function ApplyProfileUpdate(u: User, upd: map<string, Value>, now: int): User
    requires ProfileUpdateOk(upd)
  {
    u.(firstName := if "firstName" in upd then Trim(upd["firstName"].s) else u.firstName,
       lastName := if "lastName" in upd then Trim(upd["lastName"].s) else u.lastName,
       phone := if "phone" in upd then upd["phone"].s else u.phone,
       avatar := if "avatar" in upd then upd["avatar"].s else u.avatar,
       updatedAt := now)
  }

  /** A profile update never touches the account: email, password, role,
      activity, department and courses stay; an absent field keeps its value. */
  lemma ProfileUpdateKeepsAccount(u: User, upd: map<string, Value>, now: int)
    requires ProfileUpdateOk(upd)
    ensures var u' := ApplyProfileUpdate(u, upd, now);
      u'.email == u.email && u'.password == u.password && u'.role == u.role && u'.isActive == u.isActive &&
      u'.department == u.department && u'.enrolledCourses == u.enrolledCourses && u'.lastLogin == u.lastLogin
    ensures "firstName" !in upd ==> ApplyProfileUpdate(u, upd, now).firstName == u.firstName
    ensures "phone" in upd ==> ApplyProfileUpdate(u, upd, now).phone == upd["phone"].s
  {
  }

  /** `updateUserProfile`: the whitelist loop, the casts and validators, then
      the lookup. */
  method UpdateUserProfile(db: Db, userId: Id, data: map<string, Value>, now: int) returns (r: Result<User>)
    requires db.Valid()
    modifies db`users
    ensures db.Valid()
    ensures r.Err? ==> db.users == old(db.users)
    ensures var upd := map f | f in data && f in ProfileFields :: data[f];
      (r.Ok? <==> ProfileUpdateOk(upd) && Find(old(db.users), userId).Some?) &&
      (r == Err(UserNotFound) <==> ProfileUpdateOk(upd) && Find(old(db.users), userId).None?) &&
      (r.Ok? ==> var i := Find(old(db.users), userId).value;
        r.value == ApplyProfileUpdate(old(db.users)[i].val, upd, now) &&
        db.users == old(db.users)[i := Doc(userId, r.value)])
  {
    var upd := SelectAllowed(data, ProfileFields);
    assert upd == map f | f in data && f in ProfileFields :: data[f];
    if !ProfileUpdateOk(upd) {
      return Err(UserInvalid);
    }
    var found := Find(db.users, userId);
    if found.None? {
      return Err(UserNotFound);
    }
    var i := found.value;
    var u := ApplyProfileUpdate(db.users[i].val, upd, now);
    UpdateWellKeyed(db.users, db.nextId, i, u);
    db.SetUsers(db.users[i := Doc(userId, u)]);
    r := Ok(u);
  }
}
