/** The request guards of src/middleware/auth.js: which credential is tried,
    when a request is let through, and the role and ownership checks. The
    JWT check is a parameter `verifyJwt` (the decoded user id, or `None` when
    `jwt.verify` throws); the clock is the parameter `now`. */
module AuthMiddleware {
  import opened Common
  import opened Store
  import opened ApiKeyModel

  /** `req.authMethod`, and for an API key the stored key that was used. */
  datatype AuthMethod = Jwt | ViaApiKey(keyIndex: nat)

  /** What `authenticate` does with a request: call `next()` with `req.user`
      set, or answer with an error status. */
  datatype Outcome = Proceed(user: Id, via: AuthMethod) | Reject(status: nat, message: string)

  /** The text before the first space (`split(' ')[0]`). */
  function UntilSpace(s: string): (r: string)
    ensures |r| <= |s| && r == s[..|r|] && ' ' !in r
    ensures |r| < |s| ==> s[|r|] == ' '
  {
    if |s| == 0 || s[0] == ' ' then [] else [s[0]] + UntilSpace(s[1..])
  }

  /** The token of an `Authorization: Bearer <token>` header (section 2.1 of
      RFC 6750): present when the header is set and starts with `Bearer `,
      and then `split(' ')[1]`, the word after the first space. */
  function BearerToken(authorization: Option<string>): (r: Option<string>)
    ensures r.Some? <==> authorization.Some? && |authorization.value| >= 7 && authorization.value[..7] == "Bearer "
    ensures r.Some? ==> r.value == UntilSpace(authorization.value[7..])
  {
    if authorization.Some? && |authorization.value| >= 7 && authorization.value[..7] == "Bearer " then
      Some(UntilSpace(authorization.value[7..]))
    else None
  }

  /** `req.user` exists and is active. */
  predicate ActiveUser(users: seq<Doc<User>>, id: Id)
  {
    match Find(users, id)
    case None => false
    case Some(i) => users[i].val.isActive
  }

  /** The decision `authenticate` takes. A Bearer header is tried first, the
      `x-api-key` header only when there is none. */
  function Decide(users: seq<Doc<User>>, keys: seq<Doc<ApiKey>>, authorization: Option<string>,
                  xApiKey: Option<string>, verifyJwt: string -> Option<Id>, now: int): (o: Outcome)
    ensures o == Reject(401, "No authentication credentials provided") <==>
      BearerToken(authorization).None? && !Truthy(xApiKey)
    ensures o.Proceed? && o.via == Jwt ==>
      BearerToken(authorization).Some? && verifyJwt(BearerToken(authorization).value) == Some(o.user) &&
      ActiveUser(users, o.user)
    ensures o.Proceed? && o.via.ViaApiKey? ==>
      BearerToken(authorization).None? && Truthy(xApiKey) && VerifyKey(keys, xApiKey.value, now) == Some(o.via.keyIndex) &&
      o.user == keys[o.via.keyIndex].val.user && ActiveUser(users, o.user)
  {
    match BearerToken(authorization)
    case Some(token) =>
      (match verifyJwt(token)
       case None => Reject(401, "Invalid JWT token")
       case Some(id) =>
         if ActiveUser(users, id) then Proceed(id, Jwt) else Reject(401, "User not found or inactive"))
    case None =>
      if Truthy(xApiKey) then
        match VerifyKey(keys, xApiKey.value, now)
        case None => Reject(401, "Invalid or expired API key")
        case Some(k) =>
          var owner := keys[k].val.user;
          match Find(users, owner)
          case None => Reject(401, "Invalid API key")
          case Some(i) =>
            if users[i].val.isActive then Proceed(owner, ViaApiKey(k)) else Reject(401, "User is inactive")
      else Reject(401, "No authentication credentials provided")
  }

  /** `authenticate`: decides, and on an API-key success stamps the key's
      `lastUsedAt` and saves it (the save hook leaves the hash alone). */
  method Authenticate(db: Db, authorization: Option<string>, xApiKey: Option<string>,
                      verifyJwt: string -> Option<Id>, now: int) returns (o: Outcome)
    requires Validated(db.apiKeys)
    modifies db`apiKeys
    ensures o == Decide(db.users, old(db.apiKeys), authorization, xApiKey, verifyJwt, now)
    ensures o.Proceed? && o.via.ViaApiKey? ==>
      o.via.keyIndex < |old(db.apiKeys)| &&
      db.apiKeys == old(db.apiKeys)[o.via.keyIndex := Doc(old(db.apiKeys)[o.via.keyIndex].id,
                                       Used(old(db.apiKeys)[o.via.keyIndex].val, now))]
    ensures !(o.Proceed? && o.via.ViaApiKey?) ==> db.apiKeys == old(db.apiKeys)
  {
    o := Decide(db.users, db.apiKeys, authorization, xApiKey, verifyJwt, now);
    if o.Proceed? && o.via.ViaApiKey? {
      var k := o.via.keyIndex;
      var used := RecordUse(db.apiKeys[k].val, now);
      db.apiKeys := db.apiKeys[k := Doc(db.apiKeys[k].id, used)];
    }
  }

  /** `optionalAuth`: never answers with an error; attaches a user only when
      the credential checks out and the user is active. */
  function DecideOptional(users: seq<Doc<User>>, keys: seq<Doc<ApiKey>>, authorization: Option<string>,
                          xApiKey: Option<string>, verifyJwt: string -> Option<Id>, now: int): (r: Option<(Id, AuthMethod)>)
    ensures r.Some? ==> ActiveUser(users, r.value.0)
    ensures r.Some? && r.value.1 == Jwt ==>
      BearerToken(authorization).Some? && verifyJwt(BearerToken(authorization).value) == Some(r.value.0)
    ensures r.Some? && r.value.1.ViaApiKey? ==>
      BearerToken(authorization).None? && Truthy(xApiKey) && VerifyKey(keys, xApiKey.value, now) == Some(r.value.1.keyIndex) &&
      r.value.0 == keys[r.value.1.keyIndex].val.user
  {
    match BearerToken(authorization)
    case Some(token) =>
      (match verifyJwt(token)
       case None => None
       case Some(id) => if ActiveUser(users, id) then Some((id, Jwt)) else None)
    case None =>
      if Truthy(xApiKey) then
        match VerifyKey(keys, xApiKey.value, now)
        case None => None
        case Some(k) => if ActiveUser(users, keys[k].val.user) then Some((keys[k].val.user, ViaApiKey(k))) else None
      else None
  }

  /** `optionalAuth` attaches exactly the user `authenticate` would let
      through, and attaches nobody where `authenticate` would reject. */
  lemma OptionalAgreesWithAuthenticate(users: seq<Doc<User>>, keys: seq<Doc<ApiKey>>, authorization: Option<string>,
                                       xApiKey: Option<string>, verifyJwt: string -> Option<Id>, now: int)
    ensures DecideOptional(users, keys, authorization, xApiKey, verifyJwt, now) ==
      match Decide(users, keys, authorization, xApiKey, verifyJwt, now)
      case Proceed(u, via) => Some((u, via))
      case Reject(_, _) => None
  {
  }

  /** `optionalAuth` as a step: it always proceeds, and stamps the key it
      used exactly as `authenticate` does. */
  method OptionalAuth(db: Db, authorization: Option<string>, xApiKey: Option<string>,
                      verifyJwt: string -> Option<Id>, now: int) returns (attached: Option<(Id, AuthMethod)>)
    requires Validated(db.apiKeys)
    modifies db`apiKeys
    ensures attached == DecideOptional(db.users, old(db.apiKeys), authorization, xApiKey, verifyJwt, now)
    ensures attached.Some? && attached.value.1.ViaApiKey? ==>
      var k := attached.value.1.keyIndex;
      k < |old(db.apiKeys)| &&
      db.apiKeys == old(db.apiKeys)[k := Doc(old(db.apiKeys)[k].id, Used(old(db.apiKeys)[k].val, now))]
    ensures !(attached.Some? && attached.value.1.ViaApiKey?) ==> db.apiKeys == old(db.apiKeys)
  {
    OptionalAgreesWithAuthenticate(db.users, db.apiKeys, authorization, xApiKey, verifyJwt, now);
    var o := Authenticate(db, authorization, xApiKey, verifyJwt, now);
    attached := if o.Proceed? then Some((o.user, o.via)) else None;
  }

  /** `authenticate`'s decision as written: `User` holds the object
      `{ UserModel }` that src/models/user.model.js exports, so once a token
      verifies, `User.findById` throws and the catch answers "Invalid JWT
      token": no Bearer request is let through. The API-key branch does not
      use `User` and decides as `Decide` does. */
  function DecideAsWritten(users: seq<Doc<User>>, keys: seq<Doc<ApiKey>>, authorization: Option<string>,
                           xApiKey: Option<string>, verifyJwt: string -> Option<Id>, now: int): (o: Outcome)
    ensures BearerToken(authorization).Some? ==> o == Reject(401, "Invalid JWT token")
    ensures BearerToken(authorization).None? ==> o == Decide(users, keys, authorization, xApiKey, verifyJwt, now)
  {
    if BearerToken(authorization).Some? then Reject(401, "Invalid JWT token")
    else Decide(users, keys, authorization, xApiKey, verifyJwt, now)
  }

  /** `optionalAuth`'s decision as written: the same throw is swallowed, so
      a Bearer request proceeds with nobody attached. */
  function DecideOptionalAsWritten(users: seq<Doc<User>>, keys: seq<Doc<ApiKey>>, authorization: Option<string>,
                                   xApiKey: Option<string>, verifyJwt: string -> Option<Id>, now: int)
    : (r: Option<(Id, AuthMethod)>)
    ensures BearerToken(authorization).Some? ==> r.None?
    ensures BearerToken(authorization).None? ==> r == DecideOptional(users, keys, authorization, xApiKey, verifyJwt, now)
  {
    if BearerToken(authorization).Some? then None
    else DecideOptional(users, keys, authorization, xApiKey, verifyJwt, now)
  }

  /** A valid token of an active user: the corrected middleware lets the
      request through (and `optionalAuth` attaches the user), while as
      written it is refused (and nobody is attached). */
  lemma JwtRefusedAsWritten(users: seq<Doc<User>>, keys: seq<Doc<ApiKey>>, authorization: Option<string>,
                            xApiKey: Option<string>, verifyJwt: string -> Option<Id>, now: int)
    requires BearerToken(authorization).Some? && verifyJwt(BearerToken(authorization).value).Some?
    requires ActiveUser(users, verifyJwt(BearerToken(authorization).value).value)
    ensures Decide(users, keys, authorization, xApiKey, verifyJwt, now) ==
      Proceed(verifyJwt(BearerToken(authorization).value).value, Jwt)
    ensures DecideOptional(users, keys, authorization, xApiKey, verifyJwt, now) ==
      Some((verifyJwt(BearerToken(authorization).value).value, Jwt))
    ensures DecideAsWritten(users, keys, authorization, xApiKey, verifyJwt, now) == Reject(401, "Invalid JWT token")
    ensures DecideOptionalAsWritten(users, keys, authorization, xApiKey, verifyJwt, now).None?
  {
  }

  /** Whoever `authenticate` lets through is a stored, active user; every
      refusal is a 401. */
  lemma ProceedOnlyForActiveUsers(users: seq<Doc<User>>, keys: seq<Doc<ApiKey>>, authorization: Option<string>,
                                  xApiKey: Option<string>, verifyJwt: string -> Option<Id>, now: int)
    ensures match Decide(users, keys, authorization, xApiKey, verifyJwt, now)
      case Proceed(u, _) => exists i :: 0 <= i < |users| && users[i].id == u && users[i].val.isActive
      case Reject(status, _) => status == 401
  {
    match Decide(users, keys, authorization, xApiKey, verifyJwt, now)
    case Proceed(u, _) =>
      var i := Find(users, u).value;
      assert users[i].id == u && users[i].val.isActive;
    case Reject(_, _) =>
  }

  /** With a Bearer header the API-key header is never consulted: the
      decision does not depend on it and never goes through a key. */
  lemma BearerTakesPrecedence(users: seq<Doc<User>>, keys: seq<Doc<ApiKey>>, authorization: Option<string>,
                              x1: Option<string>, x2: Option<string>, verifyJwt: string -> Option<Id>, now: int)
    requires BearerToken(authorization).Some?
    ensures Decide(users, keys, authorization, x1, verifyJwt, now) == Decide(users, keys, authorization, x2, verifyJwt, now)
    ensures Decide(users, keys, authorization, x1, verifyJwt, now).Proceed? ==>
      Decide(users, keys, authorization, x1, verifyJwt, now).via == Jwt
  {
  }

  /** With neither credential the answer is 401 "No authentication credentials provided". */
  lemma NoCredentialsRejected(users: seq<Doc<User>>, keys: seq<Doc<ApiKey>>, authorization: Option<string>,
                              xApiKey: Option<string>, verifyJwt: string -> Option<Id>, now: int)
    requires BearerToken(authorization).None? && !Truthy(xApiKey)
    ensures Decide(users, keys, authorization, xApiKey, verifyJwt, now) == Reject(401, "No authentication credentials provided")
  {
  }

  /** A key that is revoked never authenticates a request. */
  lemma RevokedKeyNeverAuthenticates(users: seq<Doc<User>>, keys: seq<Doc<ApiKey>>, authorization: Option<string>,
                                     xApiKey: Option<string>, verifyJwt: string -> Option<Id>, now: int, k: nat)
    requires k < |keys| && !keys[k].val.isActive
    ensures Decide(users, keys, authorization, xApiKey, verifyJwt, now) != Proceed(keys[k].val.user, ViaApiKey(k))
  {
    if Truthy(xApiKey) {
      RevokedOrExpiredNeverVerifies(keys, xApiKey.value, now, k);
    }
  }

  /** `req.user` as the guards see it. */
  datatype AuthUser = AuthUser(id: Id, role: Role)

  /** A guard lets the request through or answers with an error. */
  datatype Guard = Pass | Deny(status: nat, message: string)

  /** `checkRole(allowedRoles)`. */
  function CheckRole(allowedRoles: seq<Role>, user: Option<AuthUser>): (g: Guard)
    ensures g == Pass <==> user.Some? && user.value.role in allowedRoles
    ensures g == Deny(401, "Not authenticated") <==> user.None?
    ensures g == Deny(403, "Insufficient permissions") <==> user.Some? && user.value.role !in allowedRoles
  {
    if user.None? then Deny(401, "Not authenticated")
    else if user.value.role !in allowedRoles then Deny(403, "Insufficient permissions")
    else Pass
  }

  /** `checkOwnershipOrAdmin(paramName)`; `targetId` is `req.params[paramName]`,
      `None` when the route has no such parameter. */
  function CheckOwnershipOrAdmin(user: Option<AuthUser>, targetId: Option<Id>): (g: Guard)
    ensures g == Pass <==> user.Some? && (targetId == Some(user.value.id) || user.value.role == Admin)
    ensures g == Deny(401, "Not authenticated") <==> user.None?
    ensures g == Deny(403, "Access denied") <==>
      user.Some? && targetId != Some(user.value.id) && user.value.role != Admin
  {
    if user.None? then Deny(401, "Not authenticated")
    else if targetId != Some(user.value.id) && user.value.role != Admin then Deny(403, "Access denied")
    else Pass
  }
}
