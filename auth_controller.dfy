/** The authentication handlers: login with e-mail and password, issuing a
    token; logout, which the server does not track; and the profile and
    token-check endpoints, which answer with the caller the middleware
    built. The JWT library's signing is a parameter. */
module AuthController {
  import opened Wrappers
  import opened Strings
  import opened ObjectIds
  import opened Constants
  import opened Models
  import opened Http
  import opened Validation
  import opened Store
  import opened AuthGuard

  // ---------------------------------------------------------------------
  // generateToken

  /** The tenant as populated into the user's `tenant_id` claim. */
  datatype TenantClaim = TenantClaim(id: ObjectId, slug: string, name: string, plan: Plan)

  /** The token payload, and the `expiresIn` option in seconds. */
  datatype Claims = Claims(userId: ObjectId, email: string, role: Role, tenant: Option<TenantClaim>, expiresIn: nat)

  /** `JWT_EXPIRY = '24h'`. */
  const TokenExpirySeconds: nat := 24 * 60 * 60

  function TenantClaimOf(t: Tenant): TenantClaim {
    TenantClaim(t.id, t.slug, t.name, t.plan)
  }

  /** `generateToken(user)`'s payload: the user's id, address and role, and
      its populated tenant (null when the tenant is gone), valid for a day. */
  function TokenClaims(u: User, t: Option<Tenant>): (c: Claims)
    ensures c.userId == u.id && c.email == u.email && c.role == u.role && c.expiresIn == 86400
    ensures c.tenant.Some? <==> t.Some?
    ensures t.Some? ==> c.tenant.value.id == t.value.id && c.tenant.value.plan == t.value.plan
  {
    Claims(u.id, u.email, u.role, if t.Some? then Some(TenantClaimOf(t.value)) else None, TokenExpirySeconds)
  }

  function GenerateToken(u: User, t: Option<Tenant>, sign: Claims -> string): string {
    sign(TokenClaims(u, t))
  }

  // ---------------------------------------------------------------------
  // login

  const LoginFailed: Response := Failure(401, "Authentication failed", "Invalid email or password")
  const LoginError: Response := Failure(500, "Internal Server Error", "Login failed due to server error")

  /** The address looked up: `email.toLowerCase()`, then the schema's setters. */
  function LoginEmail(body: Body): string {
    NormalizeEmail(ToLower(GetString(body, "email").GetOr("")))
  }

  function LoginPassword(body: Body): string {
    GetString(body, "password").GetOr("")
  }

  /** `User.findOne({ email })`: the first stored user with that address,
      whatever its tenant. */
  function FindUserByEmail(us: seq<User>, email: string): (r: Option<User>)
    ensures r.Some? ==> r.value in us && r.value.email == email
    ensures r.None? <==> forall u :: u in us ==> u.email != email
  {
    match UserByEmailIndex(us, email)
    case None => None
    case Some(i) => Some(us[i])
  }

  function LoginSpec(db: Db, body: Body, isEmail: string -> bool, hash: string -> string, sign: Claims -> string): Response {
    match ValidateLoginInput(body, isEmail)
    case Invalid(_, message) => ValidationFailure(message)
    case Valid(_) =>
      match FindUserByEmail(db.users, LoginEmail(body))
      case None => LoginFailed
      case Some(u) =>
        if !ComparePassword(LoginPassword(body), u, hash) then LoginFailed
        else
          match FindTenant(db.tenants, u.tenantId)
          case None => LoginError
          case Some(t) =>
            Success(200, "Login successful", LoginResult(GenerateToken(u, Some(t), sign), CallerFor(u, t)))
  }

  /** Malformed credentials are refused with 400 before the store is read. */
  lemma LoginInvalidInput(db: Db, other: Db, body: Body, isEmail: string -> bool, hash: string -> string, sign: Claims -> string)
    requires !(EmailOk(Get(body, "email"), isEmail) && PasswordOk(Get(body, "password")) && OnlyKeys(body, {"email", "password"}))
    ensures LoginSpec(db, body, isEmail, hash, sign).status == 400
    ensures LoginSpec(db, body, isEmail, hash, sign) == LoginSpec(other, body, isEmail, hash, sign)
  {
  }

  /** An unknown address and a wrong password get the same 401, so the
      answer does not tell which one was wrong. */
  lemma LoginFailuresAlike(db: Db, body: Body, isEmail: string -> bool, hash: string -> string, sign: Claims -> string)
    requires ValidateLoginInput(body, isEmail).Valid?
    ensures (forall u :: u in db.users ==> u.email != LoginEmail(body)) ==> LoginSpec(db, body, isEmail, hash, sign) == LoginFailed
    ensures FindUserByEmail(db.users, LoginEmail(body)).Some? && !ComparePassword(LoginPassword(body), FindUserByEmail(db.users, LoginEmail(body)).value, hash)
            ==> LoginSpec(db, body, isEmail, hash, sign) == LoginFailed
  {
  }

  /** A successful login answers for a stored user with that address and
      that password, in a stored tenant; on a valid store the caller it
      returns is the one the middleware would build, and the token carries
      the same user and tenant. */
  lemma LoginSucceeds(db: Db, body: Body, isEmail: string -> bool, hash: string -> string, sign: Claims -> string)
    requires UsersOk(db.users) && TenantsOk(db.tenants)
    requires LoginSpec(db, body, isEmail, hash, sign).status == 200
    ensures var r := LoginSpec(db, body, isEmail, hash, sign);
            && r.payload.LoginResult?
            && IsCaller(db, r.payload.caller)
            && r.payload.caller.email == LoginEmail(body)
            && exists u, t :: u in db.users && t in db.tenants && u.tenantId == t.id
                 && ComparePassword(LoginPassword(body), u, hash)
                 && r.payload.caller == CallerFor(u, t)
                 && r.payload.token == sign(TokenClaims(u, Some(t)))
  {
    var u := FindUserByEmail(db.users, LoginEmail(body)).value;
    var t := FindTenant(db.tenants, u.tenantId).value;
    FindUserUnique(db.users, u);
    FindTenantUnique(db.tenants, t);
  }

  /** The address is looked up across all tenants and the first stored
      record wins: when a later record in another tenant has the same
      address, its password never logs in while the earlier one differs. */
  lemma LoginFirstRecordWins(db: Db, body: Body, isEmail: string -> bool, hash: string -> string, sign: Claims -> string, i: nat, j: nat)
    requires ValidateLoginInput(body, isEmail).Valid?
    requires i < j < |db.users| && db.users[i].email == LoginEmail(body) && db.users[j].email == LoginEmail(body)
    requires forall m :: 0 <= m < i ==> db.users[m].email != LoginEmail(body)
    requires ComparePassword(LoginPassword(body), db.users[j], hash)
    requires !ComparePassword(LoginPassword(body), db.users[i], hash)
    ensures LoginSpec(db, body, isEmail, hash, sign) == LoginFailed
  {
    FirstWithEmail(db.users, LoginEmail(body), i);
  }

  /** `findOne({ email })` returns the earliest record with that address. */
  lemma FirstWithEmail(us: seq<User>, email: string, i: nat)
    requires i < |us| && us[i].email == email
    requires forall m :: 0 <= m < i ==> us[m].email != email
    ensures FindUserByEmail(us, email) == Some(us[i])
  {
    var k := UserByEmailIndex(us, email);
    assert k == Some(i);
  }

  /** A token without spaces whose verification yields the id of stored
      user `u`, sent as `Bearer <token>`, authenticates as `u` in its tenant. */
  lemma BearerTokenAuthenticates(db: Db, token: string, verify: string -> Verified, u: User, t: Tenant)
    requires UsersOk(db.users) && TenantsOk(db.tenants) && u in db.users && t in db.tenants && u.tenantId == t.id
    requires token != [] && forall k :: 0 <= k < |token| ==> token[k] != ' '
    requires verify(token) == Decoded(Some(ObjectIdString(u.id)))
    ensures Authenticate(db, Some("Bearer " + token), verify) == Authenticated(CallerFor(u, t))
  {
    ExtractTokenAnyScheme("Bearer", token, "");
    assert "Bearer" + " " + token + "" == "Bearer " + token;
    PlanFromRecord(db, Some("Bearer " + token), verify, u, t);
  }

  /** A token from a successful login, sent back as `Bearer <token>`,
      authenticates as the same caller, when verification returns the
      signed user id and the token has no space in it. */
  lemma LoginThenAuthenticate(db: Db, body: Body, isEmail: string -> bool, hash: string -> string,
                              sign: Claims -> string, verify: string -> Verified)
    requires DbValid(db)
    requires LoginSpec(db, body, isEmail, hash, sign).payload.LoginResult?
    requires forall c :: verify(sign(c)) == Decoded(Some(ObjectIdString(c.userId)))
    requires var token := LoginSpec(db, body, isEmail, hash, sign).payload.token;
             token != [] && forall k :: 0 <= k < |token| ==> token[k] != ' '
    ensures var r := LoginSpec(db, body, isEmail, hash, sign);
            Authenticate(db, Some("Bearer " + r.payload.token), verify) == Authenticated(r.payload.caller)
  {
    var u := FindUserByEmail(db.users, LoginEmail(body)).value;
    var t := FindTenant(db.tenants, u.tenantId).value;
    var c := TokenClaims(u, Some(t));
    assert LoginSpec(db, body, isEmail, hash, sign) == Success(200, "Login successful", LoginResult(sign(c), CallerFor(u, t)));
    assert verify(sign(c)) == Decoded(Some(ObjectIdString(u.id)));
    BearerTokenAuthenticates(db, sign(c), verify, u, t);
  }

  // ---------------------------------------------------------------------
  // logout, getProfile, verifyToken

  /** `logout`: the server keeps no session, so nothing changes and the
      client is told to drop its token. */
  function LogoutSpec(db: Db): (r: (Response, Db))
    ensures r.1 == db && r.0.status == 200 && r.0.payload == Notice("Please remove the token from client storage")
  {
    (Success(200, "Logout successful", Notice("Please remove the token from client storage")), db)
  }

  /** A token stays as good after logout as before. */
  lemma LogoutKeepsTokens(db: Db, header: Option<string>, verify: string -> Verified)
    ensures Authenticate(LogoutSpec(db).1, header, verify) == Authenticate(db, header, verify)
  {
  }

  /** `getProfile`: `req.user` as the middleware set it. */
  function GetProfile(caller: ReqUser): Response {
    Success(200, "", Profile(caller))
  }

  /** `verifyToken`: reaching the handler means the token was accepted. */
  function VerifyTokenSpec(caller: ReqUser): Response {
    Success(200, "", TokenValid(true, caller))
  }

  /** Behind the middleware, the profile is the stored user with its stored
      tenant, and the token check answers valid for the same caller. */
  lemma ProfileIsStoredCaller(db: Db, header: Option<string>, verify: string -> Verified)
    requires Authenticate(db, header, verify).Authenticated?
    ensures var c := Authenticate(db, header, verify).caller;
            && IsCaller(db, c)
            && GetProfile(c).payload == Profile(c)
            && VerifyTokenSpec(c).payload == TokenValid(true, c)
  {
  }
}
