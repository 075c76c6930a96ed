/** The authentication and authorisation middleware: reading the bearer
    token, turning a verified token into `req.user` from the live records,
    the role check, and the tenant-isolation step. The JWT library's
    verification is a parameter. */
module AuthGuard {
  import opened Wrappers
  import opened Strings
  import opened ObjectIds
  import opened Constants
  import opened Models
  import opened Http
  import opened Store

  // ---------------------------------------------------------------------
  // Bearer token

  function SpaceIndex(s: string): Option<nat> {
    FirstIndex(s, (c: char) => c == ' ')
  }

  /** The text before the first space (all of it when there is none). */
  function FirstField(s: string): (r: string)
    ensures |r| <= |s| && r == s[..|r|]
    ensures forall k :: 0 <= k < |r| ==> r[k] != ' '
  {
    match SpaceIndex(s)
    case None => s
    case Some(i) => s[..i]
  }

  /** `authHeader && authHeader.split(' ')[1]`, refused by `!token` when it
      is missing or empty: the second space-separated field. The first field
      (the scheme word) is never looked at. */
  function ExtractToken(header: Option<string>): (r: Option<string>)
    ensures r.Some? ==> r.value != [] && forall k :: 0 <= k < |r.value| ==> r.value[k] != ' '
  {
    match header
    case None => None
    case Some(h) =>
      match SpaceIndex(h)
      case None => None
      case Some(i) =>
        var token := FirstField(h[i + 1..]);
        if token == [] then None else Some(token)
  }

  /** Whatever the scheme word, the token after it is what is extracted; a
      header without a space carries no token. */
  lemma ExtractTokenAnyScheme(scheme: string, token: string, rest: string)
    requires forall k :: 0 <= k < |scheme| ==> scheme[k] != ' '
    requires forall k :: 0 <= k < |token| ==> token[k] != ' '
    requires token != [] && (rest == [] || rest[0] == ' ')
    ensures ExtractToken(Some(scheme + " " + token + rest)) == Some(token)
  {
    var h := scheme + " " + token + rest;
    assert h[|scheme|] == ' ';
    var i := SpaceIndex(h);
    assert i == Some(|scheme|) by {
      assert forall k :: 0 <= k < |scheme| ==> h[k] == scheme[k];
    }
    var after := h[|scheme| + 1..];
    assert after == token + rest;
    if rest == [] {
      assert SpaceIndex(after).None? by {
        assert forall k :: 0 <= k < |after| ==> after[k] == token[k];
      }
    } else {
      assert after[|token|] == ' ';
      assert SpaceIndex(after) == Some(|token|) by {
        assert forall k :: 0 <= k < |token| ==> after[k] == token[k];
      }
      assert after[..|token|] == token;
    }
  }

  lemma ExtractTokenNeedsSpace(h: string)
    requires forall k :: 0 <= k < |h| ==> h[k] != ' '
    ensures ExtractToken(Some(h)).None?
  {
  }

  // ---------------------------------------------------------------------
  // authenticateToken

  /** What `jwt.verify` yields: the payload's `userId` claim (None when the
      payload has none), or the name of the error it throws. */
  datatype Verified = Decoded(userId: Option<string>) | VerifyError(name: string)

  /** The middleware's outcome: `req.user` and `next()`, or a response. */
  datatype AuthOutcome = Authenticated(caller: ReqUser) | Refused(response: Response)

  const TokenRequired: Response := Failure(401, "Access token required", "Please provide a valid authentication token")
  const UserNotFound: Response := Failure(401, "Invalid token", "User not found")
  const TokenMalformed: Response := Failure(401, "Invalid token", "Token is malformed or invalid")
  const TokenExpired: Response := Failure(401, "Token expired", "Please login again")
  const AuthenticationError: Response := Failure(500, "Authentication failed", "Internal server error")

  /** The catch block: the two JWT error names answer 401, anything else 500. */
  function VerifyErrorResponse(name: string): (r: Response)
    ensures r.status == 401 <==> name == "JsonWebTokenError" || name == "TokenExpiredError"
    ensures r.status == 500 <==> !(name == "JsonWebTokenError" || name == "TokenExpiredError")
  {
    if name == "JsonWebTokenError" then TokenMalformed
    else if name == "TokenExpiredError" then TokenExpired
    else AuthenticationError
  }

  /** `authenticateToken` on the store as it is: token, verification, the
      user by id, then its tenant. A `userId` that is not an ObjectId makes
      `findById` throw a cast error, and a user whose tenant is gone makes
      the read of `tenant_id._id` throw; both land in the catch block's 500. */
  function Authenticate(db: Db, header: Option<string>, verify: string -> Verified): (r: AuthOutcome)
    ensures r.Authenticated? ==> IsCaller(db, r.caller)
    ensures ExtractToken(header).None? ==> r == Refused(TokenRequired)
    ensures r.Refused? ==> r.response.status == 401 || r.response.status == 500
  {
    match ExtractToken(header)
    case None => Refused(TokenRequired)
    case Some(token) =>
      match verify(token)
      case VerifyError(name) => Refused(VerifyErrorResponse(name))
      case Decoded(None) => Refused(UserNotFound)
      case Decoded(Some(userId)) =>
        match CastObjectId(userId)
        case None => Refused(AuthenticationError)
        case Some(id) =>
          match FindUser(db.users, id)
          case None => Refused(UserNotFound)
          case Some(u) =>
            match FindTenant(db.tenants, u.tenantId)
            case None => Refused(AuthenticationError)
            case Some(t) => Authenticated(CallerFor(u, t))
  }

  /** A token naming a user that is no longer stored is refused with 401. */
  lemma DeletedUserRefused(db: Db, header: Option<string>, verify: string -> Verified, id: ObjectId)
    requires ExtractToken(header).Some? && verify(ExtractToken(header).value) == Decoded(Some(ObjectIdString(id)))
    requires forall u :: u in db.users ==> u.id != id
    ensures Authenticate(db, header, verify) == Refused(UserNotFound)
  {
    CastOfString(id);
  }

  /** The caller's plan, slug and name are read from the tenant record, so
      a token issued before an upgrade authenticates with the new plan. */
  lemma PlanFromRecord(db: Db, header: Option<string>, verify: string -> Verified, u: User, t: Tenant)
    requires ExtractToken(header).Some? && verify(ExtractToken(header).value) == Decoded(Some(ObjectIdString(u.id)))
    requires UsersOk(db.users) && TenantsOk(db.tenants) && u in db.users && t in db.tenants && u.tenantId == t.id
    ensures Authenticate(db, header, verify) == Authenticated(CallerFor(u, t))
  {
    CastOfString(u.id);
    var i :| 0 <= i < |db.users| && db.users[i] == u;
    var k := FirstIndex(db.users, (x: User) => x.id == u.id);
    assert k.Some? && k.value <= i;
    FindTenantUnique(db.tenants, t);
  }

  /** The middleware on a request: on success `req.user` is set and the
      chain goes on; otherwise the response is sent and `req.user` is left. */
  method AuthenticateToken(req: Request, store: Database, verify: string -> Verified) returns (next: Next)
    modifies req`user
    ensures var outcome := Authenticate(store.Value(), req.authorization, verify);
            match outcome
            case Authenticated(c) => next == Continue && req.user == Some(c)
            case Refused(resp) => next == Halt(resp) && req.user == old(req.user)
  {
    var token := ExtractToken(req.authorization);
    if token.None? {
      return Halt(TokenRequired);
    }
    var decoded := verify(token.value);
    if decoded.VerifyError? {
      return Halt(VerifyErrorResponse(decoded.name));
    }
    if decoded.userId.None? {
      return Halt(UserNotFound);
    }
    var id := CastObjectId(decoded.userId.value);
    if id.None? {
      return Halt(AuthenticationError);
    }
    var user := FindUser(store.users, id.value);
    if user.None? {
      return Halt(UserNotFound);
    }
    var tenant := FindTenant(store.tenants, user.value.tenantId);
    if tenant.None? {
      return Halt(AuthenticationError);
    }
    req.user := Some(CallerFor(user.value, tenant.value));
    return Continue;
  }

  // ---------------------------------------------------------------------
  // requireRole

  /** `requireRole`'s argument: a single role string or an array of them. */
  datatype RequiredRoles = OneRole(role: string) | RoleList(roles: seq<string>)

  /** `Array.isArray(requiredRoles) ? requiredRoles : [requiredRoles]`. */
  function RolesArray(required: RequiredRoles): seq<string> {
    match required
    case OneRole(r) => [r]
    case RoleList(rs) => rs
  }

  const AuthRequired: Response := Failure(401, "Authentication required", "Please login to access this resource")

  const RolesMessagePrefix: string := "This action requires one of the following roles: "

  /** `requireRole(requiredRoles)` applied to `req.user`. */
  function RequireRole(required: RequiredRoles, user: Option<ReqUser>): (r: Next)
    ensures user.None? ==> r == Halt(AuthRequired)
    ensures user.Some? ==> (r.Continue? <==> RoleName(user.value.role) in RolesArray(required))
    ensures r.Halt? && user.Some? ==> r.response.status == 403
  {
    if user.None? then Halt(AuthRequired)
    else
      var roles := RolesArray(required);
      if RoleName(user.value.role) !in roles then
        Halt(Failure(403, "Insufficient permissions", RolesMessagePrefix + Join(roles, ", ")))
      else Continue
  }

  /** `requireAdmin = requireRole('admin')`. */
  const AdminOnly: RequiredRoles := OneRole("admin")

  /** `requireMemberOrAdmin = requireRole(['member', 'admin'])`. */
  const MemberOrAdmin: RequiredRoles := RoleList(["member", "admin"])

  /** requireAdmin lets through exactly the authenticated admins, and tells
      the others which role is needed. */
  lemma RequireAdminAdmits(user: Option<ReqUser>)
    ensures RequireRole(AdminOnly, user).Continue? <==> user.Some? && user.value.role == Admin
    ensures user.Some? && user.value.role == Member ==>
              RequireRole(AdminOnly, user) == Halt(Failure(403, "Insufficient permissions", RolesMessagePrefix + "admin"))
  {
    assert RolesArray(AdminOnly) == ["admin"];
    assert Join(["admin"], ", ") == "admin";
  }

  /** requireMemberOrAdmin lets through every authenticated caller, whatever
      the role, and refuses only the unauthenticated. */
  lemma RequireMemberOrAdminAdmits(user: Option<ReqUser>)
    ensures RequireRole(MemberOrAdmin, user).Continue? <==> user.Some?
  {
    assert RolesArray(MemberOrAdmin) == ["member", "admin"];
  }

  /** A single role string behaves as the one-element list. */
  lemma SingleRoleIsList(role: string, user: Option<ReqUser>)
    ensures RequireRole(OneRole(role), user) == RequireRole(RoleList([role]), user)
  {
  }

  // ---------------------------------------------------------------------
  // enforceTenantIsolation

  /** `enforceTenantIsolation`: 401 without `req.user`; otherwise the tenant
      of every later query is the caller's. */
  function TenantIsolation(user: Option<ReqUser>): (r: (Next, Option<ObjectId>))
    ensures r.0.Continue? <==> user.Some?
    ensures user.None? ==> r.0 == Halt(AuthRequired)
    ensures user.Some? ==> r.1 == Some(user.value.tenantId)
  {
    if user.None? then (Halt(AuthRequired), None)
    else (Continue, Some(user.value.tenantId))
  }

  method EnforceTenantIsolation(req: Request) returns (next: Next)
    modifies req`tenantId
    ensures next == TenantIsolation(req.user).0
    ensures next.Continue? ==> req.tenantId == TenantIsolation(req.user).1
    ensures next.Halt? ==> req.tenantId == old(req.tenantId)
  {
    if req.user.None? {
      return Halt(AuthRequired);
    }
    req.tenantId := Some(req.user.value.tenantId);
    return Continue;
  }
}
