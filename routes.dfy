/** The routers the application mounts and the dispatch around them. Each
    router is a fixed guard chain followed by an endpoint table; the
    application picks the router by the first path segment, runs the
    router's guards, then the guards of the first endpoint whose verb and
    path match, and hands the request to that endpoint's handler. A
    request that no endpoint takes falls through to the catch-all 404,
    after the router's own guards have run. */
module Routes {
  import opened Wrappers
  import opened ObjectIds
  import opened Constants
  import opened Models
  import opened Http
  import opened Store
  import opened AuthGuard
  import opened ErrorMapper

  datatype Verb = GET | POST | PUT | DELETE

  /** The middleware a route can run before its handler. */
  datatype Guard = TokenGuard | AdminGuard | MemberOrAdminGuard | IsolationGuard

  /** The handlers the routers name, with the path parameters they read. */
  datatype Handler =
    | CreateNote | ListNotes | ReadNote(id: string) | EditNote(id: string) | RemoveNote(id: string)
    | InviteUser | ListTenantUsers | ChangeUserRole(userId: string) | RemoveUser(userId: string)
    | ShowTenant(slug: string) | Upgrade(slug: string) | ShowStats(slug: string)
    | Login | Logout | ShowProfile | VerifyToken
    | Health | DetailedHealth | Root

  datatype Router = NotesRouter | UsersRouter | TenantsRouter | AuthRouter | HealthRouter

  /** The mount points, by the first segment of the path. */
  function Mounted(segment: string): (r: Option<Router>)
    ensures r.Some? <==> segment in {"health", "auth", "notes", "tenants", "users"}
  {
    if segment == "health" then Some(HealthRouter)
    else if segment == "auth" then Some(AuthRouter)
    else if segment == "notes" then Some(NotesRouter)
    else if segment == "tenants" then Some(TenantsRouter)
    else if segment == "users" then Some(UsersRouter)
    else None
  }

  /** The `router.use` chain each router runs before any of its routes. */
  function RouterGuards(r: Router): seq<Guard> {
    match r
    case NotesRouter => [TokenGuard, MemberOrAdminGuard, IsolationGuard]
    case UsersRouter => [TokenGuard, AdminGuard, IsolationGuard]
    case TenantsRouter => [TokenGuard, IsolationGuard]
    case AuthRouter => []
    case HealthRouter => []
  }

  /** A `:param` segment: any non-empty segment. */
  predicate Param(segment: string) {
    segment != ""
  }

  /** Each router's endpoint table: for a verb and the path below the mount
      point, the handler and the guards registered on that one route. */
  function Endpoint(r: Router, verb: Verb, path: seq<string>): Option<(Handler, seq<Guard>)> {
    match r
    case NotesRouter =>
      if path == [] && verb == POST then Some((CreateNote, []))
      else if path == [] && verb == GET then Some((ListNotes, []))
      else if |path| == 1 && Param(path[0]) && verb == GET then Some((ReadNote(path[0]), []))
      else if |path| == 1 && Param(path[0]) && verb == PUT then Some((EditNote(path[0]), []))
      else if |path| == 1 && Param(path[0]) && verb == DELETE then Some((RemoveNote(path[0]), []))
      else None
    case UsersRouter =>
      if path == ["invite"] && verb == POST then Some((InviteUser, []))
      else if path == [] && verb == GET then Some((ListTenantUsers, []))
      else if |path| == 2 && Param(path[0]) && path[1] == "role" && verb == PUT then Some((ChangeUserRole(path[0]), []))
      else if |path| == 1 && Param(path[0]) && verb == DELETE then Some((RemoveUser(path[0]), []))
      else None
    case TenantsRouter =>
      if |path| == 1 && Param(path[0]) && verb == GET then Some((ShowTenant(path[0]), []))
      else if |path| == 2 && Param(path[0]) && path[1] == "upgrade" && verb == POST then Some((Upgrade(path[0]), [AdminGuard]))
      else if |path| == 2 && Param(path[0]) && path[1] == "stats" && verb == GET then Some((ShowStats(path[0]), [AdminGuard]))
      else None
    case AuthRouter =>
      if path == ["login"] && verb == POST then Some((Login, []))
      else if path == ["logout"] && verb == POST then Some((Logout, []))
      else if path == ["profile"] && verb == GET then Some((ShowProfile, [TokenGuard]))
      else if path == ["verify"] && verb == GET then Some((VerifyToken, [TokenGuard]))
      else None
    case HealthRouter =>
      if path == [] && verb == GET then Some((Health, []))
      else if path == ["detailed"] && verb == GET then Some((DetailedHealth, []))
      else None
  }
  /** Where a request goes: the router's own guards, the guards registered
      on the matched route, and the handler that follows them, or None for
      the catch-all 404. */
  datatype Target = Target(routerGuards: seq<Guard>, routeGuards: seq<Guard>, handler: Option<Handler>)

  function Resolve(verb: Verb, path: seq<string>): (r: Target)
    ensures path != [] && Mounted(path[0]).Some? ==> r.routerGuards == RouterGuards(Mounted(path[0]).value)
    ensures path == [] || Mounted(path[0]).None? ==> r.routerGuards == [] && r.routeGuards == []
    ensures r.handler.None? ==> r.routeGuards == []
  {
    if path == [] then Target([], [], if verb == GET then Some(Root) else None)
    else
      match Mounted(path[0])
      case None => Target([], [], None)
      case Some(router) =>
        match Endpoint(router, verb, path[1..])
        case None => Target(RouterGuards(router), [], None)
        case Some((h, gs)) => Target(RouterGuards(router), gs, Some(h))
  }

  // ---------------------------------------------------------------------
  // Running the guards

  /** What the guards have set on the request so far. */
  datatype Chain = Chain(user: Option<ReqUser>, tenantId: Option<ObjectId>)

  /** One middleware on the request as the chain has left it. The token
      check's verdict on this request (`Authenticate` on the store, the
      header and the JWT verification) is a parameter: every token guard of
      one request reaches the same one. */
  function RunGuard(auth: AuthOutcome, g: Guard, st: Chain): (Next, Chain) {
    match g
    case TokenGuard =>
      (match auth
       case Authenticated(c) => (Continue, st.(user := Some(c)))
       case Refused(resp) => (Halt(resp), st))
    case AdminGuard => (RequireRole(AdminOnly, st.user), st)
    case MemberOrAdminGuard => (RequireRole(MemberOrAdmin, st.user), st)
    case IsolationGuard =>
      var (next, tenantId) := TenantIsolation(st.user);
      (next, if next.Continue? then st.(tenantId := tenantId) else st)
  }

  /** The guards in order, stopping at the first that answers. */
  function RunGuards(auth: AuthOutcome, gs: seq<Guard>, st: Chain): (Next, Chain)
    decreases |gs|
  {
    if gs == [] then (Continue, st)
    else
      var (next, st1) := RunGuard(auth, gs[0], st);
      if next.Halt? then (next, st1) else RunGuards(auth, gs[1..], st1)
  }

  /** What the application does with a request: a handler reached with the
      request as the guards left it, or a response sent on the way. */
  datatype Outcome = Handled(handler: Handler, user: Option<ReqUser>, tenantId: Option<ObjectId>) | Answered(response: Response)

  /** After the guards: the handler, or the catch-all 404. */
  function Finish(handler: Option<Handler>, next: Next, st: Chain, originalUrl: string): Outcome {
    if next.Halt? then Answered(next.response)
    else
      match handler
      case None => Answered(NotFound(originalUrl))
      case Some(h) => Handled(h, st.user, st.tenantId)
  }

  function Dispatch(auth: AuthOutcome, verb: Verb, path: seq<string>, originalUrl: string): (r: Outcome)
    ensures r.Handled? ==> Resolve(verb, path).handler == Some(r.handler)
    ensures Resolve(verb, path).routerGuards + Resolve(verb, path).routeGuards == [] ==>
              r == (match Resolve(verb, path).handler
                    case Some(h) => Handled(h, None, None)
                    case None => Answered(NotFound(originalUrl)))
  {
    var target := Resolve(verb, path);
    var (next, st) := RunGuards(auth, target.routerGuards + target.routeGuards, Chain(None, None));
    Finish(target.handler, next, st, originalUrl)
  }

  // ---------------------------------------------------------------------
  // The guard chains of the three protected routers

  /** Unfolding the chain one guard at a time. */
  lemma RunGuardsCons(auth: AuthOutcome, g: Guard, gs: seq<Guard>, st: Chain)
    ensures RunGuards(auth, [g] + gs, st) ==
            (var (next, st1) := RunGuard(auth, g, st);
             if next.Halt? then (next, st1) else RunGuards(auth, gs, st1))
  {
    assert ([g] + gs)[0] == g && ([g] + gs)[1..] == gs;
  }

  /** The notes chain (token, member-or-admin, isolation) lets through
      exactly the authenticated callers, whatever their role, and leaves
      the caller and the caller's tenant on the request. */
  lemma NotesChain(auth: AuthOutcome, more: seq<Guard>, st: Chain)
    ensures var (next, st1) := RunGuards(auth, RouterGuards(NotesRouter) + more, st);
            match auth
            case Refused(resp) => next == Halt(resp)
            case Authenticated(c) => (next, st1) == RunGuards(auth, more, Chain(Some(c), Some(c.tenantId)))
  {
    assert RouterGuards(NotesRouter) + more == [TokenGuard] + ([MemberOrAdminGuard] + ([IsolationGuard] + more));
    RunGuardsCons(auth, TokenGuard, [MemberOrAdminGuard] + ([IsolationGuard] + more), st);
    match auth
    case Refused(resp) =>
    case Authenticated(c) =>
      var st1 := st.(user := Some(c));
      RunGuardsCons(auth, MemberOrAdminGuard, [IsolationGuard] + more, st1);
      RequireMemberOrAdminAdmits(Some(c));
      RunGuardsCons(auth, IsolationGuard, more, st1);
  }

  /** The users chain (token, admin, isolation) lets through exactly the
      authenticated admins; a member is answered 403 by the role check. */
  lemma UsersChain(auth: AuthOutcome, more: seq<Guard>, st: Chain)
    ensures var (next, st1) := RunGuards(auth, RouterGuards(UsersRouter) + more, st);
            match auth
            case Refused(resp) => next == Halt(resp)
            case Authenticated(c) =>
              if c.role == Admin then (next, st1) == RunGuards(auth, more, Chain(Some(c), Some(c.tenantId)))
              else next == RequireRole(AdminOnly, Some(c)) && next.Halt? && next.response.status == 403
  {
    assert RouterGuards(UsersRouter) + more == [TokenGuard] + ([AdminGuard] + ([IsolationGuard] + more));
    RunGuardsCons(auth, TokenGuard, [AdminGuard] + ([IsolationGuard] + more), st);
    match auth
    case Refused(resp) =>
    case Authenticated(c) =>
      var st1 := st.(user := Some(c));
      RunGuardsCons(auth, AdminGuard, [IsolationGuard] + more, st1);
      RequireAdminAdmits(Some(c));
      RunGuardsCons(auth, IsolationGuard, more, st1);
  }

  /** The tenants chain (token, isolation) lets through every authenticated
      caller; the admin check, where there is one, comes after. */
  lemma TenantsChain(auth: AuthOutcome, more: seq<Guard>, st: Chain)
    ensures var (next, st1) := RunGuards(auth, RouterGuards(TenantsRouter) + more, st);
            match auth
            case Refused(resp) => next == Halt(resp)
            case Authenticated(c) => (next, st1) == RunGuards(auth, more, Chain(Some(c), Some(c.tenantId)))
  {
    assert RouterGuards(TenantsRouter) + more == [TokenGuard] + ([IsolationGuard] + more);
    RunGuardsCons(auth, TokenGuard, [IsolationGuard] + more, st);
    match auth
    case Refused(resp) =>
    case Authenticated(c) =>
      RunGuardsCons(auth, IsolationGuard, more, st.(user := Some(c)));
  }

  /** The admin guard registered on a route, after the router's chain has
      put the caller on the request. */
  lemma AdminRoute(auth: AuthOutcome, c: ReqUser)
    ensures var (next, st1) := RunGuards(auth, [AdminGuard], Chain(Some(c), Some(c.tenantId)));
            (next.Continue? <==> c.role == Admin) && (next.Halt? ==> next.response.status == 403) &&
            st1 == Chain(Some(c), Some(c.tenantId))
  {
    RunGuardsCons(auth, AdminGuard, [], Chain(Some(c), Some(c.tenantId)));
    RequireAdminAdmits(Some(c));
  }

  // ---------------------------------------------------------------------
  // Dispatch, router by router

  predicate Protected(path: seq<string>) {
    path != [] && path[0] in {"notes", "users", "tenants"}
  }

  /** The protected routers' route guards: none on notes and users, at
      most the admin check on tenants. */
  lemma ProtectedRouteGuards(verb: Verb, path: seq<string>)
    requires Protected(path)
    ensures path[0] != "tenants" ==> Resolve(verb, path).routeGuards == []
    ensures Resolve(verb, path).routeGuards == [] || Resolve(verb, path).routeGuards == [AdminGuard]
  {
  }

  /** On the three protected routers a request whose token does not
      authenticate gets the authentication middleware's answer, on every
      path below the mount point, matched or not: the 401 comes before the
      404. */
  lemma ProtectedNeedsToken(auth: AuthOutcome, verb: Verb, path: seq<string>, url: string)
    requires Protected(path) && auth.Refused?
    ensures Dispatch(auth, verb, path, url) == Answered(auth.response)
  {
    var target := Resolve(verb, path);
    match Mounted(path[0]).value
    case NotesRouter => NotesChain(auth, target.routeGuards, Chain(None, None));
    case UsersRouter => UsersChain(auth, target.routeGuards, Chain(None, None));
    case TenantsRouter => TenantsChain(auth, target.routeGuards, Chain(None, None));
  }

  /** Every handler reached through a protected router sees the
      authenticated caller on the request, and the caller's own tenant as
      the tenant of the request. */
  lemma ProtectedHandlersIsolated(auth: AuthOutcome, verb: Verb, path: seq<string>, url: string)
    requires Protected(path) && Dispatch(auth, verb, path, url).Handled?
    ensures var r := Dispatch(auth, verb, path, url);
            auth.Authenticated? && r.user == Some(auth.caller) && r.tenantId == Some(auth.caller.tenantId)
  {
    if auth.Refused? {
      ProtectedNeedsToken(auth, verb, path, url);
    } else {
      var c := auth.caller;
      var target := Resolve(verb, path);
      ProtectedRouteGuards(verb, path);
      match Mounted(path[0]).value
      case NotesRouter => NotesChain(auth, target.routeGuards, Chain(None, None));
      case UsersRouter => UsersChain(auth, target.routeGuards, Chain(None, None));
      case TenantsRouter =>
        TenantsChain(auth, target.routeGuards, Chain(None, None));
        if target.routeGuards != [] {
          AdminRoute(auth, c);
        }
    }
  }

  /** The caller a protected handler sees is what the token check built
      from the store: a stored user with its stored tenant. */
  lemma ProtectedCallerStored(db: Db, header: Option<string>, verify: string -> Verified, verb: Verb, path: seq<string>, url: string)
    requires Protected(path) && Dispatch(Authenticate(db, header, verify), verb, path, url).Handled?
    ensures var r := Dispatch(Authenticate(db, header, verify), verb, path, url);
            r.user.Some? && IsCaller(db, r.user.value) && r.tenantId == Some(r.user.value.tenantId)
  {
    ProtectedHandlersIsolated(Authenticate(db, header, verify), verb, path, url);
  }

  /** The notes endpoints: POST and GET on the collection, GET, PUT and
      DELETE on one id, none with a guard of its own. */
  lemma NotesEndpoints(verb: Verb, rest: seq<string>)
    ensures Resolve(verb, ["notes"] + rest).handler.Some? <==>
              (rest == [] && verb in {POST, GET}) || (|rest| == 1 && Param(rest[0]) && verb in {GET, PUT, DELETE})
    ensures Resolve(verb, ["notes"] + rest).routeGuards == []
  {
    assert (["notes"] + rest)[0] == "notes" && (["notes"] + rest)[1..] == rest;
  }

  /** Any authenticated caller, member or admin, reaches the notes
      endpoints. */
  lemma NotesAccess(auth: AuthOutcome, verb: Verb, rest: seq<string>, url: string)
    ensures Dispatch(auth, verb, ["notes"] + rest, url).Handled? <==>
              auth.Authenticated? && Resolve(verb, ["notes"] + rest).handler.Some?
  {
    var path := ["notes"] + rest;
    assert path[0] == "notes";
    NotesEndpoints(verb, rest);
    NotesChain(auth, [], Chain(None, None));
  }

  /** The user-management endpoints: invite, list, change a role, remove,
      none with a guard of its own. */
  lemma UsersEndpoints(verb: Verb, rest: seq<string>)
    ensures Resolve(verb, ["users"] + rest).handler.Some? <==>
              (rest == ["invite"] && verb == POST) || (rest == [] && verb == GET) ||
              (|rest| == 2 && Param(rest[0]) && rest[1] == "role" && verb == PUT) ||
              (|rest| == 1 && Param(rest[0]) && verb == DELETE)
    ensures Resolve(verb, ["users"] + rest).routeGuards == []
  {
    assert (["users"] + rest)[0] == "users" && (["users"] + rest)[1..] == rest;
  }

  /** Only an authenticated admin reaches the user-management endpoints,
      and a member is refused with 403 on every path below `/users`. */
  lemma UsersAccess(auth: AuthOutcome, verb: Verb, rest: seq<string>, url: string)
    ensures Dispatch(auth, verb, ["users"] + rest, url).Handled? <==>
              auth.Authenticated? && auth.caller.role == Admin && Resolve(verb, ["users"] + rest).handler.Some?
    ensures auth.Authenticated? && auth.caller.role == Member ==>
              Dispatch(auth, verb, ["users"] + rest, url).Answered? &&
              Dispatch(auth, verb, ["users"] + rest, url).response.status == 403
  {
    var path := ["users"] + rest;
    assert path[0] == "users";
    UsersEndpoints(verb, rest);
    UsersChain(auth, [], Chain(None, None));
  }

  /** The tenant endpoints: any authenticated caller reads its tenant's
      details, while the upgrade and the statistics need an admin. */
  lemma TenantsRoutes(auth: AuthOutcome, slug: string, url: string)
    requires Param(slug) && auth.Authenticated?
    ensures var c := auth.caller;
            Dispatch(auth, GET, ["tenants", slug], url) == Handled(ShowTenant(slug), Some(c), Some(c.tenantId))
    ensures var c := auth.caller;
            var r := Dispatch(auth, POST, ["tenants", slug, "upgrade"], url);
            if c.role == Admin then r == Handled(Upgrade(slug), Some(c), Some(c.tenantId)) else r.Answered? && r.response.status == 403
    ensures var c := auth.caller;
            var r := Dispatch(auth, GET, ["tenants", slug, "stats"], url);
            if c.role == Admin then r == Handled(ShowStats(slug), Some(c), Some(c.tenantId)) else r.Answered? && r.response.status == 403
  {
    var c := auth.caller;
    assert ["tenants", slug][1..] == [slug];
    assert ["tenants", slug, "upgrade"][1..] == [slug, "upgrade"];
    assert ["tenants", slug, "stats"][1..] == [slug, "stats"];
    TenantsChain(auth, [], Chain(None, None));
    TenantsChain(auth, [AdminGuard], Chain(None, None));
    AdminRoute(auth, c);
  }

  /** Login and logout are public: they are reached whatever the header;
      the profile and the token check need a token that authenticates. */
  lemma AuthRoutes(auth: AuthOutcome, url: string)
    ensures Dispatch(auth, POST, ["auth", "login"], url) == Handled(Login, None, None)
    ensures Dispatch(auth, POST, ["auth", "logout"], url) == Handled(Logout, None, None)
    ensures Dispatch(auth, GET, ["auth", "profile"], url) ==
              (match auth
               case Authenticated(c) => Handled(ShowProfile, Some(c), None)
               case Refused(resp) => Answered(resp))
    ensures Dispatch(auth, GET, ["auth", "verify"], url) ==
              (match auth
               case Authenticated(c) => Handled(VerifyToken, Some(c), None)
               case Refused(resp) => Answered(resp))
  {
    assert ["auth", "login"][1..] == ["login"];
    assert ["auth", "logout"][1..] == ["logout"];
    assert ["auth", "profile"][1..] == ["profile"];
    assert ["auth", "verify"][1..] == ["verify"];
    assert [] + [TokenGuard] == [TokenGuard] + [];
    RunGuardsCons(auth, TokenGuard, [], Chain(None, None));
  }

  /** A path under no mount point, or any verb other than GET on the root,
      is answered by the catch-all 404 naming the original URL, without any
      guard running. */
  lemma UnmountedNotFound(auth: AuthOutcome, verb: Verb, path: seq<string>, url: string)
    requires (path != [] && Mounted(path[0]).None?) || (path == [] && verb != GET)
    ensures Dispatch(auth, verb, path, url) == Answered(NotFound(url))
  {
  }

  /** Below a protected mount point, a path no endpoint takes is a 404 once
      the router's guards let the request through. */
  lemma UnmatchedNotFound(auth: AuthOutcome, verb: Verb, path: seq<string>, url: string)
    requires Protected(path) && Resolve(verb, path).handler.None? && auth.Authenticated?
    requires path[0] == "users" ==> auth.caller.role == Admin
    ensures Dispatch(auth, verb, path, url) == Answered(NotFound(url))
  {
    match Mounted(path[0]).value
    case NotesRouter => NotesChain(auth, [], Chain(None, None));
    case UsersRouter => UsersChain(auth, [], Chain(None, None));
    case TenantsRouter => TenantsChain(auth, [], Chain(None, None));
  }

  // ---------------------------------------------------------------------
  // The chain on the request object

  /** Express running a route's middleware on the request: each guard in
      turn, until one answers. */
  method RunChain(req: Request, store: Database, guards: seq<Guard>, verify: string -> Verified) returns (next: Next)
    modifies req`user, req`tenantId
    ensures (next, Chain(req.user, req.tenantId)) ==
            RunGuards(Authenticate(store.Value(), req.authorization, verify), guards, Chain(old(req.user), old(req.tenantId)))
  {
    ghost var auth := Authenticate(store.Value(), req.authorization, verify);
    ghost var all := RunGuards(auth, guards, Chain(req.user, req.tenantId));
    next := Continue;
    var i := 0;
    while i < |guards|
      invariant 0 <= i <= |guards|
      invariant next == Continue
      invariant all == RunGuards(auth, guards[i..], Chain(req.user, req.tenantId))
      decreases |guards| - i
    {
      ghost var st := Chain(req.user, req.tenantId);
      assert guards[i..][0] == guards[i] && guards[i..][1..] == guards[i + 1..];
      match guards[i] {
        case TokenGuard => next := AuthenticateToken(req, store, verify);
        case AdminGuard => next := RequireRole(AdminOnly, req.user);
        case MemberOrAdminGuard => next := RequireRole(MemberOrAdmin, req.user);
        case IsolationGuard => next := EnforceTenantIsolation(req);
      }
      assert (next, Chain(req.user, req.tenantId)) == RunGuard(auth, guards[i], st);
      if next.Halt? {
        return;
      }
      i := i + 1;
    }
  }

  /** The application on one fresh request: resolve, run the chain, then
      the handler or the 404. */
  method Serve(req: Request, store: Database, verb: Verb, path: seq<string>, originalUrl: string,
               verify: string -> Verified) returns (outcome: Outcome)
    requires req.user.None? && req.tenantId.None?
    modifies req`user, req`tenantId
    ensures outcome == Dispatch(Authenticate(store.Value(), req.authorization, verify), verb, path, originalUrl)
  {
    var target := Resolve(verb, path);
    var next := RunChain(req, store, target.routerGuards + target.routeGuards, verify);
    outcome := Finish(target.handler, next, Chain(req.user, req.tenantId), originalUrl);
  }
}
