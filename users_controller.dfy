/** The user-management handlers (admins only, by route): inviting a user
    into the caller's tenant, listing the tenant's users, changing a user's
    role and removing a user. */
module UsersController {
  import opened Wrappers
  import opened Strings
  import opened ObjectIds
  import opened Constants
  import opened Models
  import opened Http
  import opened Validation
  import opened Store

  const InvalidUserId: Response := Failure(400, "Invalid ID", "Please provide a valid user ID")
  const UserExists: Response := Failure(400, "User already exists", "A user with this email already exists in your tenant")
  const InviteFailed: Response := Failure(500, "Internal Server Error", "Failed to invite user")
  const InvalidRole: Response := Failure(400, "Invalid role", "Role must be either admin or member")
  const CannotModifyOwnRole: Response := Failure(400, "Cannot modify own role", "You cannot change your own role")
  const CannotRemoveSelf: Response := Failure(400, "Cannot remove yourself", "You cannot remove your own account")
  const UserNotInTenant: Response := Failure(404, "User not found", "The specified user does not exist in your tenant")
  const DemoNotice: string := "For demo purposes, the user password is set to \"password\""

  // ---------------------------------------------------------------------
  // inviteUser

  /** `email.toLowerCase()` of the submitted address; the schema's setters
      then lower-case and trim it once more on lookup and on save. */
  function InviteEmail(body: Body): string {
    ToLower(GetString(body, "email").GetOr(""))
  }

  /** `role = 'member'`: the submitted role, or member when absent. */
  function InviteRole(body: Body): Role {
    ParseRole(GetString(body, "role").GetOr("member")).GetOr(Member)
  }

  /** A valid invitation names the role it was given, and member when it
      gives none. */
  lemma InviteRoleChosen(body: Body, isEmail: string -> bool)
    requires ValidateUserInviteInput(body, isEmail).Valid?
    ensures Get(body, "role").None? ==> InviteRole(body) == Member
    ensures Get(body, "role").Some? ==> Get(body, "role") == Some(JStr(RoleName(InviteRole(body))))
  {
  }

  /** `inviteUser`, for a given value handed to `User.create` as
      `password_hash`; `id` is the id MongoDB gives the new record. */
  function InviteUserWith(initialHash: string, db: Db, caller: ReqUser, body: Body, isEmail: string -> bool,
                          hash: string -> string, id: ObjectId, now: int): (Response, Db)
  {
    match ValidateUserInviteInput(body, isEmail)
    case Invalid(_, message) => (ValidationFailure(message), db)
    case Valid(_) =>
      var email := InviteEmail(body);
      if FindTenantUserByEmail(db.users, caller.tenantId, NormalizeEmail(email)).Some? then (UserExists, db)
      else
        match CreatedUser(id, caller.tenantId, email, initialHash, InviteRole(body), hash, now)
        case None => (InviteFailed, db)
        case Some(u) =>
          (Success(201, "User invited successfully", Invited(InvitedUser(u.id, u.email, u.role, u.tenantId, u.createdAt), DemoNotice)),
           db.(users := db.users + [u]))
  }

  /** As written: the handler hashes the demo password itself and the save
      hook hashes that hash again. */
  function InviteUserAsWritten(db: Db, caller: ReqUser, body: Body, isEmail: string -> bool,
                               hash: string -> string, id: ObjectId, now: int): (Response, Db)
  {
    InviteUserWith(hash(DemoPassword), db, caller, body, isEmail, hash, id, now)
  }

  /** As intended: the demo password goes to the save hook, which hashes it once. */
  function InviteUserSpec(db: Db, caller: ReqUser, body: Body, isEmail: string -> bool,
                          hash: string -> string, id: ObjectId, now: int): (Response, Db)
  {
    InviteUserWith(DemoPassword, db, caller, body, isEmail, hash, id, now)
  }

  /** An address already used in the caller's tenant is refused with 400,
      as written and as intended. */
  lemma InviteDuplicate(initialHash: string, db: Db, caller: ReqUser, body: Body, isEmail: string -> bool,
                        hash: string -> string, id: ObjectId, now: int, v: User)
    requires ValidateUserInviteInput(body, isEmail).Valid?
    requires v in db.users && v.tenantId == caller.tenantId && v.email == NormalizeEmail(InviteEmail(body))
    ensures InviteUserWith(initialHash, db, caller, body, isEmail, hash, id, now) == (UserExists, db)
  {
  }

  /** A new address in the tenant, whatever value is handed to the save
      hook: the record is refused (500, nothing written) exactly when the
      address or that value fails the schema; otherwise the user is appended
      with the given id, the caller's tenant, the normalised address and the
      chosen role, and its stored hash checks against that value. */
  lemma InviteCreatesWith(initialHash: string, db: Db, caller: ReqUser, body: Body, isEmail: string -> bool,
                          hash: string -> string, id: ObjectId, now: int)
    requires ValidateUserInviteInput(body, isEmail).Valid?
    requires forall v :: v in db.users ==> !(v.tenantId == caller.tenantId && v.email == NormalizeEmail(InviteEmail(body)))
    ensures var (resp, db') := InviteUserWith(initialHash, db, caller, body, isEmail, hash, id, now);
            && (resp.status == 201 <==> UserFieldsValid(NormalizeEmail(InviteEmail(body)), initialHash))
            && (resp.status != 201 ==> resp == InviteFailed && db' == db)
            && (resp.status == 201 ==>
                  && resp.payload.Invited? && resp.payload.notice == DemoNotice
                  && |db'.users| == |db.users| + 1 && db'.users[..|db.users|] == db.users
                  && db'.notes == db.notes && db'.tenants == db.tenants
                  && var u := db'.users[|db.users|];
                     && u.id == id && u.tenantId == caller.tenantId && u.role == InviteRole(body)
                     && u.email == NormalizeEmail(InviteEmail(body))
                     && ComparePassword(initialHash, u, hash)
                     && resp.payload.invited == InvitedUser(u.id, u.email, u.role, u.tenantId, u.createdAt))
  {
    assert FindTenantUserByEmail(db.users, caller.tenantId, NormalizeEmail(InviteEmail(body))).None?;
    var r := InviteUserWith(initialHash, db, caller, body, isEmail, hash, id, now);
    if r.0.status == 201 {
      assert (db.users + [r.1.users[|db.users|]])[..|db.users|] == db.users;
    }
  }

  /** As intended, a new address in the tenant: the user is stored in the
      caller's tenant with the normalised address and the chosen role, and
      can log in with the demo password; the record is refused (500)
      exactly when the address fails the schema's pattern. */
  lemma InviteCreates(db: Db, caller: ReqUser, body: Body, isEmail: string -> bool, hash: string -> string,
                      id: ObjectId, now: int)
    requires ValidateUserInviteInput(body, isEmail).Valid?
    requires forall v :: v in db.users ==> !(v.tenantId == caller.tenantId && v.email == NormalizeEmail(InviteEmail(body)))
    ensures var (resp, db') := InviteUserSpec(db, caller, body, isEmail, hash, id, now);
            && (resp.status == 201 <==> EmailPatternMatches(NormalizeEmail(InviteEmail(body))))
            && (resp.status != 201 ==> resp == InviteFailed && db' == db)
            && (resp.status == 201 ==>
                  && resp.payload.Invited? && resp.payload.notice == DemoNotice
                  && |db'.users| == |db.users| + 1 && db'.users[..|db.users|] == db.users
                  && var u := db'.users[|db.users|];
                     && u.id == id && u.tenantId == caller.tenantId && u.role == InviteRole(body)
                     && u.email == NormalizeEmail(InviteEmail(body))
                     && ComparePassword(DemoPassword, u, hash)
                     && resp.payload.invited == InvitedUser(u.id, u.email, u.role, u.tenantId, u.createdAt))
  {
    InviteCreatesWith(DemoPassword, db, caller, body, isEmail, hash, id, now);
  }

  /** Inviting keeps the store valid, whatever value is handed to the save
      hook: as written (`InviteUserAsWritten`) and as intended
      (`InviteUserSpec`). */
  lemma InviteKeepsValid(initialHash: string, db: Db, caller: ReqUser, body: Body, isEmail: string -> bool,
                         hash: string -> string, id: ObjectId, now: int)
    requires DbValid(db) && FreshId(db, id)
    ensures DbValid(InviteUserWith(initialHash, db, caller, body, isEmail, hash, id, now).1)
  {
    if ValidateUserInviteInput(body, isEmail).Valid? {
      var email := InviteEmail(body);
      if FindTenantUserByEmail(db.users, caller.tenantId, NormalizeEmail(email)).None? {
        var u := CreatedUser(id, caller.tenantId, email, initialHash, InviteRole(body), hash, now);
        if u.Some? {
          AppendUserKeepsValid(db, u.value);
        }
      }
    }
  }

  /** No other tenant's users change, as written or as intended. */
  lemma InviteOtherTenants(initialHash: string, db: Db, caller: ReqUser, body: Body, isEmail: string -> bool,
                           hash: string -> string, id: ObjectId, now: int, other: ObjectId)
    requires other != caller.tenantId
    ensures TenantUsers(InviteUserWith(initialHash, db, caller, body, isEmail, hash, id, now).1.users, other) == TenantUsers(db.users, other)
  {
    var db' := InviteUserWith(initialHash, db, caller, body, isEmail, hash, id, now).1;
    if db' != db {
      var u := db'.users[|db.users|];
      assert db'.users == db.users + [u];
      FilterConcat(db.users, [u], (v: User) => v.tenantId == other);
      assert Filter([u], (v: User) => v.tenantId == other) == [];
    }
  }

  /** A user stamped at `now`, no earlier than any stored record, keeps the
      store in creation-time order, as written and as intended. */
  lemma InviteKeepsTimeOrder(initialHash: string, db: Db, caller: ReqUser, body: Body, isEmail: string -> bool,
                             hash: string -> string, id: ObjectId, now: int)
    requires InTimeOrder(db) && StampedBy(db, now)
    ensures InTimeOrder(InviteUserWith(initialHash, db, caller, body, isEmail, hash, id, now).1)
    ensures StampedBy(InviteUserWith(initialHash, db, caller, body, isEmail, hash, id, now).1, now)
  {
    var db' := InviteUserWith(initialHash, db, caller, body, isEmail, hash, id, now).1;
    if db' != db {
      var u := db'.users[|db.users|];
      assert db'.users == db.users + [u] && u.createdAt == now;
      AppendAscending(db.users, u, UserCreatedAt);
    }
  }

  /** As written, a user invited under any hash that is one-to-one and does
      not map the demo password to itself cannot log in with the demo
      password the response announces. */
  lemma InviteAsWrittenLocksOut(db: Db, caller: ReqUser, body: Body, isEmail: string -> bool, hash: string -> string,
                                id: ObjectId, now: int)
    requires forall a, b :: hash(a) == hash(b) ==> a == b
    requires hash(DemoPassword) != DemoPassword
    requires InviteUserAsWritten(db, caller, body, isEmail, hash, id, now).0.status == 201
    ensures var db' := InviteUserAsWritten(db, caller, body, isEmail, hash, id, now).1;
            |db'.users| == |db.users| + 1 && !ComparePassword(DemoPassword, db'.users[|db.users|], hash)
  {
    InviteWithAppends(hash(DemoPassword), db, caller, body, isEmail, hash, id, now);
  }

  /** A created invitation appends one user, whose stored hash checks
      against the password string the handler passed in. */
  lemma InviteWithAppends(initialHash: string, db: Db, caller: ReqUser, body: Body, isEmail: string -> bool,
                          hash: string -> string, id: ObjectId, now: int)
    requires InviteUserWith(initialHash, db, caller, body, isEmail, hash, id, now).0.status == 201
    ensures var db' := InviteUserWith(initialHash, db, caller, body, isEmail, hash, id, now).1;
            |db'.users| == |db.users| + 1 && db'.users[..|db.users|] == db.users
            && ComparePassword(initialHash, db'.users[|db.users|], hash)
  {
    var db' := InviteUserWith(initialHash, db, caller, body, isEmail, hash, id, now).1;
    assert db'.users == db.users + [db'.users[|db.users|]];
  }

  /** `inviteUser` as written: the demo password is hashed here, and the
      record's save hook hashes that hash again (see `InviteAsWrittenLocksOut`). */
  method InviteUser(store: Database, caller: ReqUser, body: Body, isEmail: string -> bool,
                    hash: string -> string, id: ObjectId, now: int) returns (response: Response)
    modifies store
    ensures (response, store.Value()) == InviteUserAsWritten(old(store.Value()), caller, body, isEmail, hash, id, now)
  {
    var checked := ValidateUserInviteInput(body, isEmail);
    if checked.Invalid? {
      return ValidationFailure(checked.message);
    }
    var email := InviteEmail(body);
    var existing := FindTenantUserByEmail(store.users, caller.tenantId, NormalizeEmail(email));
    if existing.Some? {
      return UserExists;
    }
    var passwordHash := hash(DemoPassword);
    var created := CreateUser(id, caller.tenantId, email, passwordHash, InviteRole(body), hash, now);
    if created.None? {
      return InviteFailed;
    }
    response := AddInvitedUser(store, created.value);
  }

  /** The write that ends a successful invitation. */
  method AddInvitedUser(store: Database, u: User) returns (response: Response)
    modifies store
    ensures store.Value() == old(store.Value()).(users := old(store.users) + [u])
    ensures response == Success(201, "User invited successfully",
                                Invited(InvitedUser(u.id, u.email, u.role, u.tenantId, u.createdAt), DemoNotice))
  {
    store.users := store.users + [u];
    response := Success(201, "User invited successfully",
                        Invited(InvitedUser(u.id, u.email, u.role, u.tenantId, u.createdAt), DemoNotice));
  }

  // ---------------------------------------------------------------------
  // getTenantUsers

  const DefaultUsersLimit: nat := 20

  /** `select('-password_hash')`: each user without the hash. */
  function UserViews(us: seq<User>): (vs: seq<UserView>)
    ensures |vs| == |us|
    ensures forall i :: 0 <= i < |us| ==> vs[i] == ToAuthJSON(us[i])
  {
    seq(|us|, i requires 0 <= i < |us| => ToAuthJSON(us[i]))
  }

  function GetTenantUsersSpec(db: Db, caller: ReqUser, page: Option<nat>, limit: Option<nat>): Response
    requires page.Some? ==> page.value >= 1
    requires limit.Some? ==> limit.value >= 1
  {
    var p := page.GetOr(1);
    var l := limit.GetOr(DefaultUsersLimit);
    var all := NewestFirst(TenantUsers(db.users, caller.tenantId));
    Success(200, "", UserList(UserViews(Paginate(all, p, l)), Pagination(p, l, |all|, CeilDiv(|all|, l))))
  }

  /** At most `limit` users; `total` counts the tenant's users and `pages`
      is the ceiling of total over limit. */
  lemma GetTenantUsersPagination(db: Db, caller: ReqUser, page: Option<nat>, limit: Option<nat>)
    requires page.Some? ==> page.value >= 1
    requires limit.Some? ==> limit.value >= 1
    ensures var r := GetTenantUsersSpec(db, caller, page, limit);
            var l := limit.GetOr(DefaultUsersLimit);
            && r.status == 200 && r.payload.UserList?
            && |r.payload.users| <= l
            && r.payload.pagination == Pagination(page.GetOr(1), l, |TenantUsers(db.users, caller.tenantId)|, r.payload.pagination.pages)
            && r.payload.pagination.pages * l >= r.payload.pagination.total
            && (r.payload.pagination.pages > 0 ==> (r.payload.pagination.pages - 1) * l < r.payload.pagination.total)
  {
  }

  /** The `i`-th user of page `p` is the tenant's `(p-1)*limit + i`-th
      newest user, without the password hash. */
  lemma GetTenantUsersOrder(db: Db, caller: ReqUser, page: Option<nat>, limit: Option<nat>, i: nat)
    requires page.Some? ==> page.value >= 1
    requires limit.Some? ==> limit.value >= 1
    requires i < |GetTenantUsersSpec(db, caller, page, limit).payload.users|
    ensures var skip := PageStart(page.GetOr(1), limit.GetOr(DefaultUsersLimit));
            var mine := TenantUsers(db.users, caller.tenantId);
            && skip + i < |mine|
            && GetTenantUsersSpec(db, caller, page, limit).payload.users[i] == ToAuthJSON(mine[|mine| - 1 - (skip + i)])
  {
    var mine := TenantUsers(db.users, caller.tenantId);
    NewestPageAt(mine, page.GetOr(1), limit.GetOr(DefaultUsersLimit), i);
  }

  /** While the store is in creation-time order, each page lists its users
      with creation times that never increase: the `sort({ created_at: -1 })`
      order. */
  lemma GetTenantUsersNewestFirst(db: Db, caller: ReqUser, page: Option<nat>, limit: Option<nat>, i: nat, j: nat)
    requires page.Some? ==> page.value >= 1
    requires limit.Some? ==> limit.value >= 1
    requires InTimeOrder(db)
    requires i < j < |GetTenantUsersSpec(db, caller, page, limit).payload.users|
    ensures GetTenantUsersSpec(db, caller, page, limit).payload.users[i].createdAt
         >= GetTenantUsersSpec(db, caller, page, limit).payload.users[j].createdAt
  {
    GetTenantUsersOrder(db, caller, page, limit, i);
    GetTenantUsersOrder(db, caller, page, limit, j);
    TenantUsersAscending(db.users, caller.tenantId);
  }

  /** Every user listed is a stored user of the caller's tenant. */
  lemma GetTenantUsersScoped(db: Db, caller: ReqUser, page: Option<nat>, limit: Option<nat>, i: nat)
    requires page.Some? ==> page.value >= 1
    requires limit.Some? ==> limit.value >= 1
    requires i < |GetTenantUsersSpec(db, caller, page, limit).payload.users|
    ensures var v := GetTenantUsersSpec(db, caller, page, limit).payload.users[i];
            v.tenantId == caller.tenantId && exists u :: u in db.users && v == ToAuthJSON(u)
  {
    var skip := PageStart(page.GetOr(1), limit.GetOr(DefaultUsersLimit));
    var mine := TenantUsers(db.users, caller.tenantId);
    GetTenantUsersOrder(db, caller, page, limit, i);
    TenantUserAt(db.users, caller.tenantId, |mine| - 1 - (skip + i));
  }

  /** Each entry of the tenant's users is a stored user of that tenant. */
  lemma TenantUserAt(us: seq<User>, tenantId: ObjectId, k: nat)
    requires k < |TenantUsers(us, tenantId)|
    ensures TenantUsers(us, tenantId)[k] in us && TenantUsers(us, tenantId)[k].tenantId == tenantId
  {
    FilterMembers(us, (u: User) => u.tenantId == tenantId);
  }

  /** Other tenants' users cannot influence the listing. */
  lemma GetTenantUsersIsolated(db: Db, caller: ReqUser, page: Option<nat>, limit: Option<nat>)
    requires page.Some? ==> page.value >= 1
    requires limit.Some? ==> limit.value >= 1
    ensures GetTenantUsersSpec(db, caller, page, limit)
         == GetTenantUsersSpec(db.(users := TenantUsers(db.users, caller.tenantId)), caller, page, limit)
  {
    var p := (u: User) => u.tenantId == caller.tenantId;
    FilterFilter(db.users, p, p);
  }

  // ---------------------------------------------------------------------
  // The self-action guard of updateUserRole and removeUser

  /** How a handler decides that the target is the caller: by comparing the
      path string with the caller's id printed as lower-case hex (as
      written), or by comparing the ids the two denote (as intended). */
  datatype SelfCheck = CompareStrings | CompareIds

  predicate IsSelf(check: SelfCheck, userId: string, callerId: ObjectId) {
    match check
    case CompareStrings => userId == ObjectIdString(callerId)
    case CompareIds => CastObjectId(userId) == Some(callerId)
  }

  /** For an id in its canonical spelling the two checks agree; the
      intended one also catches every other spelling. */
  lemma SelfChecksAgree(userId: string, callerId: ObjectId)
    ensures IsSelf(CompareStrings, userId, callerId) ==> IsSelf(CompareIds, userId, callerId)
    ensures userId == ObjectIdString(callerId) ==> (IsSelf(CompareIds, userId, callerId) <==> IsSelf(CompareStrings, userId, callerId))
  {
    CastOfString(callerId);
  }

  /** The role named in the body, when it is the string admin or member. */
  function SubmittedRole(body: Body): (r: Option<Role>)
    ensures r.Some? <==> Get(body, "role") == Some(JStr("admin")) || Get(body, "role") == Some(JStr("member"))
    ensures r.Some? ==> Get(body, "role") == Some(JStr(RoleName(r.value)))
  {
    match Get(body, "role")
    case Some(JStr(s)) => ParseRole(s)
    case _ => None
  }

  /** With unique ids, the index found by (id, tenant) holds the one user
      with that id. */
  lemma TenantUserIndexHit(us: seq<User>, v: User)
    requires UsersOk(us) && v in us
    ensures TenantUserIndex(us, v.id, v.tenantId).Some?
    ensures us[TenantUserIndex(us, v.id, v.tenantId).value] == v
  {
    var k :| 0 <= k < |us| && us[k] == v;
    var i := TenantUserIndex(us, v.id, v.tenantId);
    assert i.Some?;
  }

  // ---------------------------------------------------------------------
  // updateUserRole

  function UpdateUserRoleWith(check: SelfCheck, db: Db, caller: ReqUser, userId: string, body: Body, now: int): (Response, Db) {
    match CastObjectId(userId)
    case None => (InvalidUserId, db)
    case Some(uid) =>
      match SubmittedRole(body)
      case None => (InvalidRole, db)
      case Some(role) =>
        if IsSelf(check, userId, caller.id) then (CannotModifyOwnRole, db)
        else
          match TenantUserIndex(db.users, uid, caller.tenantId)
          case None => (UserNotInTenant, db)
          case Some(i) =>
            var u := db.users[i].(role := role, updatedAt := now);
            (Success(200, "User role updated successfully", UpdatedUser(ToAuthJSON(u))), db.(users := db.users[i := u]))
  }

  /** As written: the guard compares strings. */
  function UpdateUserRoleAsWritten(db: Db, caller: ReqUser, userId: string, body: Body, now: int): (Response, Db) {
    UpdateUserRoleWith(CompareStrings, db, caller, userId, body, now)
  }

  /** As intended: the guard compares ids. */
  function UpdateUserRoleSpec(db: Db, caller: ReqUser, userId: string, body: Body, now: int): (Response, Db) {
    UpdateUserRoleWith(CompareIds, db, caller, userId, body, now)
  }

  /** The checks come in order: the id's form, then the role, then the
      self guard; each failure leaves the store as it was. As written the
      guard refuses the caller's id in its lower-case text; as intended,
      every spelling of it. */
  lemma UpdateUserRoleChecks(check: SelfCheck, db: Db, caller: ReqUser, userId: string, body: Body, now: int)
    ensures var r := UpdateUserRoleWith(check, db, caller, userId, body, now);
            && (!IsValidObjectId(userId) ==> r == (InvalidUserId, db))
            && (IsValidObjectId(userId) && SubmittedRole(body).None? ==> r == (InvalidRole, db))
            && (SubmittedRole(body).Some? && IsSelf(check, userId, caller.id) ==> r == (CannotModifyOwnRole, db))
            && (check == CompareStrings ==> (IsSelf(check, userId, caller.id) <==> userId == ObjectIdString(caller.id)))
            && (check == CompareIds ==> (IsSelf(check, userId, caller.id) <==> CastObjectId(userId) == Some(caller.id)))
  {
    SelfChecksAgree(userId, caller.id);
  }

  /** No caller ever changes their own role, whatever spelling of their id
      they use. */
  lemma UpdateUserRoleNeverSelf(db: Db, caller: ReqUser, userId: string, body: Body, now: int)
    requires UpdateUserRoleSpec(db, caller, userId, body, now).0.status == 200
    ensures CastObjectId(userId).Some? && CastObjectId(userId).value != caller.id
    ensures UpdateUserRoleSpec(db, caller, userId, body, now).0.payload.updated.id != caller.id
  {
  }

  /** Another user of the tenant gets the new role and a new `updated_at`;
      nothing else in the store changes. */
  lemma UpdateUserRoleChanges(check: SelfCheck, db: Db, caller: ReqUser, body: Body, now: int, v: User)
    requires UsersOk(db.users) && v in db.users && v.tenantId == caller.tenantId && v.id != caller.id
    requires SubmittedRole(body).Some?
    ensures var (resp, db') := UpdateUserRoleWith(check, db, caller, ObjectIdString(v.id), body, now);
            var w := v.(role := SubmittedRole(body).value, updatedAt := now);
            && resp == Success(200, "User role updated successfully", UpdatedUser(ToAuthJSON(w)))
            && db'.tenants == db.tenants && db'.notes == db.notes && |db'.users| == |db.users|
            && (forall j :: 0 <= j < |db.users| ==> db'.users[j] == if db.users[j].id == v.id then w else db.users[j])
  {
    CastOfString(v.id);
    SelfChecksAgree(ObjectIdString(v.id), caller.id);
    TenantUserIndexHit(db.users, v);
  }

  /** A user that does not exist and a user of another tenant get the same 404. */
  lemma UpdateUserRoleMissingOrForeign(check: SelfCheck, db: Db, caller: ReqUser, userId: string, body: Body, now: int)
    requires CastObjectId(userId).Some? && CastObjectId(userId).value != caller.id && SubmittedRole(body).Some?
    requires forall v :: v in db.users && v.id == CastObjectId(userId).value ==> v.tenantId != caller.tenantId
    ensures UpdateUserRoleWith(check, db, caller, userId, body, now) == (UserNotInTenant, db)
  {
    SelfChecksAgree(userId, caller.id);
  }

  /** A role change keeps the store valid, as written and as intended. */
  lemma UpdateUserRoleKeepsValid(check: SelfCheck, db: Db, caller: ReqUser, userId: string, body: Body, now: int)
    requires DbValid(db)
    ensures DbValid(UpdateUserRoleWith(check, db, caller, userId, body, now).1)
  {
    var r := UpdateUserRoleWith(check, db, caller, userId, body, now);
    if r.1 != db {
      var i := TenantUserIndex(db.users, CastObjectId(userId).value, caller.tenantId).value;
      ReplaceUserKeepsValid(db, i, db.users[i].(role := SubmittedRole(body).value, updatedAt := now));
    }
  }

  /** A role change keeps `created_at`, and so the creation-time order. */
  lemma UpdateUserRoleKeepsTimeOrder(check: SelfCheck, db: Db, caller: ReqUser, userId: string, body: Body, now: int, clock: int)
    requires InTimeOrder(db) && StampedBy(db, clock)
    ensures InTimeOrder(UpdateUserRoleWith(check, db, caller, userId, body, now).1)
    ensures StampedBy(UpdateUserRoleWith(check, db, caller, userId, body, now).1, clock)
  {
    var r := UpdateUserRoleWith(check, db, caller, userId, body, now);
    if r.1 != db {
      var i := TenantUserIndex(db.users, CastObjectId(userId).value, caller.tenantId).value;
      var us := r.1.users;
      assert us == db.users[i := db.users[i].(role := SubmittedRole(body).value, updatedAt := now)];
      forall a, b | 0 <= a < b < |us|
        ensures UserCreatedAt(us[a]) <= UserCreatedAt(us[b])
      {
        assert us[a].createdAt == db.users[a].createdAt && us[b].createdAt == db.users[b].createdAt;
      }
      forall u | u in us
        ensures u.createdAt <= clock
      {
        var k :| 0 <= k < |us| && us[k] == u;
        assert u.createdAt == db.users[k].createdAt && db.users[k] in db.users;
      }
    }
  }

  /** As written, an admin whose id prints with a hex letter changes their
      own role by spelling that id in upper case, which the intended guard
      refuses. */
  lemma UpdateUserRoleSelfBypass(db: Db, caller: ReqUser, body: Body, now: int, i: nat)
    requires IsCaller(db, caller) && UsersOk(db.users)
    requires i < HexLength && 'a' <= ObjectIdString(caller.id)[i] <= 'f'
    requires SubmittedRole(body).Some?
    ensures var upper := ToUpperHex(ObjectIdString(caller.id));
            && UpdateUserRoleAsWritten(db, caller, upper, body, now).0.status == 200
            && UpdateUserRoleAsWritten(db, caller, upper, body, now).0.payload.updated.id == caller.id
            && UpdateUserRoleSpec(db, caller, upper, body, now) == (CannotModifyOwnRole, db)
  {
    UpperSpellingSameId(caller.id, i);
    var me := CallerUser(db, caller);
    TenantUserIndexHit(db.users, me);
  }

  /** `updateUserRole` as written: the self guard compares the path string
      with the caller's id printed in lower-case hex. */
  method UpdateUserRole(store: Database, caller: ReqUser, userId: string, body: Body, now: int) returns (response: Response)
    modifies store
    ensures (response, store.Value()) == UpdateUserRoleAsWritten(old(store.Value()), caller, userId, body, now)
  {
    ghost var db := store.Value();
    var uid := CastObjectId(userId);
    if uid.None? {
      return InvalidUserId;
    }
    var role := SubmittedRole(body);
    if role.None? {
      return InvalidRole;
    }
    if userId == ObjectIdString(caller.id) {
      return CannotModifyOwnRole;
    }
    var i := TenantUserIndex(store.users, uid.value, caller.tenantId);
    if i.None? {
      return UserNotInTenant;
    }
    var u := store.users[i.value].(role := role.value, updatedAt := now);
    store.users := store.users[i.value := u];
    response := Success(200, "User role updated successfully", UpdatedUser(ToAuthJSON(u)));
    assert store.Value() == db.(users := db.users[i.value := u]);
  }

  // ---------------------------------------------------------------------
  // removeUser

  function RemoveUserWith(check: SelfCheck, db: Db, caller: ReqUser, userId: string): (Response, Db) {
    match CastObjectId(userId)
    case None => (InvalidUserId, db)
    case Some(uid) =>
      if IsSelf(check, userId, caller.id) then (CannotRemoveSelf, db)
      else
        match TenantUserIndex(db.users, uid, caller.tenantId)
        case None => (UserNotInTenant, db)
        case Some(i) => (Success(200, "User removed successfully", RemovedUser(userId)), db.(users := Remove(db.users, i)))
  }

  /** As written: the guard compares strings. */
  function RemoveUserAsWritten(db: Db, caller: ReqUser, userId: string): (Response, Db) {
    RemoveUserWith(CompareStrings, db, caller, userId)
  }

  /** As intended: the guard compares ids. */
  function RemoveUserSpec(db: Db, caller: ReqUser, userId: string): (Response, Db) {
    RemoveUserWith(CompareIds, db, caller, userId)
  }

  /** A successful removal, as written or as intended, deletes exactly the
      user with that id, a user of the caller's tenant; every other user
      stays. The removed user's notes stay too, and are then shown with the
      author "Unknown". */
  lemma RemoveUserRemovesWith(check: SelfCheck, db: Db, caller: ReqUser, userId: string)
    requires UsersOk(db.users)
    requires RemoveUserWith(check, db, caller, userId).0.status == 200
    ensures var db' := RemoveUserWith(check, db, caller, userId).1;
            var uid := CastObjectId(userId).value;
            && (exists u :: u in db.users && u.id == uid && u.tenantId == caller.tenantId)
            && |db'.users| == |db.users| - 1 && db'.notes == db.notes && db'.tenants == db.tenants
            && (forall u :: u in db.users && u.id != uid ==> u in db'.users)
            && (forall u :: u in db'.users ==> u in db.users && u.id != uid)
            && (forall n :: n in db.notes && n.userId == uid ==> AuthorEmail(db'.users, n) == "Unknown")
  {
    var uid := CastObjectId(userId).value;
    var i := TenantUserIndex(db.users, uid, caller.tenantId).value;
    var db' := RemoveUserWith(check, db, caller, userId).1;
    assert db'.users == Remove(db.users, i);
    assert db.users[i] in db.users;
    forall u | u in db.users && u.id != uid
      ensures u in db'.users
    {
      var k :| 0 <= k < |db.users| && db.users[k] == u;
      RemoveKeeps(db.users, i, k);
    }
    forall u | u in db'.users
      ensures u in db.users && u.id != uid
    {
      var k := RemoveOrigin(db.users, i, u);
    }
  }

  /** As intended, a successful removal never targets the caller, and
      deletes exactly the user with that id; every other user stays. The
      removed user's notes stay too, and are then shown with the author
      "Unknown". */
  lemma RemoveUserRemoves(db: Db, caller: ReqUser, userId: string)
    requires UsersOk(db.users)
    requires RemoveUserSpec(db, caller, userId).0.status == 200
    ensures var db' := RemoveUserSpec(db, caller, userId).1;
            var uid := CastObjectId(userId).value;
            && uid != caller.id
            && |db'.users| == |db.users| - 1 && db'.notes == db.notes && db'.tenants == db.tenants
            && (forall u :: u in db.users && u.id != uid ==> u in db'.users)
            && (forall u :: u in db'.users ==> u in db.users && u.id != uid)
            && (forall n :: n in db.notes && n.userId == uid ==> AuthorEmail(db'.users, n) == "Unknown")
  {
    RemoveUserRemovesWith(CompareIds, db, caller, userId);
  }

  /** A user that does not exist and a user of another tenant get the same
      404, as written and as intended. */
  lemma RemoveUserMissingOrForeign(check: SelfCheck, db: Db, caller: ReqUser, userId: string)
    requires CastObjectId(userId).Some? && CastObjectId(userId).value != caller.id
    requires forall v :: v in db.users && v.id == CastObjectId(userId).value ==> v.tenantId != caller.tenantId
    ensures RemoveUserWith(check, db, caller, userId) == (UserNotInTenant, db)
  {
    SelfChecksAgree(userId, caller.id);
  }

  /** A removal keeps the store valid, as written and as intended. */
  lemma RemoveUserKeepsValid(check: SelfCheck, db: Db, caller: ReqUser, userId: string)
    requires DbValid(db)
    ensures DbValid(RemoveUserWith(check, db, caller, userId).1)
  {
    var r := RemoveUserWith(check, db, caller, userId);
    if r.1 != db {
      Store.RemoveUserKeepsValid(db, TenantUserIndex(db.users, CastObjectId(userId).value, caller.tenantId).value);
    }
  }

  /** A removal keeps the creation-time order of the users left. */
  lemma RemoveUserKeepsTimeOrder(check: SelfCheck, db: Db, caller: ReqUser, userId: string, clock: int)
    requires InTimeOrder(db) && StampedBy(db, clock)
    ensures InTimeOrder(RemoveUserWith(check, db, caller, userId).1)
    ensures StampedBy(RemoveUserWith(check, db, caller, userId).1, clock)
  {
    var r := RemoveUserWith(check, db, caller, userId);
    if r.1 != db {
      var i := TenantUserIndex(db.users, CastObjectId(userId).value, caller.tenantId).value;
      assert r.1.users == Remove(db.users, i);
      RemoveAscending(db.users, i, UserCreatedAt);
      forall u | u in Remove(db.users, i)
        ensures u in db.users
      {
        var k := RemoveOrigin(db.users, i, u);
      }
    }
  }

  /** As written, an admin removes their own account by spelling their id in
      upper case, which the intended guard refuses. */
  lemma RemoveUserSelfBypass(db: Db, caller: ReqUser, i: nat)
    requires IsCaller(db, caller) && UsersOk(db.users)
    requires i < HexLength && 'a' <= ObjectIdString(caller.id)[i] <= 'f'
    ensures var upper := ToUpperHex(ObjectIdString(caller.id));
            && RemoveUserAsWritten(db, caller, upper).0.status == 200
            && FindUser(RemoveUserAsWritten(db, caller, upper).1.users, caller.id).None?
            && RemoveUserSpec(db, caller, upper) == (CannotRemoveSelf, db)
  {
    var upper := ToUpperHex(ObjectIdString(caller.id));
    UpperSpellingSameId(caller.id, i);
    var me := CallerUser(db, caller);
    TenantUserIndexHit(db.users, me);
    var k := TenantUserIndex(db.users, caller.id, caller.tenantId).value;
    var us := Remove(db.users, k);
    forall u | u in us
      ensures u.id != caller.id
    {
      var j := RemoveOrigin(db.users, k, u);
    }
  }

  /** `removeUser` as written: the self guard compares the path string with
      the caller's id printed in lower-case hex. */
  method RemoveUser(store: Database, caller: ReqUser, userId: string) returns (response: Response)
    modifies store
    ensures (response, store.Value()) == RemoveUserAsWritten(old(store.Value()), caller, userId)
  {
    ghost var db := store.Value();
    var uid := CastObjectId(userId);
    if uid.None? {
      return InvalidUserId;
    }
    if userId == ObjectIdString(caller.id) {
      return CannotRemoveSelf;
    }
    var i := TenantUserIndex(store.users, uid.value, caller.tenantId);
    if i.None? {
      return UserNotInTenant;
    }
    store.users := Remove(store.users, i.value);
    response := Success(200, "User removed successfully", RemovedUser(userId));
    assert store.Value() == db.(users := Remove(db.users, i.value));
  }
}
