/** The client's permission rules set beside the server's handlers for the
    same user, note and tenant: where they agree (the note quota) and where
    they do not (editing and deleting notes). */
module ClientServer {
  import opened Wrappers
  import opened ObjectIds
  import opened Constants
  import opened Models
  import opened Http
  import opened Store
  import opened Validation
  import opened AuthGuard
  import opened Permissions
  import opened NotesController
  import opened TenantsController

  /** The user object the client keeps from the login response: the id as
      its hex string, the role's name and the tenant's plan's name. */
  function ClientUserOf(c: ReqUser): ClientUser {
    ClientUser(ObjectIdString(c.id), RoleName(c.role), PlanName(c.plan))
  }

  /** A note object that carries its owner, as the create response's raw
      document does: `user_id` as its hex string. */
  function ClientNoteOf(n: Note): ClientNote {
    ClientNote(Some(ObjectIdString(n.userId)))
  }

  /** A note as the list, get and update responses format it: the fields of
      `NoteView`, with no `user_id`. */
  function ClientNoteOfView(v: NoteView): ClientNote {
    ClientNote(None)
  }

  /** On a formatted note the owner test never holds, so the client offers
      edit and delete exactly to admins: a member is refused even on the
      notes they wrote. */
  lemma ClientEditsViewOnlyAsAdmin(caller: ReqUser, v: NoteView)
    ensures CanEditNote(Some(ClientUserOf(caller)), Some(ClientNoteOfView(v))) <==> caller.role == Admin
    ensures CanDeleteNote(Some(ClientUserOf(caller)), Some(ClientNoteOfView(v))) <==> caller.role == Admin
  {
    CanEditNoteMeaning(Some(ClientUserOf(caller)), Some(ClientNoteOfView(v)));
    CanDeleteIsCanEdit(Some(ClientUserOf(caller)), Some(ClientNoteOfView(v)));
  }

  /** The server decides an edit by the note's id and tenant alone: the
      caller's own id and role make no difference to the answer or to the
      store. */
  lemma UpdateIgnoresOwnerAndRole(db: Db, caller: ReqUser, id: string, body: Body, now: int, someone: ObjectId, role: Role)
    ensures UpdateNoteSpec(db, caller, id, body, now) == UpdateNoteSpec(db, caller.(id := someone, role := role), id, body, now)
    ensures DeleteNoteSpec(db, caller, id) == DeleteNoteSpec(db, caller.(id := someone, role := role), id)
  {
  }

  /** The server lets any caller of the note's tenant, whoever wrote the
      note, edit it in place and delete it. */
  lemma ServerEditsTenantNote(db: Db, caller: ReqUser, body: Body, now: int, n: Note)
    requires NotesOk(db.notes) && n in db.notes && n.tenantId == caller.tenantId
    requires ValidateNoteInput(body).Valid?
    ensures UpdateNoteSpec(db, caller, ObjectIdString(n.id), body, now).0.status == 200
    ensures EditedNote(n, BodyTitle(body), BodyContent(body), now) in UpdateNoteSpec(db, caller, ObjectIdString(n.id), body, now).1.notes
    ensures DeleteNoteSpec(db, caller, ObjectIdString(n.id)).0.status == 200
  {
    UpdateNoteEdits(db, caller, body, now, n);
    var k :| 0 <= k < |db.notes| && db.notes[k] == n;
    var db' := UpdateNoteSpec(db, caller, ObjectIdString(n.id), body, now).1;
    assert db'.notes[k] == EditedNote(n, BodyTitle(body), BodyContent(body), now);
    CastOfString(n.id);
    assert TenantNoteIndex(db.notes, n.id, caller.tenantId).Some?;
  }

  /** Even on a note object that carries its owner, the client offers
      neither edit nor delete to a member on a note somebody else wrote. */
  lemma ClientRefusesOthersNote(caller: ReqUser, n: Note)
    requires caller.role == Member && n.userId != caller.id
    ensures !CanEditNote(Some(ClientUserOf(caller)), Some(ClientNoteOf(n)))
    ensures !CanDeleteNote(Some(ClientUserOf(caller)), Some(ClientNoteOf(n)))
  {
    if ObjectIdString(n.userId) == ObjectIdString(caller.id) {
      StringInjective(n.userId, caller.id);
    }
    CanEditNoteMeaning(Some(ClientUserOf(caller)), Some(ClientNoteOf(n)));
    CanDeleteIsCanEdit(Some(ClientUserOf(caller)), Some(ClientNoteOf(n)));
  }

  /** A member may edit and delete a note of the tenant written by someone
      else: the server answers 200 to both, while the client's
      `canEditNote` and `canDeleteNote` say no for that same member and
      note, whether the note object carries its owner or not
      (`ClientEditsViewOnlyAsAdmin`). */
  lemma MemberEditsOthersNote(db: Db, caller: ReqUser, body: Body, now: int, n: Note)
    requires NotesOk(db.notes) && n in db.notes && n.tenantId == caller.tenantId
    requires caller.role == Member && n.userId != caller.id
    requires ValidateNoteInput(body).Valid?
    ensures UpdateNoteSpec(db, caller, ObjectIdString(n.id), body, now).0.status == 200
    ensures DeleteNoteSpec(db, caller, ObjectIdString(n.id)).0.status == 200
    ensures !CanEditNote(Some(ClientUserOf(caller)), Some(ClientNoteOf(n)))
    ensures !CanDeleteNote(Some(ClientUserOf(caller)), Some(ClientNoteOf(n)))
  {
    ServerEditsTenantNote(db, caller, body, now, n);
    ClientRefusesOthersNote(caller, n);
  }

  /** On the note quota the two sides agree: with a valid body, the client
      offers creation to the caller exactly when the server would not
      refuse it for the limit. */
  lemma CreateRuleAgrees(db: Db, caller: ReqUser, body: Body, id: ObjectId, now: int)
    requires ValidateNoteInput(body).Valid?
    ensures CanCreateNote(Some(ClientUserOf(caller)), Some(CountNotes(db.notes, caller.tenantId))) <==>
            CreateNoteSpec(db, caller, body, id, now).0.status == 201
  {
    CanCreateNoteMatchesLimit(ClientUserOf(caller), caller.plan, CountNotes(db.notes, caller.tenantId));
  }

  /** A successful upgrade leaves the caller's tenant, found by its id, on
      the pro plan, and the users as they were. */
  lemma UpgradedTenantIsPro(db: Db, caller: ReqUser, now: int)
    requires DbValid(db) && IsCaller(db, caller)
    requires UpgradeTenantSpec(db, caller, caller.tenantSlug, now).0.status == 200
    ensures var db' := UpgradeTenantSpec(db, caller, caller.tenantSlug, now).1;
            FindTenant(db'.tenants, caller.tenantId).Some? && FindTenant(db'.tenants, caller.tenantId).value.plan == Pro
  {
    var i := TenantIndex(db.tenants, caller.tenantId).value;
    var t := db.tenants[i];
    assert t.id == caller.tenantId && t.plan == Free;
    UpgradeFreeTenant(db, caller, now, t);
  }

  /** After a successful upgrade, every later request of the tenant's users
      authenticates with the pro plan, read from the tenant record, so the
      quota no longer applies to them: a valid note is always created. */
  lemma UpgradeLiftsQuota(db: Db, caller: ReqUser, now: int, header: Option<string>, verify: string -> Verified,
                          body: Body, id: ObjectId, later: int)
    requires DbValid(db) && IsCaller(db, caller)
    requires UpgradeTenantSpec(db, caller, caller.tenantSlug, now).0.status == 200
    requires var db' := UpgradeTenantSpec(db, caller, caller.tenantSlug, now).1;
             Authenticate(db', header, verify).Authenticated? &&
             Authenticate(db', header, verify).caller.tenantId == caller.tenantId
    requires ValidateNoteInput(body).Valid?
    ensures var db' := UpgradeTenantSpec(db, caller, caller.tenantSlug, now).1;
            var c := Authenticate(db', header, verify).caller;
            c.plan == Pro && CreateNoteSpec(db', c, body, id, later).0.status == 201
  {
    var db' := UpgradeTenantSpec(db, caller, caller.tenantSlug, now).1;
    var c := Authenticate(db', header, verify).caller;
    UpgradedTenantIsPro(db, caller, now);
    assert IsCaller(db', c);
    var u := FindUser(db'.users, c.id).value;
    assert c.plan == FindTenant(db'.tenants, u.tenantId).value.plan;
    CreateNoteStores(db', c, body, id, later);
  }
}
