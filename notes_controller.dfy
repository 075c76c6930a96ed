/** The note handlers: create (with the free-plan quota), list, read,
    update and delete, every one scoped to the caller's tenant. Each write
    handler has a pure specification over the store's value and a method
    that performs it on the store. */
module NotesController {
  import opened Wrappers
  import opened Strings
  import opened ObjectIds
  import opened Constants
  import opened Models
  import opened Http
  import opened Validation
  import opened Store

  const InvalidNoteId: Response := Failure(400, "Invalid ID", "Please provide a valid note ID")
  const NoteNotFound: Response :=
    Failure(404, "Note not found", "The requested note does not exist or you do not have access to it")
  const LimitReached: Response :=
    Response(403, "Subscription limit reached",
             "Free plan is limited to 3 notes. Please upgrade to Pro for unlimited notes.", true, NoPayload)

  /** The raw `title` of the request body (the handlers use the body as
      sent, not Joi's converted value). */
  function BodyTitle(body: Body): string {
    GetString(body, "title").GetOr("")
  }

  /** The raw `content`; `content || ''` stores the empty string when absent. */
  function BodyContent(body: Body): Option<string> {
    GetString(body, "content")
  }

  /** A body that passed validation gives a title whose trimmed form fits
      the note schema and content within its limit. */
  lemma ValidNoteBody(body: Body)
    requires ValidateNoteInput(body).Valid?
    ensures IsTrimmed(Trim(BodyTitle(body))) && 1 <= Utf16Length(Trim(BodyTitle(body))) <= NoteTitleMaxLength
    ensures Utf16Length(BodyContent(body).GetOr("")) <= NoteContentMaxLength
  {
    assert Get(body, "title") == Some(JStr(BodyTitle(body)));
    TrimIdempotent(BodyTitle(body));
  }

  // ---------------------------------------------------------------------
  // createNote

  function CreateNoteSpec(db: Db, caller: ReqUser, body: Body, id: ObjectId, now: int): (Response, Db) {
    match ValidateNoteInput(body)
    case Invalid(_, message) => (ValidationFailure(message), db)
    case Valid(_) =>
      if caller.plan == Free && CountNotes(db.notes, caller.tenantId) >= FreePlanNoteLimit then (LimitReached, db)
      else
        var n := NewNote(id, caller.tenantId, caller.id, BodyTitle(body), BodyContent(body), now);
        (Success(201, "Note created successfully", CreatedNote(n)), db.(notes := db.notes + [n]))
  }

  /** A body that fails validation is answered 400 with Joi's first message
      before anything is counted or written. */
  lemma CreateNoteInvalidBody(db: Db, caller: ReqUser, body: Body, id: ObjectId, now: int)
    requires !(TitleOk(Get(body, "title")) && ContentOk(Get(body, "content")) && OnlyKeys(body, {"title", "content"}))
    ensures CreateNoteSpec(db, caller, body, id, now).0.status == 400
    ensures CreateNoteSpec(db, caller, body, id, now).1 == db
  {
  }

  /** A free tenant holding three notes or more gets 403 with
      `limit_reached`, and nothing is created. */
  lemma CreateNoteQuota(db: Db, caller: ReqUser, body: Body, id: ObjectId, now: int)
    requires ValidateNoteInput(body).Valid? && caller.plan == Free
    requires CountNotes(db.notes, caller.tenantId) >= FreePlanNoteLimit
    ensures CreateNoteSpec(db, caller, body, id, now) == (LimitReached, db)
    ensures LimitReached.status == 403 && LimitReached.limitReached
  {
  }

  /** A valid note is stored at the end of the collection, in the caller's
      tenant and under the caller's id, with the trimmed title and the
      content or the empty string; it satisfies the note schema, and the
      tenant's count grows by one. A pro caller always gets here. */
  lemma CreateNoteStores(db: Db, caller: ReqUser, body: Body, id: ObjectId, now: int)
    requires ValidateNoteInput(body).Valid?
    requires caller.plan == Pro || CountNotes(db.notes, caller.tenantId) < FreePlanNoteLimit
    ensures var (resp, db') := CreateNoteSpec(db, caller, body, id, now);
            && resp.status == 201 && resp.payload.CreatedNote?
            && var n := resp.payload.note;
               && db' == db.(notes := db.notes + [n])
               && n.id == id && n.tenantId == caller.tenantId && n.userId == caller.id
               && n.title == Trim(BodyTitle(body)) && n.content == BodyContent(body).GetOr("")
               && NoteValid(n)
               && CountNotes(db'.notes, caller.tenantId) == CountNotes(db.notes, caller.tenantId) + 1
  {
    var n := NewNote(id, caller.tenantId, caller.id, BodyTitle(body), BodyContent(body), now);
    ValidNoteBody(body);
    TenantNotesAppend(db.notes, n, caller.tenantId);
  }

  /** Creating a note keeps the store valid; in particular a free tenant
      never goes above three notes. */
  lemma CreateNoteKeepsValid(db: Db, caller: ReqUser, body: Body, id: ObjectId, now: int)
    requires DbValid(db) && IsCaller(db, caller) && FreshId(db, id)
    ensures DbValid(CreateNoteSpec(db, caller, body, id, now).1)
  {
    if ValidateNoteInput(body).Valid? && (caller.plan == Pro || CountNotes(db.notes, caller.tenantId) < FreePlanNoteLimit) {
      CreateNoteStores(db, caller, body, id, now);
      var n := CreateNoteSpec(db, caller, body, id, now).0.payload.note;
      forall t | t in db.tenants && t.plan == Free && t.id == n.tenantId
        ensures CountNotes(db.notes, t.id) < FreePlanNoteLimit
      {
        CallerTenant(db, caller, t);
      }
      AppendNoteKeepsValid(db, n);
    }
  }

  /** No other tenant's notes change. */
  lemma CreateNoteOtherTenants(db: Db, caller: ReqUser, body: Body, id: ObjectId, now: int, other: ObjectId)
    requires other != caller.tenantId
    ensures TenantNotes(CreateNoteSpec(db, caller, body, id, now).1.notes, other) == TenantNotes(db.notes, other)
  {
    var r := CreateNoteSpec(db, caller, body, id, now);
    if r.1 != db {
      TenantNotesAppend(db.notes, r.0.payload.note, other);
    }
  }

  /** A note stamped at `now`, no earlier than any stored record, keeps
      the store in creation-time order. */
  lemma CreateNoteKeepsTimeOrder(db: Db, caller: ReqUser, body: Body, id: ObjectId, now: int)
    requires InTimeOrder(db) && StampedBy(db, now)
    ensures InTimeOrder(CreateNoteSpec(db, caller, body, id, now).1)
    ensures StampedBy(CreateNoteSpec(db, caller, body, id, now).1, now)
  {
    var db' := CreateNoteSpec(db, caller, body, id, now).1;
    if db' != db {
      var n := NewNote(id, caller.tenantId, caller.id, BodyTitle(body), BodyContent(body), now);
      assert db'.notes == db.notes + [n];
      AppendAscending(db.notes, n, NoteCreatedAt);
    }
  }

  method CreateNote(store: Database, caller: ReqUser, body: Body, id: ObjectId, now: int) returns (response: Response)
    modifies store
    ensures (response, store.Value()) == CreateNoteSpec(old(store.Value()), caller, body, id, now)
  {
    ghost var db := store.Value();
    var checked := ValidateNoteInput(body);
    if checked.Invalid? {
      return ValidationFailure(checked.message);
    }
    var count := 0;
    if caller.plan == Free {
      count := CountTenantNotes(store.notes, caller.tenantId);
      if count >= FreePlanNoteLimit {
        return LimitReached;
      }
    }
    var n := NewNote(id, caller.tenantId, caller.id, BodyTitle(body), BodyContent(body), now);
    store.notes := store.notes + [n];
    response := Success(201, "Note created successfully", CreatedNote(n));
    assert store.Value() == db.(notes := db.notes + [n]);
  }

  // ---------------------------------------------------------------------
  // getNotes

  const DefaultNotesLimit: nat := 50

  function NoteViews(us: seq<User>, ns: seq<Note>): (vs: seq<NoteView>)
    ensures |vs| == |ns|
    ensures forall i :: 0 <= i < |ns| ==> vs[i] == FormatNote(us, ns[i])
  {
    seq(|ns|, i requires 0 <= i < |ns| => FormatNote(us, ns[i]))
  }

  /** `getNotes`: the tenant's notes newest first, one page of them, and
      the pagination record. */
  function GetNotesSpec(db: Db, caller: ReqUser, page: Option<nat>, limit: Option<nat>): Response
    requires page.Some? ==> page.value >= 1
    requires limit.Some? ==> limit.value >= 1
  {
    var p := page.GetOr(1);
    var l := limit.GetOr(DefaultNotesLimit);
    var all := NewestFirst(TenantNotes(db.notes, caller.tenantId));
    Success(200, "", NoteList(NoteViews(db.users, Paginate(all, p, l)), Pagination(p, l, |all|, CeilDiv(|all|, l))))
  }

  /** At most `limit` notes; `total` counts the tenant's notes and `pages`
      is the ceiling of total over limit. */
  lemma GetNotesPagination(db: Db, caller: ReqUser, page: Option<nat>, limit: Option<nat>)
    requires page.Some? ==> page.value >= 1
    requires limit.Some? ==> limit.value >= 1
    ensures var r := GetNotesSpec(db, caller, page, limit);
            var l := limit.GetOr(DefaultNotesLimit);
            && r.status == 200 && r.payload.NoteList?
            && |r.payload.notes| <= l
            && r.payload.pagination == Pagination(page.GetOr(1), l, CountNotes(db.notes, caller.tenantId), r.payload.pagination.pages)
            && r.payload.pagination.pages * l >= r.payload.pagination.total
            && (r.payload.pagination.pages > 0 ==> (r.payload.pagination.pages - 1) * l < r.payload.pagination.total)
  {
  }

  /** The `i`-th note of page `p` is the tenant's `(p-1)*limit + i`-th
      newest note. */
  lemma GetNotesOrder(db: Db, caller: ReqUser, page: Option<nat>, limit: Option<nat>, i: nat)
    requires page.Some? ==> page.value >= 1
    requires limit.Some? ==> limit.value >= 1
    requires i < |GetNotesSpec(db, caller, page, limit).payload.notes|
    ensures var skip := PageStart(page.GetOr(1), limit.GetOr(DefaultNotesLimit));
            var mine := TenantNotes(db.notes, caller.tenantId);
            && skip + i < |mine|
            && GetNotesSpec(db, caller, page, limit).payload.notes[i] == FormatNote(db.users, mine[|mine| - 1 - (skip + i)])
  {
    var mine := TenantNotes(db.notes, caller.tenantId);
    NewestPageAt(mine, page.GetOr(1), limit.GetOr(DefaultNotesLimit), i);
  }

  /** While the store is in creation-time order, each page lists its notes
      with creation times that never increase: the `sort({ created_at: -1 })`
      order. */
  lemma GetNotesNewestFirst(db: Db, caller: ReqUser, page: Option<nat>, limit: Option<nat>, i: nat, j: nat)
    requires page.Some? ==> page.value >= 1
    requires limit.Some? ==> limit.value >= 1
    requires InTimeOrder(db)
    requires i < j < |GetNotesSpec(db, caller, page, limit).payload.notes|
    ensures GetNotesSpec(db, caller, page, limit).payload.notes[i].createdAt
         >= GetNotesSpec(db, caller, page, limit).payload.notes[j].createdAt
  {
    GetNotesOrder(db, caller, page, limit, i);
    GetNotesOrder(db, caller, page, limit, j);
    TenantNotesAscending(db.notes, caller.tenantId);
  }

  /** Each entry of the tenant's notes is a stored note of that tenant. */
  lemma TenantNoteAt(ns: seq<Note>, tenantId: ObjectId, k: nat)
    requires k < |TenantNotes(ns, tenantId)|
    ensures TenantNotes(ns, tenantId)[k] in ns && TenantNotes(ns, tenantId)[k].tenantId == tenantId
  {
    FilterMembers(ns, (n: Note) => n.tenantId == tenantId);
  }

  /** Every note listed is a stored note of the caller's tenant. */
  lemma GetNotesScoped(db: Db, caller: ReqUser, page: Option<nat>, limit: Option<nat>, i: nat)
    requires page.Some? ==> page.value >= 1
    requires limit.Some? ==> limit.value >= 1
    requires i < |GetNotesSpec(db, caller, page, limit).payload.notes|
    ensures exists n :: n in db.notes && n.tenantId == caller.tenantId
                     && GetNotesSpec(db, caller, page, limit).payload.notes[i] == FormatNote(db.users, n)
  {
    var skip := PageStart(page.GetOr(1), limit.GetOr(DefaultNotesLimit));
    var mine := TenantNotes(db.notes, caller.tenantId);
    GetNotesOrder(db, caller, page, limit, i);
    TenantNoteAt(db.notes, caller.tenantId, |mine| - 1 - (skip + i));
  }

  /** Other tenants' notes cannot influence the listing. */
  lemma GetNotesIsolated(db: Db, caller: ReqUser, page: Option<nat>, limit: Option<nat>)
    requires page.Some? ==> page.value >= 1
    requires limit.Some? ==> limit.value >= 1
    ensures GetNotesSpec(db, caller, page, limit)
         == GetNotesSpec(db.(notes := TenantNotes(db.notes, caller.tenantId)), caller, page, limit)
  {
    var p := (n: Note) => n.tenantId == caller.tenantId;
    FilterFilter(db.notes, p, p);
  }

  // ---------------------------------------------------------------------
  // getNote

  /** `Note.findOne({ _id: id, tenant_id })`. */
  function FindTenantNote(ns: seq<Note>, id: ObjectId, tenantId: ObjectId): Option<Note> {
    FindFirst(ns, (n: Note) => n.id == id && n.tenantId == tenantId)
  }

  function GetNoteSpec(db: Db, caller: ReqUser, id: string): Response {
    match CastObjectId(id)
    case None => InvalidNoteId
    case Some(oid) =>
      match FindTenantNote(db.notes, oid, caller.tenantId)
      case None => NoteNotFound
      case Some(n) => Success(200, "", OneNote(FormatNote(db.users, n)))
  }

  /** A malformed id is answered 400 whatever the store holds. */
  lemma GetNoteMalformedId(db: Db, caller: ReqUser, id: string)
    requires !IsValidObjectId(id)
    ensures GetNoteSpec(db, caller, id) == InvalidNoteId
  {
  }

  /** A note that does not exist and a note of another tenant get the same 404. */
  lemma GetNoteMissingOrForeign(db: Db, caller: ReqUser, id: string)
    requires CastObjectId(id).Some?
    requires forall n :: n in db.notes && n.id == CastObjectId(id).value ==> n.tenantId != caller.tenantId
    ensures GetNoteSpec(db, caller, id) == NoteNotFound
  {
    var oid := CastObjectId(id).value;
    FilterMembers(db.notes, (n: Note) => n.id == oid && n.tenantId == caller.tenantId);
  }

  /** With unique ids, the one filter match is the note itself. */
  lemma FindTenantNoteHit(ns: seq<Note>, n: Note)
    requires NotesOk(ns) && n in ns
    ensures FindTenantNote(ns, n.id, n.tenantId) == Some(n)
  {
    var q := (m: Note) => m.id == n.id && m.tenantId == n.tenantId;
    FilterMembers(ns, q);
    var f := Filter(ns, q);
    var j :| 0 <= j < |ns| && ns[j] == n;
    assert n in f;
    var k :| 0 <= k < |ns| && ns[k] == f[0];
  }

  /** A note of the caller's tenant is found by the string its id prints as. */
  lemma GetNoteFound(db: Db, caller: ReqUser, n: Note)
    requires NotesOk(db.notes) && n in db.notes && n.tenantId == caller.tenantId
    ensures GetNoteSpec(db, caller, ObjectIdString(n.id)) == Success(200, "", OneNote(FormatNote(db.users, n)))
  {
    CastOfString(n.id);
    FindTenantNoteHit(db.notes, n);
  }

  /** Other tenants' notes cannot influence the answer. */
  lemma GetNoteIsolated(db: Db, caller: ReqUser, id: string)
    ensures GetNoteSpec(db, caller, id) == GetNoteSpec(db.(notes := TenantNotes(db.notes, caller.tenantId)), caller, id)
  {
    if CastObjectId(id).Some? {
      var oid := CastObjectId(id).value;
      FilterFilter(db.notes, (n: Note) => n.tenantId == caller.tenantId, (n: Note) => n.id == oid && n.tenantId == caller.tenantId);
    }
  }

  // ---------------------------------------------------------------------
  // updateNote

  /** The note after `findOneAndUpdate`: the title setter trims, content
      defaults to the empty string, `updated_at` is now; nothing else moves. */
  function EditedNote(n: Note, title: string, content: Option<string>, now: int): Note {
    n.(title := Trim(title), content := content.GetOr(""), updatedAt := now)
  }

  function UpdateNoteSpec(db: Db, caller: ReqUser, id: string, body: Body, now: int): (Response, Db) {
    match CastObjectId(id)
    case None => (InvalidNoteId, db)
    case Some(oid) =>
      match ValidateNoteInput(body)
      case Invalid(_, message) => (ValidationFailure(message), db)
      case Valid(_) =>
        match TenantNoteIndex(db.notes, oid, caller.tenantId)
        case None => (NoteNotFound, db)
        case Some(i) =>
          var n := EditedNote(db.notes[i], BodyTitle(body), BodyContent(body), now);
          (Success(200, "Note updated successfully", OneNote(FormatNote(db.users, n))), db.(notes := db.notes[i := n]))
  }

  /** The id is checked before the body: a malformed id answers 400
      "Invalid ID" even for a body that would fail validation. */
  lemma UpdateNoteChecksIdFirst(db: Db, caller: ReqUser, id: string, body: Body, now: int)
    requires !IsValidObjectId(id)
    ensures UpdateNoteSpec(db, caller, id, body, now) == (InvalidNoteId, db)
  {
  }

  /** A missing note and another tenant's note get the same 404, and nothing changes. */
  lemma UpdateNoteMissingOrForeign(db: Db, caller: ReqUser, id: string, body: Body, now: int)
    requires CastObjectId(id).Some? && ValidateNoteInput(body).Valid?
    requires forall n :: n in db.notes && n.id == CastObjectId(id).value ==> n.tenantId != caller.tenantId
    ensures UpdateNoteSpec(db, caller, id, body, now) == (NoteNotFound, db)
  {
  }

  /** Exactly the note with that id changes, and only its title, content
      and `updated_at`; the response shows the edited note. */
  lemma UpdateNoteEdits(db: Db, caller: ReqUser, body: Body, now: int, n: Note)
    requires NotesOk(db.notes) && n in db.notes && n.tenantId == caller.tenantId
    requires ValidateNoteInput(body).Valid?
    ensures var (resp, db') := UpdateNoteSpec(db, caller, ObjectIdString(n.id), body, now);
            var m := EditedNote(n, BodyTitle(body), BodyContent(body), now);
            && resp == Success(200, "Note updated successfully", OneNote(FormatNote(db.users, m)))
            && db'.tenants == db.tenants && db'.users == db.users
            && |db'.notes| == |db.notes|
            && (forall j :: 0 <= j < |db.notes| ==> db'.notes[j] == if db.notes[j].id == n.id then m else db.notes[j])
  {
    CastOfString(n.id);
    TenantNoteIndexHit(db.notes, n);
  }

  /** Every other tenant's notes are left as they were. */
  lemma UpdateNoteOtherTenants(db: Db, caller: ReqUser, id: string, body: Body, now: int, other: ObjectId)
    requires other != caller.tenantId
    ensures TenantNotes(UpdateNoteSpec(db, caller, id, body, now).1.notes, other) == TenantNotes(db.notes, other)
  {
    if CastObjectId(id).Some? && ValidateNoteInput(body).Valid? {
      var oid := CastObjectId(id).value;
      match TenantNoteIndex(db.notes, oid, caller.tenantId)
      case None =>
      case Some(i) =>
        var n := EditedNote(db.notes[i], BodyTitle(body), BodyContent(body), now);
        FilterUpdateOther(db.notes, i, n, (m: Note) => m.tenantId == other);
    }
  }

  lemma UpdateNoteKeepsValid(db: Db, caller: ReqUser, id: string, body: Body, now: int)
    requires DbValid(db)
    ensures DbValid(UpdateNoteSpec(db, caller, id, body, now).1)
  {
    if CastObjectId(id).Some? && ValidateNoteInput(body).Valid? {
      match TenantNoteIndex(db.notes, CastObjectId(id).value, caller.tenantId)
      case None =>
      case Some(i) =>
        var n := EditedNote(db.notes[i], BodyTitle(body), BodyContent(body), now);
        ValidNoteBody(body);
        ReplaceNoteKeepsValid(db, i, n);
    }
  }

  /** An edit keeps `created_at`, and so the creation-time order. */
  lemma UpdateNoteKeepsTimeOrder(db: Db, caller: ReqUser, id: string, body: Body, now: int, clock: int)
    requires InTimeOrder(db) && StampedBy(db, clock)
    ensures InTimeOrder(UpdateNoteSpec(db, caller, id, body, now).1)
    ensures StampedBy(UpdateNoteSpec(db, caller, id, body, now).1, clock)
  {
    if CastObjectId(id).Some? && ValidateNoteInput(body).Valid? {
      match TenantNoteIndex(db.notes, CastObjectId(id).value, caller.tenantId)
      case None =>
      case Some(i) =>
        var ns := db.notes[i := EditedNote(db.notes[i], BodyTitle(body), BodyContent(body), now)];
        forall a, b | 0 <= a < b < |ns|
          ensures NoteCreatedAt(ns[a]) <= NoteCreatedAt(ns[b])
        {
          assert ns[a].createdAt == db.notes[a].createdAt && ns[b].createdAt == db.notes[b].createdAt;
        }
        forall n | n in ns
          ensures n.createdAt <= clock
        {
          var k :| 0 <= k < |ns| && ns[k] == n;
          assert n.createdAt == db.notes[k].createdAt && db.notes[k] in db.notes;
        }
    }
  }

  method UpdateNote(store: Database, caller: ReqUser, id: string, body: Body, now: int) returns (response: Response)
    modifies store
    ensures (response, store.Value()) == UpdateNoteSpec(old(store.Value()), caller, id, body, now)
  {
    var oid := CastObjectId(id);
    if oid.None? {
      return InvalidNoteId;
    }
    var checked := ValidateNoteInput(body);
    if checked.Invalid? {
      return ValidationFailure(checked.message);
    }
    var i := TenantNoteIndex(store.notes, oid.value, caller.tenantId);
    if i.None? {
      return NoteNotFound;
    }
    var n := EditedNote(store.notes[i.value], BodyTitle(body), BodyContent(body), now);
    store.notes := store.notes[i.value := n];
    response := Success(200, "Note updated successfully", OneNote(FormatNote(store.users, n)));
  }

  // ---------------------------------------------------------------------
  // deleteNote

  function DeleteNoteSpec(db: Db, caller: ReqUser, id: string): (Response, Db) {
    match CastObjectId(id)
    case None => (InvalidNoteId, db)
    case Some(oid) =>
      match TenantNoteIndex(db.notes, oid, caller.tenantId)
      case None => (NoteNotFound, db)
      case Some(i) => (Success(200, "Note deleted successfully", DeletedNote(id)), db.(notes := Remove(db.notes, i)))
  }

  /** A successful delete removes exactly the note with that id: every
      other note stays, and a later read of the id is the 404. */
  lemma DeleteNoteRemoves(db: Db, caller: ReqUser, id: string)
    requires NotesOk(db.notes)
    requires DeleteNoteSpec(db, caller, id).0.status == 200
    ensures var db' := DeleteNoteSpec(db, caller, id).1;
            && |db'.notes| == |db.notes| - 1
            && (forall n :: n in db.notes && Some(n.id) != CastObjectId(id) ==> n in db'.notes)
            && (forall n :: n in db'.notes ==> n in db.notes && Some(n.id) != CastObjectId(id))
            && GetNoteSpec(db', caller, id) == NoteNotFound
  {
    var oid := CastObjectId(id).value;
    var i := TenantNoteIndex(db.notes, oid, caller.tenantId).value;
    var db' := DeleteNoteSpec(db, caller, id).1;
    assert db'.notes == Remove(db.notes, i);
    forall n | n in db.notes && n.id != oid
      ensures n in db'.notes
    {
      var k :| 0 <= k < |db.notes| && db.notes[k] == n;
      RemoveKeeps(db.notes, i, k);
    }
    forall n | n in db'.notes
      ensures n in db.notes && n.id != oid
    {
      var k := RemoveOrigin(db.notes, i, n);
    }
    GetNoteMissingOrForeign(db', caller, id);
  }

  /** A missing note and another tenant's note get the same 404. */
  lemma DeleteNoteMissingOrForeign(db: Db, caller: ReqUser, id: string)
    requires CastObjectId(id).Some?
    requires forall n :: n in db.notes && n.id == CastObjectId(id).value ==> n.tenantId != caller.tenantId
    ensures DeleteNoteSpec(db, caller, id) == (NoteNotFound, db)
  {
  }

  lemma DeleteNoteOtherTenants(db: Db, caller: ReqUser, id: string, other: ObjectId)
    requires other != caller.tenantId
    ensures TenantNotes(DeleteNoteSpec(db, caller, id).1.notes, other) == TenantNotes(db.notes, other)
  {
    if CastObjectId(id).Some? {
      match TenantNoteIndex(db.notes, CastObjectId(id).value, caller.tenantId)
      case None =>
      case Some(i) =>
        FilterRemove(db.notes, i, (m: Note) => m.tenantId == other);
    }
  }

  lemma DeleteNoteKeepsValid(db: Db, caller: ReqUser, id: string)
    requires DbValid(db)
    ensures DbValid(DeleteNoteSpec(db, caller, id).1)
  {
    if CastObjectId(id).Some? {
      match TenantNoteIndex(db.notes, CastObjectId(id).value, caller.tenantId)
      case None =>
      case Some(i) => RemoveNoteKeepsValid(db, i);
    }
  }

  /** A delete keeps the creation-time order of the notes left. */
  lemma DeleteNoteKeepsTimeOrder(db: Db, caller: ReqUser, id: string, clock: int)
    requires InTimeOrder(db) && StampedBy(db, clock)
    ensures InTimeOrder(DeleteNoteSpec(db, caller, id).1) && StampedBy(DeleteNoteSpec(db, caller, id).1, clock)
  {
    if CastObjectId(id).Some? {
      match TenantNoteIndex(db.notes, CastObjectId(id).value, caller.tenantId)
      case None =>
      case Some(i) =>
        RemoveAscending(db.notes, i, NoteCreatedAt);
        forall n | n in Remove(db.notes, i)
          ensures n in db.notes
        {
          var k := RemoveOrigin(db.notes, i, n);
        }
    }
  }

  method DeleteNote(store: Database, caller: ReqUser, id: string) returns (response: Response)
    modifies store
    ensures (response, store.Value()) == DeleteNoteSpec(old(store.Value()), caller, id)
  {
    var oid := CastObjectId(id);
    if oid.None? {
      return InvalidNoteId;
    }
    var i := TenantNoteIndex(store.notes, oid.value, caller.tenantId);
    if i.None? {
      return NoteNotFound;
    }
    store.notes := Remove(store.notes, i.value);
    response := Success(200, "Note deleted successfully", DeletedNote(id));
  }
}
