/** Request and response shapes shared by the middleware and the handlers:
    JSON request values, the authenticated caller, the response body
    variants, and the request object the middleware writes into. */
module Http {
  import opened Wrappers
  import opened ObjectIds
  import opened Constants
  import opened Models

  /** A JSON value as far as validation cares: a string, an integral number,
      a non-integral number lying strictly between `below` and `below + 1`,
      or anything else (boolean, null, array, object). */
  datatype JsValue = JStr(s: string) | JInt(i: int) | JFraction(below: int) | JOther

  /** A parsed JSON object (request body or query): its entries in key order.
      Its keys are taken to be distinct, as a parsed object's are, so `Get`
      finds the only entry for a key. */
  type Body = seq<(string, JsValue)>

  /** The value stored under `key`, if any. */
  function Get(b: Body, key: string): (r: Option<JsValue>)
    ensures r.Some? <==> exists j :: 0 <= j < |b| && b[j].0 == key
    ensures r.Some? ==> exists j :: 0 <= j < |b| && b[j] == (key, r.value)
  {
    if b == [] then None
    else if b[0].0 == key then Some(b[0].1)
    else
      var r := Get(b[1..], key);
      assert forall j :: 0 < j < |b| ==> b[j] == b[1..][j-1];
      r
  }

  /** The string stored under `key`, or None if absent or not a string. */
  function GetString(b: Body, key: string): Option<string> {
    match Get(b, key)
    case Some(JStr(s)) => Some(s)
    case _ => None
  }

  /** `req.user` as the authentication middleware builds it from the live user
      record and its tenant. */
  datatype ReqUser = ReqUser(
    id: ObjectId, email: string, role: Role,
    tenantId: ObjectId, tenantSlug: string, tenantName: string, plan: Plan)

  /** A note as the read handlers format it. */
  datatype NoteView = NoteView(
    id: ObjectId, title: string, content: string, createdAt: int, updatedAt: int,
    createdByEmail: string)

  datatype Pagination = Pagination(page: nat, limit: nat, total: nat, pages: nat)

  /** The fields `inviteUser` returns for the new user. */
  datatype InvitedUser = InvitedUser(id: ObjectId, email: string, role: Role, tenantId: ObjectId, createdAt: int)

  datatype TenantSummary = TenantSummary(id: ObjectId, slug: string, name: string, plan: Plan, updatedAt: int)

  /** `note_limit` is None for the JSON null of the pro plan. */
  datatype TenantDetails = TenantDetails(
    id: ObjectId, slug: string, name: string, plan: Plan, createdAt: int, updatedAt: int,
    userCount: nat, noteCount: nat, noteLimit: Option<nat>)

  datatype Stats = Stats(
    totalUsers: nat, adminUsers: nat, memberUsers: nat,
    totalNotes: nat, notesToday: nat, notesThisWeek: nat, notesThisMonth: nat)

  datatype RecentNote = RecentNote(id: ObjectId, title: string, createdAt: int, createdBy: string)

  /** The body fields of a response besides `error`, `message` and `limit_reached`. */
  datatype Payload =
    | NoPayload
    | ErrorDetails(details: seq<(string, string)>)
    | CreatedNote(note: Note)
    | OneNote(view: NoteView)
    | NoteList(notes: seq<NoteView>, pagination: Pagination)
    | DeletedNote(deletedId: string)
    | Invited(invited: InvitedUser, notice: string)
    | UserList(users: seq<UserView>, pagination: Pagination)
    | UpdatedUser(updated: UserView)
    | RemovedUser(removedId: string)
    | UpgradedTenant(tenant: TenantSummary)
    | TenantInfo(tenantDetails: TenantDetails)
    | TenantStats(stats: Stats, recent: seq<RecentNote>)
    | LoginResult(token: string, caller: ReqUser)
    | Notice(notice: string)
    | Profile(caller: ReqUser)
    | TokenValid(valid: bool, caller: ReqUser)

  /** A JSON response: status, the `error` tag (empty on success), the
      `message` (empty when the body has none), the `limit_reached` flag and
      the remaining body. */
  datatype Response = Response(status: nat, error: string, message: string, limitReached: bool, payload: Payload)

  function Failure(status: nat, error: string, message: string): Response {
    Response(status, error, message, false, NoPayload)
  }

  function Success(status: nat, message: string, payload: Payload): Response {
    Response(status, "", message, false, payload)
  }

  /** What a middleware does: call `next()`, or answer and stop the chain. */
  datatype Next = Continue | Halt(response: Response)

  /** The parts of an Express request the middleware and handlers use. */
  class Request {
    var authorization: Option<string>
    var body: Body
    var query: Body
    var user: Option<ReqUser>
    var tenantId: Option<ObjectId>

    constructor (authorization: Option<string>, body: Body, query: Body)
      ensures this.authorization == authorization && this.body == body && this.query == query
      ensures user.None? && tenantId.None?
    {
      this.authorization := authorization;
      this.body := body;
      this.query := query;
      this.user := None;
      this.tenantId := None;
    }
  }
}
