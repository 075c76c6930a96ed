/** The three MongoDB collections the handlers read and write, the queries
    they issue (`findById`, `findOne`, `countDocuments`, `find().sort()
    .skip().limit()`), and the invariant the collections keep between
    requests: unique ids, records that satisfy their schemas, one user per
    (tenant, e-mail), unique tenant slugs, and at most three notes for a
    tenant on the free plan. */
module Store {
  import opened Wrappers
  import opened Strings
  import opened ObjectIds
  import opened Constants
  import opened Models
  import opened Http

  /** The collections in insertion order. */
  datatype Db = Db(tenants: seq<Tenant>, users: seq<User>, notes: seq<Note>)

  // ---------------------------------------------------------------------
  // Sequence helpers

  /** Index of the first element satisfying `p`: what `findOne` returns. */
  function FirstIndex<T>(s: seq<T>, p: T -> bool): (r: Option<nat>)
    ensures r.Some? ==> r.value < |s| && p(s[r.value])
    ensures r.Some? ==> forall j :: 0 <= j < r.value ==> !p(s[j])
    ensures r.None? <==> forall j :: 0 <= j < |s| ==> !p(s[j])
  {
    if s == [] then None
    else if p(s[0]) then Some(0)
    else
      match FirstIndex(s[1..], p)
      case None => None
      case Some(j) => Some(j + 1)
  }

  /** The elements satisfying `p`, in order: the result of `find(filter)`. */
  function Filter<T>(s: seq<T>, p: T -> bool): (r: seq<T>)
    ensures |r| <= |s|
  {
    if s == [] then []
    else
      var last := s[|s| - 1];
      Filter(s[..|s| - 1], p) + if p(last) then [last] else []
  }

  /** Every element of the filtered sequence comes from the input and passes `p`. */
  lemma {:induction false} FilterMembers<T>(s: seq<T>, p: T -> bool)
    ensures forall i :: 0 <= i < |Filter(s, p)| ==> Filter(s, p)[i] in s && p(Filter(s, p)[i])
    ensures forall i :: 0 <= i < |s| && p(s[i]) ==> s[i] in Filter(s, p)
  {
    if s != [] {
      var s' := s[..|s| - 1];
      FilterMembers(s', p);
      forall i | 0 <= i < |s| && p(s[i])
        ensures s[i] in Filter(s, p)
      {
        if i < |s| - 1 {
          assert s[i] == s'[i];
        }
      }
    }
  }

  lemma {:induction false} FilterConcat<T>(a: seq<T>, b: seq<T>, p: T -> bool)
    ensures Filter(a + b, p) == Filter(a, p) + Filter(b, p)
  {
    if b != [] {
      var b' := b[..|b| - 1];
      var last := b[|b| - 1];
      assert (a + b)[..|a + b| - 1] == a + b';
      assert (a + b)[|a + b| - 1] == last;
      FilterConcat(a, b', p);
      assert Filter(b, p) == Filter(b', p) + (if p(last) then [last] else []);
    } else {
      assert a + b == a;
    }
  }

  /** A stricter predicate keeps no more elements. */
  lemma {:induction false} FilterCountMono<T>(s: seq<T>, p: T -> bool, q: T -> bool)
    requires forall x :: p(x) ==> q(x)
    ensures |Filter(s, p)| <= |Filter(s, q)|
  {
    if s != [] {
      FilterCountMono(s[..|s| - 1], p, q);
    }
  }

  /** Filtering by a stricter predicate after a looser one is filtering by
      the stricter one alone. */
  lemma {:induction false} FilterFilter<T>(s: seq<T>, p: T -> bool, q: T -> bool)
    requires forall x :: q(x) ==> p(x)
    ensures Filter(Filter(s, p), q) == Filter(s, q)
  {
    if s != [] {
      var s' := s[..|s| - 1];
      var last := s[|s| - 1];
      FilterFilter(s', p, q);
      var head := if p(last) then [last] else [];
      FilterConcat(Filter(s', p), head, q);
      assert Filter(head, q) == if q(last) then [last] else [] by {
        if p(last) {
          assert head[..0] == [];
        }
      }
    }
  }

  /** The first element satisfying `p`, read off the filtered sequence. */
  function FindFirst<T>(s: seq<T>, p: T -> bool): Option<T> {
    var f := Filter(s, p);
    if f == [] then None else Some(f[0])
  }

  /** The first index satisfying `p` holds the first element of the filter. */
  lemma FirstIndexFilter<T>(s: seq<T>, p: T -> bool)
    ensures FirstIndex(s, p).None? <==> Filter(s, p) == []
    ensures FirstIndex(s, p).Some? ==> FindFirst(s, p) == Some(s[FirstIndex(s, p).value])
  {
    match FirstIndex(s, p)
    case None => FilterEmpty(s, p);
    case Some(i) => FilterFirst(s, p, i);
  }

  /** Nothing passes the filter when no element satisfies `p`. */
  lemma {:induction false} FilterEmpty<T>(s: seq<T>, p: T -> bool)
    requires forall j :: 0 <= j < |s| ==> !p(s[j])
    ensures Filter(s, p) == []
  {
    if s != [] {
      FilterEmpty(s[..|s| - 1], p);
    }
  }

  /** The first element satisfying `p` heads the filtered sequence. */
  lemma FilterFirst<T>(s: seq<T>, p: T -> bool, i: nat)
    requires i < |s| && p(s[i]) && forall j :: 0 <= j < i ==> !p(s[j])
    ensures Filter(s, p) != [] && Filter(s, p)[0] == s[i]
  {
    assert s == s[..i + 1] + s[i + 1..];
    FilterConcat(s[..i + 1], s[i + 1..], p);
    assert s[..i + 1][..i] == s[..i];
    FilterEmpty(s[..i], p);
  }


  /** Replacing one element by another that `p` judges alike keeps the
      number of matches. */
  lemma FilterUpdateCount<T>(s: seq<T>, i: nat, v: T, p: T -> bool)
    requires i < |s| && p(s[i]) == p(v)
    ensures |Filter(s[i := v], p)| == |Filter(s, p)|
  {
    assert s == s[..i] + [s[i]] + s[i + 1..];
    assert s[i := v] == s[..i] + [v] + s[i + 1..];
    FilterConcat(s[..i] + [s[i]], s[i + 1..], p);
    FilterConcat(s[..i], [s[i]], p);
    FilterConcat(s[..i] + [v], s[i + 1..], p);
    FilterConcat(s[..i], [v], p);
    assert Filter([v], p) == (if p(v) then [v] else []);
    assert Filter([s[i]], p) == (if p(s[i]) then [s[i]] else []);
  }

  /** Replacing an element that `p` rejects by another that `p` rejects
      leaves the matches as they were. */
  lemma FilterUpdateOther<T>(s: seq<T>, i: nat, v: T, p: T -> bool)
    requires i < |s| && !p(s[i]) && !p(v)
    ensures Filter(s[i := v], p) == Filter(s, p)
  {
    assert s == s[..i] + [s[i]] + s[i + 1..];
    assert s[i := v] == s[..i] + [v] + s[i + 1..];
    FilterConcat(s[..i] + [s[i]], s[i + 1..], p);
    FilterConcat(s[..i], [s[i]], p);
    FilterConcat(s[..i] + [v], s[i + 1..], p);
    FilterConcat(s[..i], [v], p);
    assert Filter([v], p) == [];
    assert Filter([s[i]], p) == [];
  }

  /** The sequence without its `i`-th element (`findOneAndDelete`). */
  function Remove<T>(s: seq<T>, i: nat): (r: seq<T>)
    requires i < |s|
    ensures |r| == |s| - 1
    ensures forall j :: 0 <= j < |r| ==> r[j] == if j < i then s[j] else s[j + 1]
  {
    s[..i] + s[i + 1..]
  }

  /** Removing an element keeps the matches of `p` minus at most that one. */
  lemma FilterRemove<T>(s: seq<T>, i: nat, p: T -> bool)
    requires i < |s|
    ensures |Filter(Remove(s, i), p)| == |Filter(s, p)| - (if p(s[i]) then 1 else 0)
    ensures !p(s[i]) ==> Filter(Remove(s, i), p) == Filter(s, p)
  {
    assert s == s[..i] + [s[i]] + s[i + 1..];
    FilterConcat(s[..i] + [s[i]], s[i + 1..], p);
    FilterConcat(s[..i], [s[i]], p);
    FilterConcat(s[..i], s[i + 1..], p);
    assert Filter([s[i]], p) == (if p(s[i]) then [s[i]] else []);
  }

  function Reverse<T>(s: seq<T>): (r: seq<T>)
    ensures |r| == |s|
    ensures forall i :: 0 <= i < |s| ==> r[i] == s[|s| - 1 - i]
  {
    seq(|s|, i requires 0 <= i < |s| => s[|s| - 1 - i])
  }

  /** How many records `.skip((page - 1) * limit)` passes over. */
  function PageStart(page: nat, limit: nat): nat
    requires page >= 1
  {
    (page - 1) * limit
  }

  /** `.skip((page - 1) * limit).limit(limit)` on an already sorted result. */
  function Paginate<T>(s: seq<T>, page: nat, limit: nat): (r: seq<T>)
    requires page >= 1
    ensures |r| <= limit
    ensures PageStart(page, limit) <= |s| ==>
              |r| == if |s| - PageStart(page, limit) < limit then |s| - PageStart(page, limit) else limit
    ensures forall i :: 0 <= i < |r| ==> PageStart(page, limit) + i < |s| && r[i] == s[PageStart(page, limit) + i]
  {
    var skip := PageStart(page, limit);
    if skip >= |s| then []
    else if |s| - skip <= limit then s[skip..]
    else s[skip..skip + limit]
  }

  /** The `i`-th record of a page of the newest-first order is the
      `(PageStart + i)`-th newest. */
  lemma NewestPageAt<T>(s: seq<T>, page: nat, limit: nat, i: nat)
    requires page >= 1 && i < |Paginate(NewestFirst(s), page, limit)|
    ensures PageStart(page, limit) + i < |s|
    ensures Paginate(NewestFirst(s), page, limit)[i] == s[|s| - 1 - (PageStart(page, limit) + i)]
  {
  }

  /** `Math.ceil(total / limit)` for a positive limit. */
  function CeilDiv(total: nat, limit: nat): (pages: nat)
    requires limit >= 1
    ensures pages * limit >= total
    ensures pages > 0 ==> (pages - 1) * limit < total
  {
    (total + limit - 1) / limit
  }

  // ---------------------------------------------------------------------
  // Queries

  function TenantIndex(ts: seq<Tenant>, id: ObjectId): Option<nat> {
    FirstIndex(ts, (t: Tenant) => t.id == id)
  }

  /** `Tenant.findById(id)`. */
  function FindTenant(ts: seq<Tenant>, id: ObjectId): (r: Option<Tenant>)
    ensures r.Some? ==> r.value in ts && r.value.id == id
    ensures r.None? <==> forall t :: t in ts ==> t.id != id
  {
    match TenantIndex(ts, id)
    case None => None
    case Some(i) => Some(ts[i])
  }

  /** Updating the record found by id, keeping its id, leaves it the one found. */
  lemma TenantIndexAfterUpdate(ts: seq<Tenant>, i: nat, t: Tenant)
    requires TenantIndex(ts, t.id) == Some(i)
    ensures TenantIndex(ts[i := t], t.id) == Some(i)
  {
    assert forall j :: 0 <= j < i ==> ts[i := t][j] == ts[j];
    assert ts[i := t][i] == t;
  }

  /** `Tenant.findOne({ slug })`. */
  function FindTenantBySlug(ts: seq<Tenant>, slug: string): (r: Option<Tenant>)
    ensures r.Some? ==> r.value in ts && r.value.slug == slug
    ensures r.None? <==> forall t :: t in ts ==> t.slug != slug
  {
    match FirstIndex(ts, (t: Tenant) => t.slug == slug)
    case None => None
    case Some(i) => Some(ts[i])
  }

  /** `User.findById(id)` (any tenant: the populate of a note's author too). */
  function FindUser(us: seq<User>, id: ObjectId): (r: Option<User>)
    ensures r.Some? ==> r.value in us && r.value.id == id
    ensures r.None? <==> forall u :: u in us ==> u.id != id
  {
    match FirstIndex(us, (u: User) => u.id == id)
    case None => None
    case Some(i) => Some(us[i])
  }

  /** `User.findOne({ email })` across all tenants: the first stored match. */
  function UserByEmailIndex(us: seq<User>, email: string): Option<nat> {
    FirstIndex(us, (u: User) => u.email == email)
  }

  /** `User.findOne({ _id, tenant_id })`, as an index for the update and delete. */
  function TenantUserIndex(us: seq<User>, id: ObjectId, tenantId: ObjectId): Option<nat> {
    FirstIndex(us, (u: User) => u.id == id && u.tenantId == tenantId)
  }

  /** `User.findOne({ tenant_id, email })`. */
  function FindTenantUserByEmail(us: seq<User>, tenantId: ObjectId, email: string): (r: Option<User>)
    ensures r.Some? ==> r.value in us && r.value.tenantId == tenantId && r.value.email == email
    ensures r.None? <==> forall u :: u in us ==> !(u.tenantId == tenantId && u.email == email)
  {
    match FirstIndex(us, (u: User) => u.tenantId == tenantId && u.email == email)
    case None => None
    case Some(i) => Some(us[i])
  }

  /** `Note.findOne({ _id, tenant_id })`, as an index. */
  function TenantNoteIndex(ns: seq<Note>, id: ObjectId, tenantId: ObjectId): Option<nat> {
    FirstIndex(ns, (n: Note) => n.id == id && n.tenantId == tenantId)
  }

  /** A stored note is found by its own id and tenant, at its own index. */
  lemma TenantNoteIndexHit(ns: seq<Note>, n: Note)
    requires NotesOk(ns) && n in ns
    ensures TenantNoteIndex(ns, n.id, n.tenantId).Some?
    ensures ns[TenantNoteIndex(ns, n.id, n.tenantId).value] == n
  {
    var k :| 0 <= k < |ns| && ns[k] == n;
    var i := TenantNoteIndex(ns, n.id, n.tenantId);
    assert i.Some?;
  }

  /** `Note.find({ tenant_id })` in insertion order. */
  function TenantNotes(ns: seq<Note>, tenantId: ObjectId): seq<Note> {
    Filter(ns, (n: Note) => n.tenantId == tenantId)
  }

  /** `User.find({ tenant_id })` in insertion order. */
  function TenantUsers(us: seq<User>, tenantId: ObjectId): seq<User> {
    Filter(us, (u: User) => u.tenantId == tenantId)
  }

  /** `Note.countDocuments({ tenant_id })`. */
  function CountNotes(ns: seq<Note>, tenantId: ObjectId): nat {
    |TenantNotes(ns, tenantId)|
  }

  /** `created_by_email: note.user_id?.email || 'Unknown'`: the author's
      address if the author still exists, else `Unknown`. */
  function AuthorEmail(us: seq<User>, n: Note): (e: string)
    ensures e != ""
    ensures e != "Unknown" ==> exists u :: u in us && u.id == n.userId && u.email == e
    ensures (forall u :: u in us ==> u.id != n.userId) ==> e == "Unknown"
  {
    match FindUser(us, n.userId)
    case Some(u) => if u.email == "" then "Unknown" else u.email
    case None => "Unknown"
  }

  /** A stored note as the read handlers format it. */
  function FormatNote(us: seq<User>, n: Note): (v: NoteView)
    ensures v.id == n.id && v.title == n.title && v.content == n.content
    ensures v.createdAt == n.createdAt && v.updatedAt == n.updatedAt
    ensures v.createdByEmail == AuthorEmail(us, n)
  {
    NoteView(n.id, n.title, n.content, n.createdAt, n.updatedAt, AuthorEmail(us, n))
  }

  // ---------------------------------------------------------------------
  // The authenticated caller

  /** `req.user` as the authentication middleware builds it from the live
      user record and the tenant it populates. */
  function CallerFor(u: User, t: Tenant): (c: ReqUser)
    ensures c.id == u.id && c.email == u.email && c.role == u.role
    ensures c.tenantId == t.id && c.tenantSlug == t.slug && c.tenantName == t.name && c.plan == t.plan
  {
    ReqUser(u.id, u.email, u.role, t.id, t.slug, t.name, t.plan)
  }

  /** The caller is what the middleware would build from the store now: a
      stored user and that user's stored tenant. */
  predicate IsCaller(db: Db, c: ReqUser) {
    match FindUser(db.users, c.id)
    case None => false
    case Some(u) =>
      match FindTenant(db.tenants, u.tenantId)
      case None => false
      case Some(t) => c == CallerFor(u, t)
  }

  /** The caller's own stored record. */
  lemma CallerUser(db: Db, c: ReqUser) returns (u: User)
    requires IsCaller(db, c)
    ensures u in db.users && u.id == c.id && u.tenantId == c.tenantId && u.email == c.email && u.role == c.role
  {
    u := FindUser(db.users, c.id).value;
  }

  // ---------------------------------------------------------------------
  // The invariant between requests

  /** A MongoDB-generated id: not the id of any record, nor referred to by one. */
  predicate FreshId(db: Db, id: ObjectId) {
    && (forall t :: t in db.tenants ==> t.id != id)
    && (forall u :: u in db.users ==> u.id != id && u.tenantId != id)
    && (forall n :: n in db.notes ==> n.id != id && n.tenantId != id && n.userId != id)
  }

  predicate TenantsOk(ts: seq<Tenant>) {
    && (forall i, j :: 0 <= i < j < |ts| ==> ts[i].id != ts[j].id && ts[i].slug != ts[j].slug)
    && (forall t :: t in ts ==> TenantValid(t))
  }

  /** Unique ids, the schema's e-mail constraints, and the unique index on
      (tenant_id, email). */
  predicate UsersOk(us: seq<User>) {
    && (forall i, j :: 0 <= i < j < |us| ==> us[i].id != us[j].id)
    && (forall i, j :: 0 <= i < j < |us| ==> !(us[i].tenantId == us[j].tenantId && us[i].email == us[j].email))
    && (forall u :: u in us ==> StoredUserValid(u))
  }

  predicate NotesOk(ns: seq<Note>) {
    && (forall i, j :: 0 <= i < j < |ns| ==> ns[i].id != ns[j].id)
    && (forall n :: n in ns ==> NoteValid(n))
  }

  /** The free-plan quota: no free tenant holds more than three notes. */
  predicate QuotaOk(db: Db) {
    forall t :: t in db.tenants && t.plan == Free ==> CountNotes(db.notes, t.id) <= FreePlanNoteLimit
  }

  predicate DbValid(db: Db) {
    TenantsOk(db.tenants) && UsersOk(db.users) && NotesOk(db.notes) && QuotaOk(db)
  }

  /** A new note joins its own tenant's notes, at the end, and no other. */
  lemma TenantNotesAppend(ns: seq<Note>, n: Note, tenantId: ObjectId)
    ensures TenantNotes(ns + [n], tenantId) == TenantNotes(ns, tenantId) + (if n.tenantId == tenantId then [n] else [])
  {
    assert (ns + [n])[..|ns|] == ns;
  }

  /** The caller's plan and slug are those of the stored tenant with the
      caller's tenant id. */
  lemma CallerTenant(db: Db, c: ReqUser, t: Tenant)
    requires IsCaller(db, c) && TenantsOk(db.tenants) && t in db.tenants && t.id == c.tenantId
    ensures c.plan == t.plan && c.tenantSlug == t.slug && c.tenantName == t.name
    ensures FindTenant(db.tenants, c.tenantId) == Some(t)
  {
    FindTenantUnique(db.tenants, t);
  }

  /** With unique tenant ids, the tenant found by id is the only one. */
  lemma FindTenantUnique(ts: seq<Tenant>, t: Tenant)
    requires TenantsOk(ts) && t in ts
    ensures FindTenant(ts, t.id) == Some(t)
  {
    var i :| 0 <= i < |ts| && ts[i] == t;
    var k := TenantIndex(ts, t.id);
    assert k.Some?;
    assert k.value <= i;
  }

  /** With unique user ids, the user found by id is the only one. */
  lemma FindUserUnique(us: seq<User>, u: User)
    requires UsersOk(us) && u in us
    ensures FindUser(us, u.id) == Some(u)
  {
    var i :| 0 <= i < |us| && us[i] == u;
    var k := FirstIndex(us, (v: User) => v.id == u.id);
    assert k.Some? && k.value <= i;
  }

  /** With unique note ids, a note found by (id, tenant) is the only note with that id. */
  lemma NoteIdUnique(ns: seq<Note>, i: nat, j: nat)
    requires NotesOk(ns) && i < |ns| && j < |ns| && ns[i].id == ns[j].id
    ensures i == j
  {
  }

  /** Appending a valid note with a new id keeps the store valid, provided
      its tenant is not a free one already at the quota. */
  lemma AppendNoteKeepsValid(db: Db, n: Note)
    requires DbValid(db) && NoteValid(n)
    requires forall m :: m in db.notes ==> m.id != n.id
    requires forall t :: t in db.tenants && t.plan == Free && t.id == n.tenantId ==> CountNotes(db.notes, t.id) < FreePlanNoteLimit
    ensures DbValid(db.(notes := db.notes + [n]))
  {
    var ns := db.notes + [n];
    forall i, j | 0 <= i < j < |ns|
      ensures ns[i].id != ns[j].id
    {
      assert ns[i] in db.notes;
    }
    forall t | t in db.tenants && t.plan == Free
      ensures CountNotes(ns, t.id) <= FreePlanNoteLimit
    {
      TenantNotesAppend(db.notes, n, t.id);
    }
  }

  /** Replacing a note by a valid one with the same id and tenant keeps the
      store valid. */
  lemma ReplaceNoteKeepsValid(db: Db, i: nat, n: Note)
    requires DbValid(db) && i < |db.notes| && NoteValid(n)
    requires n.id == db.notes[i].id && n.tenantId == db.notes[i].tenantId
    ensures DbValid(db.(notes := db.notes[i := n]))
  {
    var ns := db.notes[i := n];
    forall a, b | 0 <= a < b < |ns|
      ensures ns[a].id != ns[b].id
    {
      assert ns[a].id == db.notes[a].id && ns[b].id == db.notes[b].id;
    }
    forall m | m in ns
      ensures NoteValid(m)
    {
      var k :| 0 <= k < |ns| && ns[k] == m;
      if k != i {
        assert m == db.notes[k];
      }
    }
    forall t | t in db.tenants && t.plan == Free
      ensures CountNotes(ns, t.id) <= FreePlanNoteLimit
    {
      FilterUpdateCount(db.notes, i, n, (m: Note) => m.tenantId == t.id);
    }
  }

  /** What is left after removing an element sits at another position of
      the input. */
  lemma RemoveOrigin<T>(s: seq<T>, i: nat, x: T) returns (k: nat)
    requires i < |s| && x in Remove(s, i)
    ensures k < |s| && k != i && s[k] == x
  {
    var j :| 0 <= j < |Remove(s, i)| && Remove(s, i)[j] == x;
    k := if j < i then j else j + 1;
  }

  /** An element at another position than the removed one is kept. */
  lemma RemoveKeeps<T>(s: seq<T>, i: nat, k: nat)
    requires i < |s| && k < |s| && k != i
    ensures s[k] in Remove(s, i)
  {
    assert Remove(s, i)[if k < i then k else k - 1] == s[k];
  }

  /** Two positions of what is left came from two positions of the input,
      in the same order. */
  lemma RemovePair<T>(s: seq<T>, i: nat, a: nat, b: nat) returns (a': nat, b': nat)
    requires i < |s| && a < b < |s| - 1
    ensures a' < b' < |s| && Remove(s, i)[a] == s[a'] && Remove(s, i)[b] == s[b']
  {
    a' := if a < i then a else a + 1;
    b' := if b < i then b else b + 1;
  }

  /** Removing a note keeps the note ids distinct and every note valid. */
  lemma RemoveNoteKeepsNotesOk(ns: seq<Note>, i: nat)
    requires NotesOk(ns) && i < |ns|
    ensures NotesOk(Remove(ns, i))
  {
    var rs := Remove(ns, i);
    forall a, b | 0 <= a < b < |rs|
      ensures rs[a].id != rs[b].id
    {
      var a', b' := RemovePair(ns, i, a, b);
    }
    forall m | m in rs
      ensures NoteValid(m)
    {
      var k := RemoveOrigin(ns, i, m);
    }
  }

  /** Removing a note keeps the store valid. */
  lemma RemoveNoteKeepsValid(db: Db, i: nat)
    requires DbValid(db) && i < |db.notes|
    ensures DbValid(db.(notes := Remove(db.notes, i)))
  {
    var ns := Remove(db.notes, i);
    RemoveNoteKeepsNotesOk(db.notes, i);
    forall t | t in db.tenants && t.plan == Free
      ensures CountNotes(ns, t.id) <= FreePlanNoteLimit
    {
      FilterRemove(db.notes, i, (m: Note) => m.tenantId == t.id);
    }
  }

  /** Replacing a tenant by one with the same id, slug and name whose plan
      is pro or unchanged keeps the store valid. */
  lemma ReplaceTenantKeepsValid(db: Db, i: nat, t: Tenant)
    requires DbValid(db) && i < |db.tenants|
    requires t.id == db.tenants[i].id && t.slug == db.tenants[i].slug && t.name == db.tenants[i].name
    requires t.plan == Pro || t.plan == db.tenants[i].plan
    ensures DbValid(db.(tenants := db.tenants[i := t]))
  {
    var ts := db.tenants[i := t];
    forall m | m in ts
      ensures TenantValid(m) && (m.plan == Free ==> CountNotes(db.notes, m.id) <= FreePlanNoteLimit)
    {
      var k :| 0 <= k < |ts| && ts[k] == m;
      assert db.tenants[k] in db.tenants;
      assert TenantValid(db.tenants[k]);
    }
  }

  /** Appending a valid user with a new id and an address not yet used in
      its tenant keeps the store valid. */
  lemma AppendUserKeepsValid(db: Db, u: User)
    requires DbValid(db) && StoredUserValid(u)
    requires forall v :: v in db.users ==> v.id != u.id && !(v.tenantId == u.tenantId && v.email == u.email)
    ensures DbValid(db.(users := db.users + [u]))
  {
    var us := db.users + [u];
    forall i, j | 0 <= i < j < |us|
      ensures us[i].id != us[j].id && !(us[i].tenantId == us[j].tenantId && us[i].email == us[j].email)
    {
      assert us[i] in db.users;
    }
  }

  /** Replacing a user by one with the same id, tenant and address keeps the
      store valid. */
  lemma ReplaceUserKeepsValid(db: Db, i: nat, u: User)
    requires DbValid(db) && i < |db.users|
    requires u.id == db.users[i].id && u.tenantId == db.users[i].tenantId && u.email == db.users[i].email
    ensures DbValid(db.(users := db.users[i := u]))
  {
    var us := db.users[i := u];
    forall m | m in us
      ensures StoredUserValid(m)
    {
      var k :| 0 <= k < |us| && us[k] == m;
      assert StoredUserValid(db.users[k]);
    }
  }

  /** Removing a user keeps the store valid. */
  lemma RemoveUserKeepsValid(db: Db, i: nat)
    requires DbValid(db) && i < |db.users|
    ensures DbValid(db.(users := Remove(db.users, i)))
  {
    var us := Remove(db.users, i);
    forall a, b | 0 <= a < b < |us|
      ensures us[a].id != us[b].id && !(us[a].tenantId == us[b].tenantId && us[a].email == us[b].email)
    {
      var a', b' := RemovePair(db.users, i, a, b);
    }
    forall m | m in us
      ensures StoredUserValid(m)
    {
      var k := RemoveOrigin(db.users, i, m);
    }
  }

  /** The mutable store: one field per collection, reassigned by the
      handlers' writes. */
  class Database {
    var tenants: seq<Tenant>
    var users: seq<User>
    var notes: seq<Note>

    /** An empty database, before seeding. */
    constructor ()
      ensures Value() == Db([], [], [])
    {
      tenants := [];
      users := [];
      notes := [];
    }

    function Value(): Db
      reads this
    {
      Db(tenants, users, notes)
    }
  }

  /** `Note.countDocuments({ tenant_id })`, one document at a time. */
  method CountTenantNotes(ns: seq<Note>, tenantId: ObjectId) returns (count: nat)
    ensures count == CountNotes(ns, tenantId)
  {
    count := 0;
    var i := 0;
    while i < |ns|
      invariant 0 <= i <= |ns|
      invariant count == CountNotes(ns[..i], tenantId)
    {
      assert ns[..i + 1][..i] == ns[..i];
      if ns[i].tenantId == tenantId {
        count := count + 1;
      }
      i := i + 1;
    }
    assert ns[..|ns|] == ns;
  }

  /** The newest records first: insertion order reversed, which is the
      `sort({ created_at: -1 })` order when creation times never decrease. */
  function NewestFirst<T>(s: seq<T>): seq<T> {
    Reverse(s)
  }

  /** Creation times that never decrease along insertion order come out
      sorted newest first. */
  lemma NewestFirstSorted(ns: seq<Note>)
    requires forall i, j :: 0 <= i < j < |ns| ==> ns[i].createdAt <= ns[j].createdAt
    ensures forall i, j :: 0 <= i < j < |ns| ==> NewestFirst(ns)[i].createdAt >= NewestFirst(ns)[j].createdAt
  {
  }

  // ---------------------------------------------------------------------
  // Creation-time order

  /** `key` never decreases along the sequence. */
  predicate Ascending<T>(s: seq<T>, key: T -> int) {
    forall i, j :: 0 <= i < j < |s| ==> key(s[i]) <= key(s[j])
  }

  function NoteCreatedAt(n: Note): int { n.createdAt }

  function UserCreatedAt(u: User): int { u.createdAt }

  /** The notes and the users were stamped by a clock that never ran
      backwards: each record's `created_at` is no earlier than that of any
      record stored before it. Under this order, reverse insertion is the
      `sort({ created_at: -1 })` order. */
  predicate InTimeOrder(db: Db) {
    Ascending(db.notes, NoteCreatedAt) && Ascending(db.users, UserCreatedAt)
  }

  /** No note or user was created after `now`. */
  predicate StampedBy(db: Db, now: int) {
    && (forall n :: n in db.notes ==> n.createdAt <= now)
    && (forall u :: u in db.users ==> u.createdAt <= now)
  }

  /** A filter keeps the order of what it keeps. */
  lemma {:induction false} FilterAscending<T>(s: seq<T>, p: T -> bool, key: T -> int)
    requires Ascending(s, key)
    ensures Ascending(Filter(s, p), key)
  {
    if s != [] {
      var s' := s[..|s| - 1];
      var last := s[|s| - 1];
      FilterAscending(s', p, key);
      FilterMembers(s', p);
      var f := Filter(s', p);
      forall i | 0 <= i < |f|
        ensures key(f[i]) <= key(last)
      {
        var k :| 0 <= k < |s'| && s'[k] == f[i];
        assert s[k] == f[i];
      }
    }
  }

  lemma TenantNotesAscending(ns: seq<Note>, tenantId: ObjectId)
    requires Ascending(ns, NoteCreatedAt)
    ensures Ascending(TenantNotes(ns, tenantId), NoteCreatedAt)
  {
    FilterAscending(ns, (n: Note) => n.tenantId == tenantId, NoteCreatedAt);
  }

  lemma TenantUsersAscending(us: seq<User>, tenantId: ObjectId)
    requires Ascending(us, UserCreatedAt)
    ensures Ascending(TenantUsers(us, tenantId), UserCreatedAt)
  {
    FilterAscending(us, (u: User) => u.tenantId == tenantId, UserCreatedAt);
  }

  /** Appending a record no older than any stored one keeps the order. */
  lemma AppendAscending<T>(s: seq<T>, v: T, key: T -> int)
    requires Ascending(s, key) && forall x :: x in s ==> key(x) <= key(v)
    ensures Ascending(s + [v], key)
  {
    var t := s + [v];
    forall i, j | 0 <= i < j < |t|
      ensures key(t[i]) <= key(t[j])
    {
      assert t[i] == s[i] && s[i] in s;
    }
  }

  /** Removing a record keeps the order of the others. */
  lemma RemoveAscending<T>(s: seq<T>, i: nat, key: T -> int)
    requires Ascending(s, key) && i < |s|
    ensures Ascending(Remove(s, i), key)
  {
    var r := Remove(s, i);
    forall a, b | 0 <= a < b < |r|
      ensures key(r[a]) <= key(r[b])
    {
      var a', b' := RemovePair(s, i, a, b);
    }
  }
}
