/** The three persisted records (Tenant, User, Note), the constraints their
    schemas put on them, the values the schema setters store, and the user
    document's save hook that hashes the password. */
module Models {
  import opened Wrappers
  import opened Strings
  import opened ObjectIds
  import opened Constants

  /** A note: owned by a tenant, created by a user. `tenant_id` and `user_id`
      are required, so they are plain ids here. Timestamps are milliseconds. */
  datatype Note = Note(
    id: ObjectId, tenantId: ObjectId, userId: ObjectId,
    title: string, content: string, createdAt: int, updatedAt: int)

  datatype User = User(
    id: ObjectId, tenantId: ObjectId, email: string, passwordHash: string,
    role: Role, createdAt: int, updatedAt: int)

  datatype Tenant = Tenant(
    id: ObjectId, slug: string, name: string, plan: Plan, createdAt: int, updatedAt: int)

  /** The note schema's field constraints: title required, trimmed, 1..200
      UTF-16 units; content at most 10000 UTF-16 units. */
  predicate NoteValid(n: Note) {
    && IsTrimmed(n.title) && 1 <= Utf16Length(n.title) <= NoteTitleMaxLength
    && Utf16Length(n.content) <= NoteContentMaxLength
  }

  /** The document `Note.create` builds: the title setter trims, content
      defaults to the empty string, both timestamps are the creation time. */
  function NewNote(id: ObjectId, tenantId: ObjectId, userId: ObjectId, title: string,
                   content: Option<string>, now: int): (n: Note)
    ensures n.tenantId == tenantId && n.userId == userId && n.id == id
    ensures n.title == Trim(title) && IsTrimmed(n.title)
    ensures content.None? ==> n.content == ""
    ensures content.Some? ==> n.content == content.value
    ensures n.createdAt == now && n.updatedAt == now
  {
    TrimIdempotent(title);
    Note(id, tenantId, userId, Trim(title), content.GetOr(""), now, now)
  }

  /** The user schema's email setters: lower-case, then trim. */
  function NormalizeEmail(email: string): (r: string)
    ensures IsLower(r) && IsTrimmed(r)
    ensures r == ToLower(Trim(email))
  {
    TrimToLower(email);
    ToLowerIsLower(email);
    var r := Trim(ToLower(email));
    assert forall i :: 0 <= i < |r| ==> r[i] == ToLower(Trim(email))[i];
    TrimIdempotent(ToLower(email));
    r
  }

  /** Normalising twice changes nothing (what `sanitizeEmail` relies on too). */
  lemma NormalizeEmailIdempotent(email: string)
    ensures NormalizeEmail(NormalizeEmail(email)) == NormalizeEmail(email)
  {
    var r := NormalizeEmail(email);
    ToLowerOfLower(r);
    TrimOfTrimmed(r);
  }

  /** What the user schema checks before a user is saved: the e-mail pattern
      on the normalised address, and a password hash of at least 6 UTF-16 units. */
  predicate UserFieldsValid(email: string, passwordHash: string) {
    EmailPatternMatches(email) && Utf16Length(passwordHash) >= 6
  }

  /** A stored user: normalised address matching the pattern. (The length of
      the stored hash is checked before the save hook replaces it.) */
  predicate StoredUserValid(u: User) {
    IsLower(u.email) && IsTrimmed(u.email) && EmailPatternMatches(u.email)
  }

  /** The tenant schema's constraints: slug lower-case, trimmed, 2..50
      UTF-16 units; name trimmed, 2..100 UTF-16 units. */
  predicate TenantValid(t: Tenant) {
    && IsLower(t.slug) && IsTrimmed(t.slug) && 2 <= Utf16Length(t.slug) <= 50
    && IsTrimmed(t.name) && 2 <= Utf16Length(t.name) <= 100
  }

  /** A tenant as `Tenant.create` stores it: the slug lower-cased and trimmed,
      the name trimmed, the plan defaulting to free. */
  function NewTenant(id: ObjectId, slug: string, name: string, plan: Option<Plan>, now: int): (t: Tenant)
    ensures IsLower(t.slug) && IsTrimmed(t.slug) && IsTrimmed(t.name)
    ensures t.id == id && t.slug == ToLower(Trim(slug)) && t.name == Trim(name)
    ensures plan.None? ==> t.plan == Free
    ensures plan.Some? ==> t.plan == plan.value
    ensures t.createdAt == now && t.updatedAt == now
  {
    TrimIdempotent(name);
    TrimToLower(slug);
    TrimIdempotent(ToLower(slug));
    ToLowerIsLower(Trim(slug));
    Tenant(id, ToLower(Trim(slug)), Trim(name), plan.GetOr(Free), now, now)
  }

  /** `Tenant.create` saves exactly when the slug, once lower-cased and
      trimmed, has 2..50 UTF-16 units and the trimmed name 2..100. */
  lemma NewTenantValid(id: ObjectId, slug: string, name: string, plan: Option<Plan>, now: int)
    ensures TenantValid(NewTenant(id, slug, name, plan, now)) <==>
            2 <= Utf16Length(ToLower(Trim(slug))) <= 50 && 2 <= Utf16Length(Trim(name)) <= 100
  {
  }

  /** The user fields a client may see: everything but the password hash
      (`toAuthJSON`, and `select('-password_hash')`). */
  datatype UserView = UserView(
    id: ObjectId, email: string, role: Role, tenantId: ObjectId, createdAt: int, updatedAt: int)

  /** `toAuthJSON`: the view keeps every field but the password hash. */
  function ToAuthJSON(u: User): (r: UserView)
    ensures r.id == u.id && r.tenantId == u.tenantId && r.email == u.email && r.role == u.role
  {
    UserView(u.id, u.email, u.role, u.tenantId, u.createdAt, u.updatedAt)
  }

  /** Two users have the same view exactly when they agree on everything
      except the password hash. */
  lemma AuthJSONOmitsOnlyPassword(u: User, v: User)
    ensures ToAuthJSON(u) == ToAuthJSON(v) <==> u.(passwordHash := v.passwordHash) == v
  {
  }

  /** Changing the password hash never changes what a client sees. */
  lemma AuthJSONIgnoresPassword(u: User, pw: string)
    ensures ToAuthJSON(u.(passwordHash := pw)) == ToAuthJSON(u)
  {
  }

  /** A user document in memory, between `new User({...})` and `save()`:
      the fields plus Mongoose's record of whether `password_hash` was
      modified since the last save. */
  class UserDocument {
    var id: ObjectId
    var tenantId: ObjectId
    var email: string
    var passwordHash: string
    var role: Role
    var createdAt: int
    var updatedAt: int
    var isNew: bool
    var passwordModified: bool

    /** `new User({...})`: setters applied, every given path counts as modified. */
    constructor (id: ObjectId, tenantId: ObjectId, email: string, passwordHash: string, role: Role)
      ensures this.id == id && this.tenantId == tenantId && this.role == role
      ensures this.email == NormalizeEmail(email) && this.passwordHash == passwordHash
      ensures isNew && passwordModified
    {
      this.id := id;
      this.tenantId := tenantId;
      this.email := NormalizeEmail(email);
      this.passwordHash := passwordHash;
      this.role := role;
      this.createdAt := 0;
      this.updatedAt := 0;
      this.isNew := true;
      this.passwordModified := true;
    }

    /** The persisted record this document stands for. */
    function Record(): User
      reads this
    {
      User(id, tenantId, email, passwordHash, role, createdAt, updatedAt)
    }

    /** Assigning `password_hash` marks it modified. */
    method SetPasswordHash(p: string)
      modifies this
      ensures passwordHash == p && passwordModified
      ensures Record() == old(Record()).(passwordHash := p)
      ensures isNew == old(isNew)
    {
      passwordHash := p;
      passwordModified := true;
    }

    /** The `pre('save')` hook: hash only when the hash field was modified. */
    method PreSave(hash: string -> string)
      modifies this
      ensures passwordHash == if old(passwordModified) then hash(old(passwordHash)) else old(passwordHash)
      ensures Record() == old(Record()).(passwordHash := passwordHash)
      ensures isNew == old(isNew) && passwordModified == old(passwordModified)
    {
      if !passwordModified {
        return;
      }
      passwordHash := hash(passwordHash);
    }

    /** `save()`: validation runs first, then the hook; a saved document is no
      longer new and has no modified paths. A new document gets its timestamps. */
    method Save(hash: string -> string, now: int) returns (ok: bool)
      modifies this
      ensures ok == UserFieldsValid(old(email), old(passwordHash))
      ensures !ok ==> Record() == old(Record()) && isNew == old(isNew) && passwordModified == old(passwordModified)
      ensures ok ==> passwordHash == (if old(passwordModified) then hash(old(passwordHash)) else old(passwordHash))
      ensures ok ==> !isNew && !passwordModified
      ensures ok ==> Record() == old(Record()).(
                       passwordHash := passwordHash,
                       createdAt := if old(isNew) then now else old(createdAt),
                       updatedAt := if old(isNew) then now else old(updatedAt))
    {
      ok := UserFieldsValid(email, passwordHash);
      if !ok {
        return;
      }
      PreSave(hash);
      if isNew {
        createdAt := now;
        updatedAt := now;
      }
      isNew := false;
      passwordModified := false;
    }
  }

  /** The password every seeded and every invited user starts with. */
  const DemoPassword: string := "password"

  /** `comparePassword`: a candidate matches when hashing it yields the
      stored hash. */
  predicate ComparePassword(candidate: string, u: User, hash: string -> string) {
    u.passwordHash == hash(candidate)
  }

  /** The record `User.create` stores, or None when the schema refuses it:
      the e-mail normalised, the given hash hashed once more by the save
      hook, both timestamps the creation time. */
  function CreatedUser(id: ObjectId, tenantId: ObjectId, email: string, passwordHash: string, role: Role,
                       hash: string -> string, now: int): (r: Option<User>)
    ensures r.Some? <==> UserFieldsValid(NormalizeEmail(email), passwordHash)
    ensures r.Some? ==> StoredUserValid(r.value) && ComparePassword(passwordHash, r.value, hash)
    ensures r.Some? ==> r.value.id == id && r.value.tenantId == tenantId && r.value.role == role
                        && r.value.email == NormalizeEmail(email)
  {
    if UserFieldsValid(NormalizeEmail(email), passwordHash) then
      Some(User(id, tenantId, NormalizeEmail(email), hash(passwordHash), role, now, now))
    else None
  }

  /** `User.create`: a new document, then `save()`. */
  method CreateUser(id: ObjectId, tenantId: ObjectId, email: string, passwordHash: string, role: Role,
                    hash: string -> string, now: int) returns (r: Option<User>)
    ensures r == CreatedUser(id, tenantId, email, passwordHash, role, hash, now)
  {
    var doc := new UserDocument(id, tenantId, email, passwordHash, role);
    var ok := doc.Save(hash, now);
    if ok {
      r := Some(doc.Record());
    } else {
      r := None;
    }
  }

  /** Saving a document a second time, without touching its password, does
      not hash the stored hash again. */
  method SaveTwice(doc: UserDocument, hash: string -> string, now: int) returns (ok1: bool, ok2: bool)
    modifies doc
    ensures ok1 && ok2 ==> doc.passwordHash == (if old(doc.passwordModified) then hash(old(doc.passwordHash)) else old(doc.passwordHash))
  {
    ok1 := doc.Save(hash, now);
    if !ok1 {
      ok2 := false;
      return;
    }
    ghost var once := doc.passwordHash;
    ok2 := doc.Save(hash, now);
    assert ok2 ==> doc.passwordHash == once;
  }
}
