/** Seeding the database at start-up, and the connection-state table. The
    seed is find-or-create: the two demo tenants by slug, then the four demo
    users by e-mail address across all tenants, each saved through the
    user model so that its password is hashed. New ids and the clock are
    parameters; connecting and logging are not part of this model. */
module DatabaseUtils {
  import opened Wrappers
  import opened Strings
  import opened ObjectIds
  import opened Constants
  import opened Models
  import opened Store

  // ---------------------------------------------------------------------
  // The seed data

  /** Which of the two seeded tenants a seed user belongs to. */
  datatype SeedTenant = Acme | Globex

  datatype SeedUser = SeedUser(tenant: SeedTenant, email: string, role: Role, password: string)

  const AcmeSlug: string := "acme"
  const AcmeName: string := "Acme Corporation"
  const GlobexSlug: string := "globex"
  const GlobexName: string := "Globex Corporation"

  const SeedUsers: seq<SeedUser> := [
    SeedUser(Acme, "admin@acme.test", Admin, DemoPassword),
    SeedUser(Acme, "user@acme.test", Member, DemoPassword),
    SeedUser(Globex, "admin@globex.test", Admin, DemoPassword),
    SeedUser(Globex, "user@globex.test", Member, DemoPassword)
  ]

  /** Both seeded tenants meet the tenant schema. */
  lemma SeedTenantsValid(id: ObjectId, now: int)
    ensures TenantValid(Tenant(id, AcmeSlug, AcmeName, Free, now, now))
    ensures TenantValid(Tenant(id, GlobexSlug, GlobexName, Free, now, now))
  {
    AcmeTenantValid(id, now);
    GlobexTenantValid(id, now);
  }

  lemma AcmeTenantValid(id: ObjectId, now: int)
    ensures TenantValid(Tenant(id, AcmeSlug, AcmeName, Free, now, now))
  {
  }

  lemma GlobexTenantValid(id: ObjectId, now: int)
    ensures TenantValid(Tenant(id, GlobexSlug, GlobexName, Free, now, now))
  {
  }

  /** Lower-case letters, dots and `@`: the only characters of the seed
      addresses. */
  predicate PlainAddressChars(s: string) {
    forall i :: 0 <= i < |s| ==> ('a' <= s[i] <= 'z') || s[i] == '.' || s[i] == '@'
  }

  lemma PlainIsNormalized(s: string)
    requires PlainAddressChars(s)
    ensures NormalizeEmail(s) == s
  {
    assert IsLower(s);
    assert s != [] ==> !IsSpace(s[0]) && !IsSpace(s[|s| - 1]);
    TrimOfTrimmed(s);
    ToLowerOfLower(s);
  }

  lemma PlainEmailChars(s: string)
    requires PlainAddressChars(s) && forall i :: 0 <= i < |s| ==> s[i] != '@'
    ensures AllEmailChars(s)
  {
    forall i | 0 <= i < |s|
      ensures EmailChar(s[i])
    {
      assert ('a' <= s[i] <= 'z') || s[i] == '.';
    }
  }

  lemma SeedEmailMatches(local: string, domain: string, k: nat)
    requires PlainAddressChars(local) && forall i :: 0 <= i < |local| ==> local[i] != '@'
    requires PlainAddressChars(domain) && forall i :: 0 <= i < |domain| ==> domain[i] != '@'
    requires local != [] && 0 < k < |domain| - 1 && domain[k] == '.'
    ensures EmailPatternMatches(local + "@" + domain)
    ensures NormalizeEmail(local + "@" + domain) == local + "@" + domain
  {
    PlainEmailChars(local);
    PlainEmailChars(domain);
    var s := local + "@" + domain;
    assert s[..|local|] == local;
    assert s[|local| + 1..] == domain;
    assert EmailDomainMatches(domain) by {
      assert 0 < k < |domain| - 1 && domain[k] == '.';
    }
    var at := |local|;
    assert 0 < at < |s| && s[at] == '@' && AllEmailChars(s[..at]) && EmailDomainMatches(s[at + 1..]);
    assert PlainAddressChars(s) by {
      forall i | 0 <= i < |s|
        ensures ('a' <= s[i] <= 'z') || s[i] == '.' || s[i] == '@'
      {
        if i < |local| {
          assert s[i] == local[i];
        } else if i > |local| {
          assert s[i] == domain[i - |local| - 1];
        }
      }
    }
    PlainIsNormalized(s);
  }

  /** What saving a seed entry needs: its address is already in the form
      the schema's setters give, and the address and password pass the
      schema. */
  predicate Accepted(su: SeedUser) {
    NormalizeEmail(su.email) == su.email && UserFieldsValid(su.email, su.password)
  }

  /** Every entry of the list is accepted. */
  predicate AllAccepted(list: seq<SeedUser>)
    decreases |list|
  {
    list != [] ==> Accepted(list[0]) && AllAccepted(list[1..])
  }

  lemma {:induction false} AllAcceptedAt(list: seq<SeedUser>, k: nat)
    requires AllAccepted(list) && k < |list|
    ensures Accepted(list[k])
    decreases |list|
  {
    if k > 0 {
      AllAcceptedAt(list[1..], k - 1);
    }
  }

  /** A seed entry whose address is a plain `local@domain` and whose
      password is the demo password is accepted. */
  lemma SeedEntryAccepted(su: SeedUser, local: string, domain: string, k: nat)
    requires su.email == local + "@" + domain && su.password == DemoPassword
    requires PlainAddressChars(local) && forall i :: 0 <= i < |local| ==> local[i] != '@'
    requires PlainAddressChars(domain) && forall i :: 0 <= i < |domain| ==> domain[i] != '@'
    requires local != [] && 0 < k < |domain| - 1 && domain[k] == '.'
    ensures Accepted(su)
  {
    SeedEmailMatches(local, domain, k);
    assert |DemoPassword| == 8;
  }

  lemma AcmeAdminAccepted() ensures Accepted(SeedUsers[0]) {
    SeedEntryAccepted(SeedUsers[0], "admin", "acme.test", 4);
  }

  lemma AcmeUserAccepted() ensures Accepted(SeedUsers[1]) {
    SeedEntryAccepted(SeedUsers[1], "user", "acme.test", 4);
  }

  lemma GlobexAdminAccepted() ensures Accepted(SeedUsers[2]) {
    SeedEntryAccepted(SeedUsers[2], "admin", "globex.test", 6);
  }

  lemma GlobexUserAccepted() ensures Accepted(SeedUsers[3]) {
    SeedEntryAccepted(SeedUsers[3], "user", "globex.test", 6);
  }

  /** Every seed user's address is already normalised and passes the
      schema, and the demo password is long enough, so saving never fails. */
  lemma SeedUsersAccepted()
    ensures AllAccepted(SeedUsers)
  {
    var s := SeedUsers;
    GlobexUserAccepted();
    assert AllAccepted(s[3..]) by { assert s[3..][0] == s[3] && s[3..][1..] == []; }
    GlobexAdminAccepted();
    assert AllAccepted(s[2..]) by { assert s[2..][0] == s[2] && s[2..][1..] == s[3..]; }
    AcmeUserAccepted();
    assert AllAccepted(s[1..]) by { assert s[1..][0] == s[1] && s[1..][1..] == s[2..]; }
    AcmeAdminAccepted();
  }

  lemma SeedUserAccepted(i: nat)
    requires i < |SeedUsers|
    ensures Accepted(SeedUsers[i])
  {
    SeedUsersAccepted();
    AllAcceptedAt(SeedUsers, i);
  }

  /** The four seed addresses are different. */
  lemma SeedEmailsDistinct()
    ensures forall i, j :: 0 <= i < j < |SeedUsers| ==> SeedUsers[i].email != SeedUsers[j].email
  {
    assert SeedUsers[0].email[0] == 'a' && SeedUsers[1].email[0] == 'u';
    assert SeedUsers[2].email[0] == 'a' && SeedUsers[3].email[0] == 'u';
    assert SeedUsers[0].email[6] == 'a' && SeedUsers[2].email[6] == 'g';
    assert SeedUsers[1].email[5] == 'a' && SeedUsers[3].email[5] == 'g';
  }

  // ---------------------------------------------------------------------
  // Find-or-create, as functions of the store

  /** `Tenant.findOne({ slug })`, or `Tenant.create` on the free plan. */
  function EnsureTenant(db: Db, slug: string, name: string, id: ObjectId, now: int): (r: (Db, Tenant))
    ensures r.1 in r.0.tenants && r.1.slug == slug
    ensures r.0.users == db.users && r.0.notes == db.notes
    ensures FindTenantBySlug(db.tenants, slug).Some? ==> r == (db, FindTenantBySlug(db.tenants, slug).value)
    ensures FindTenantBySlug(db.tenants, slug).None? ==>
              r.1 == Tenant(id, slug, name, Free, now, now) && r.0.tenants == db.tenants + [r.1]
  {
    match FindTenantBySlug(db.tenants, slug)
    case Some(t) => (db, t)
    case None =>
      var t := Tenant(id, slug, name, Free, now, now);
      (db.(tenants := db.tenants + [t]), t)
  }

  function SeedTenantId(s: SeedTenant, acme: Tenant, globex: Tenant): ObjectId {
    match s
    case Acme => acme.id
    case Globex => globex.id
  }

  /** Some stored user has the address. */
  predicate HasEmail(us: seq<User>, email: string) {
    exists j :: 0 <= j < |us| && us[j].email == email
  }

  /** The user a seed entry's save stores: its address, and its password
      hashed by the save hook. */
  function SeedRecord(tenantId: ObjectId, su: SeedUser, id: ObjectId, hash: string -> string, now: int): User {
    User(id, tenantId, su.email, hash(su.password), su.role, now, now)
  }

  /** For an entry whose address is normal and passes the schema, saving
      through the user model stores exactly `SeedRecord`. */
  lemma SeedRecordIsCreated(tenantId: ObjectId, su: SeedUser, id: ObjectId, hash: string -> string, now: int)
    requires Accepted(su)
    ensures CreatedUser(id, tenantId, su.email, su.password, su.role, hash, now) == Some(SeedRecord(tenantId, su, id, hash, now))
  {
  }

  /** One pass of the user loop: `User.findOne({ email })` in any tenant,
      and, when there is none, a new user saved with the raw password for
      the save hook to hash. The seed addresses are already in the form the
      schema's setters give, and every seed entry passes the schema
      (`SeedUsersAccepted`), so the lookup key is the address itself and
      the save stores `SeedRecord`. */
  function EnsureUser(db: Db, tenantId: ObjectId, su: SeedUser, id: ObjectId, hash: string -> string, now: int): Db {
    if HasEmail(db.users, su.email) then db
    else db.(users := db.users + [SeedRecord(tenantId, su, id, hash, now)])
  }

  /** The user loop after its first `n` passes, each with its own new id. */
  function SeedUsersSpec(db: Db, acme: Tenant, globex: Tenant, list: seq<SeedUser>, ids: seq<ObjectId>,
                         hash: string -> string, now: int, n: nat): Db
    requires |ids| == |list| && n <= |list|
  {
    if n == 0 then db
    else
      var prev := SeedUsersSpec(db, acme, globex, list, ids, hash, now, n - 1);
      EnsureUser(prev, SeedTenantId(list[n - 1].tenant, acme, globex), list[n - 1], ids[n - 1], hash, now)
  }

  /** `seedDatabase`: the two tenants, then the four users. */
  function SeedSpec(db: Db, acmeId: ObjectId, globexId: ObjectId, userIds: seq<ObjectId>,
                    hash: string -> string, now: int): Db
    requires |userIds| == |SeedUsers|
  {
    var (db1, acme) := EnsureTenant(db, AcmeSlug, AcmeName, acmeId, now);
    var (db2, globex) := EnsureTenant(db1, GlobexSlug, GlobexName, globexId, now);
    SeedUsersSpec(db2, acme, globex, SeedUsers, userIds, hash, now, |SeedUsers|)
  }

  // ---------------------------------------------------------------------
  // What seeding does

  /** One pass appends at most one user and changes nothing else. */
  lemma EnsureUserAppends(db: Db, tenantId: ObjectId, su: SeedUser, id: ObjectId, hash: string -> string, now: int)
    ensures var r := EnsureUser(db, tenantId, su, id, hash, now);
            && r.tenants == db.tenants && r.notes == db.notes
            && |db.users| <= |r.users| && r.users[..|db.users|] == db.users
  {
  }

  /** The user loop only appends users: tenants and notes stay, and every
      user stays where it was. */
  lemma {:induction false} SeedUsersAppends(db: Db, acme: Tenant, globex: Tenant, list: seq<SeedUser>, ids: seq<ObjectId>,
                                            hash: string -> string, now: int, n: nat)
    requires |ids| == |list| && n <= |list|
    ensures var r := SeedUsersSpec(db, acme, globex, list, ids, hash, now, n);
            && r.tenants == db.tenants && r.notes == db.notes
            && |db.users| <= |r.users| && r.users[..|db.users|] == db.users
    decreases n
  {
    if n > 0 {
      SeedUsersAppends(db, acme, globex, list, ids, hash, now, n - 1);
      SeedUsersAppendsStep(db, acme, globex, list, ids, hash, now, n);
    }
  }

  lemma SeedUsersAppendsStep(db: Db, acme: Tenant, globex: Tenant, list: seq<SeedUser>, ids: seq<ObjectId>,
                             hash: string -> string, now: int, n: nat)
    requires |ids| == |list| && 0 < n <= |list|
    requires var prev := SeedUsersSpec(db, acme, globex, list, ids, hash, now, n - 1);
             && prev.tenants == db.tenants && prev.notes == db.notes
             && |db.users| <= |prev.users| && prev.users[..|db.users|] == db.users
    ensures var r := SeedUsersSpec(db, acme, globex, list, ids, hash, now, n);
            && r.tenants == db.tenants && r.notes == db.notes
            && |db.users| <= |r.users| && r.users[..|db.users|] == db.users
  {
    var prev := SeedUsersSpec(db, acme, globex, list, ids, hash, now, n - 1);
    EnsureUserAppends(prev, SeedTenantId(list[n - 1].tenant, acme, globex), list[n - 1], ids[n - 1], hash, now);
    var r := SeedUsersSpec(db, acme, globex, list, ids, hash, now, n);
    assert r.users[..|prev.users|][..|db.users|] == r.users[..|db.users|];
  }

  lemma HasEmailFound(us: seq<User>, email: string)
    ensures HasEmail(us, email) <==> UserByEmailIndex(us, email).Some?
  {
    if UserByEmailIndex(us, email).Some? {
      var j := UserByEmailIndex(us, email).value;
      assert us[j].email == email;
    }
  }

  /** After one pass the address has a user, when the schema accepts it. */
  lemma EnsureUserPresent(db: Db, tenantId: ObjectId, su: SeedUser, id: ObjectId, hash: string -> string, now: int)
    ensures HasEmail(EnsureUser(db, tenantId, su, id, hash, now).users, su.email)
  {
    var r := EnsureUser(db, tenantId, su, id, hash, now);
    if !HasEmail(db.users, su.email) {
      assert r.users[|db.users|].email == su.email;
    }
  }

  /** A pass whose address already has a user changes nothing. */
  lemma EnsureUserFound(db: Db, tenantId: ObjectId, su: SeedUser, id: ObjectId, hash: string -> string, now: int)
    requires HasEmail(db.users, su.email)
    ensures EnsureUser(db, tenantId, su, id, hash, now) == db
  {
  }

  /** A user with the address stays when users are appended. */
  lemma PresentAfterAppend(us: seq<User>, more: seq<User>, email: string)
    requires HasEmail(us, email)
    requires |us| <= |more| && more[..|us|] == us
    ensures HasEmail(more, email)
  {
    var j :| 0 <= j < |us| && us[j].email == email;
    assert more[j] == us[j];
  }

  /** After the first `n` passes every address among them that the schema
      accepts has a user, in some tenant. */
  lemma {:induction false} SeedUsersPresent(db: Db, acme: Tenant, globex: Tenant, list: seq<SeedUser>, ids: seq<ObjectId>,
                                            hash: string -> string, now: int, n: nat, k: nat)
    requires |ids| == |list| && k < n <= |list|
    ensures HasEmail(SeedUsersSpec(db, acme, globex, list, ids, hash, now, n).users, list[k].email)
    decreases n
  {
    if k < n - 1 {
      SeedUsersPresent(db, acme, globex, list, ids, hash, now, n - 1, k);
    }
    SeedUsersPresentStep(db, acme, globex, list, ids, hash, now, n, k);
  }

  lemma SeedUsersPresentStep(db: Db, acme: Tenant, globex: Tenant, list: seq<SeedUser>, ids: seq<ObjectId>,
                             hash: string -> string, now: int, n: nat, k: nat)
    requires |ids| == |list| && k < n <= |list|
    requires k < n - 1 ==> HasEmail(SeedUsersSpec(db, acme, globex, list, ids, hash, now, n - 1).users, list[k].email)
    ensures HasEmail(SeedUsersSpec(db, acme, globex, list, ids, hash, now, n).users, list[k].email)
  {
    var prev := SeedUsersSpec(db, acme, globex, list, ids, hash, now, n - 1);
    var tenantId := SeedTenantId(list[n - 1].tenant, acme, globex);
    if k == n - 1 {
      EnsureUserPresent(prev, tenantId, list[k], ids[k], hash, now);
    } else {
      EnsureUserAppends(prev, tenantId, list[n - 1], ids[n - 1], hash, now);
      PresentAfterAppend(prev.users, EnsureUser(prev, tenantId, list[n - 1], ids[n - 1], hash, now).users, list[k].email);
    }
  }

  /** When every listed address already has a user, the loop changes nothing. */
  lemma {:induction false} SeedUsersFound(db: Db, acme: Tenant, globex: Tenant, list: seq<SeedUser>, ids: seq<ObjectId>,
                                          hash: string -> string, now: int, n: nat)
    requires |ids| == |list| && n <= |list|
    requires forall k :: 0 <= k < |list| ==> HasEmail(db.users, list[k].email)
    ensures SeedUsersSpec(db, acme, globex, list, ids, hash, now, n) == db
    decreases n
  {
    if n > 0 {
      SeedUsersFound(db, acme, globex, list, ids, hash, now, n - 1);
      SeedUsersFoundStep(db, acme, globex, list, ids, hash, now, n);
    }
  }

  lemma SeedUsersFoundStep(db: Db, acme: Tenant, globex: Tenant, list: seq<SeedUser>, ids: seq<ObjectId>,
                           hash: string -> string, now: int, n: nat)
    requires |ids| == |list| && 0 < n <= |list|
    requires HasEmail(db.users, list[n - 1].email)
    requires SeedUsersSpec(db, acme, globex, list, ids, hash, now, n - 1) == db
    ensures SeedUsersSpec(db, acme, globex, list, ids, hash, now, n) == db
  {
    EnsureUserFound(db, SeedTenantId(list[n - 1].tenant, acme, globex), list[n - 1], ids[n - 1], hash, now);
  }

  /** Adding a tenant with another slug does not change what a slug lookup
      finds. */
  lemma FindSlugAfterOther(ts: seq<Tenant>, t: Tenant, slug: string)
    requires t.slug != slug
    ensures FindTenantBySlug(ts + [t], slug) == FindTenantBySlug(ts, slug)
  {
    var p := (x: Tenant) => x.slug == slug;
    var r0 := FirstIndex(ts, p);
    var r1 := FirstIndex(ts + [t], p);
    assert forall j :: 0 <= j < |ts| ==> (ts + [t])[j] == ts[j];
    assert (ts + [t])[|ts|] == t;
  }

  /** Seeding the tenants adds `acme` and `globex` on the free plan exactly
      when no tenant has the slug yet, and afterwards both slugs are found. */
  lemma SeedTenantsCreate(db: Db, acmeId: ObjectId, globexId: ObjectId, now: int)
    ensures var (db1, acme) := EnsureTenant(db, AcmeSlug, AcmeName, acmeId, now);
            var (db2, globex) := EnsureTenant(db1, GlobexSlug, GlobexName, globexId, now);
            && db2.tenants == db.tenants
                 + (if FindTenantBySlug(db.tenants, AcmeSlug).None? then [Tenant(acmeId, AcmeSlug, AcmeName, Free, now, now)] else [])
                 + (if FindTenantBySlug(db.tenants, GlobexSlug).None? then [Tenant(globexId, GlobexSlug, GlobexName, Free, now, now)] else [])
            && db2.users == db.users && db2.notes == db.notes
            && FindTenantBySlug(db2.tenants, AcmeSlug).Some? && FindTenantBySlug(db2.tenants, GlobexSlug).Some?
  {
    var (db1, acme) := EnsureTenant(db, AcmeSlug, AcmeName, acmeId, now);
    assert FindTenantBySlug(db1.tenants, GlobexSlug) == FindTenantBySlug(db.tenants, GlobexSlug) by {
      if FindTenantBySlug(db.tenants, AcmeSlug).None? {
        assert AcmeSlug[0] != GlobexSlug[0];
        FindSlugAfterOther(db.tenants, acme, GlobexSlug);
      }
    }
  }

  /** Seeding adds the missing demo tenants (as `SeedTenantsCreate` says),
      only appends users, never touches notes, and leaves a user for each
      of the four seed addresses. */
  lemma SeedCreates(db: Db, acmeId: ObjectId, globexId: ObjectId, userIds: seq<ObjectId>, hash: string -> string, now: int)
    requires |userIds| == |SeedUsers|
    ensures var r := SeedSpec(db, acmeId, globexId, userIds, hash, now);
            && r.tenants == EnsureTenant(EnsureTenant(db, AcmeSlug, AcmeName, acmeId, now).0, GlobexSlug, GlobexName, globexId, now).0.tenants
            && r.notes == db.notes
            && |db.users| <= |r.users| && r.users[..|db.users|] == db.users
            && forall k :: 0 <= k < |SeedUsers| ==> HasEmail(r.users, SeedUsers[k].email)
  {
    var (db1, acme) := EnsureTenant(db, AcmeSlug, AcmeName, acmeId, now);
    var (db2, globex) := EnsureTenant(db1, GlobexSlug, GlobexName, globexId, now);
    var r := SeedSpec(db, acmeId, globexId, userIds, hash, now);
    assert r == SeedUsersSpec(db2, acme, globex, SeedUsers, userIds, hash, now, |SeedUsers|);
    SeedUsersAppends(db2, acme, globex, SeedUsers, userIds, hash, now, |SeedUsers|);
    forall k | 0 <= k < |SeedUsers|
      ensures HasEmail(r.users, SeedUsers[k].email)
    {
      SeedUsersPresent(db2, acme, globex, SeedUsers, userIds, hash, now, |SeedUsers|, k);
    }
  }

  /** Running the seed a second time, with any new ids, changes nothing. */
  lemma SeedIdempotent(db: Db, acmeId: ObjectId, globexId: ObjectId, userIds: seq<ObjectId>,
                       acmeId2: ObjectId, globexId2: ObjectId, userIds2: seq<ObjectId>, hash: string -> string, now: int, later: int)
    requires |userIds| == |SeedUsers| && |userIds2| == |SeedUsers|
    ensures var r := SeedSpec(db, acmeId, globexId, userIds, hash, now);
            SeedSpec(r, acmeId2, globexId2, userIds2, hash, later) == r
  {
    var r := SeedSpec(db, acmeId, globexId, userIds, hash, now);
    SeedCreates(db, acmeId, globexId, userIds, hash, now);
    SeedTenantsCreate(db, acmeId, globexId, now);
    var (r1, acme) := EnsureTenant(r, AcmeSlug, AcmeName, acmeId2, later);
    var (r2, globex) := EnsureTenant(r1, GlobexSlug, GlobexName, globexId2, later);
    assert r2 == r;
    forall k | 0 <= k < |SeedUsers|
      ensures HasEmail(r.users, SeedUsers[k].email)
    {
    }
    SeedUsersFound(r, acme, globex, SeedUsers, userIds2, hash, later, |SeedUsers|);
  }

  // ---------------------------------------------------------------------
  // Seeding keeps the store valid

  /** Finding the tenant with the slug, or creating a valid one under a
      fresh id when there is none, keeps the store valid. */
  lemma EnsureTenantKeepsValid(db: Db, slug: string, name: string, id: ObjectId, now: int)
    requires DbValid(db) && FreshId(db, id)
    requires TenantValid(Tenant(id, slug, name, Free, now, now))
    ensures DbValid(EnsureTenant(db, slug, name, id, now).0)
  {
    if FindTenantBySlug(db.tenants, slug).None? {
      var t := Tenant(id, slug, name, Free, now, now);
      var ts := db.tenants + [t];
      forall i, j | 0 <= i < j < |ts|
        ensures ts[i].id != ts[j].id && ts[i].slug != ts[j].slug
      {
        assert ts[i] == db.tenants[i] && db.tenants[i] in db.tenants;
        if j < |db.tenants| {
          assert ts[j] == db.tenants[j];
        }
      }
      assert CountNotes(db.notes, id) == 0 by {
        forall j | 0 <= j < |db.notes|
          ensures db.notes[j].tenantId != id
        {
          assert db.notes[j] in db.notes;
        }
        FilterEmpty(db.notes, (n: Note) => n.tenantId == id);
      }
    }
  }

  /** Another id stays fresh when a tenant is found or created under `id`. */
  lemma EnsureTenantKeepsFresh(db: Db, slug: string, name: string, id: ObjectId, now: int, other: ObjectId)
    requires FreshId(db, other) && other != id
    ensures FreshId(EnsureTenant(db, slug, name, id, now).0, other)
  {
  }

  /** Every user is one the loop started with, or carries one of the ids
      handed to its first `n` passes. */
  predicate UsersFrom(us: seq<User>, start: seq<User>, ids: seq<ObjectId>, n: nat)
    requires n <= |ids|
  {
    forall u :: u in us ==> u in start || u.id in ids[..n]
  }

  /** The user loop keeps the store valid when its entries are accepted and
      its ids are distinct and used by no stored user; every user it adds
      carries one of those ids. */
  lemma {:induction false} SeedUsersKeepValid(db: Db, acme: Tenant, globex: Tenant, list: seq<SeedUser>, ids: seq<ObjectId>,
                                              hash: string -> string, now: int, n: nat)
    requires |ids| == |list| && n <= |list|
    requires DbValid(db)
    requires AllAccepted(list)
    requires forall k, u :: 0 <= k < |ids| && u in db.users ==> u.id != ids[k]
    requires forall a, b :: 0 <= a < b < |ids| ==> ids[a] != ids[b]
    ensures DbValid(SeedUsersSpec(db, acme, globex, list, ids, hash, now, n))
    ensures UsersFrom(SeedUsersSpec(db, acme, globex, list, ids, hash, now, n).users, db.users, ids, n)
    decreases n
  {
    if n > 0 {
      SeedUsersKeepValid(db, acme, globex, list, ids, hash, now, n - 1);
      SeedUsersKeepValidStep(db, acme, globex, list, ids, hash, now, n);
    }
  }

  lemma SeedUsersKeepValidStep(db: Db, acme: Tenant, globex: Tenant, list: seq<SeedUser>, ids: seq<ObjectId>,
                               hash: string -> string, now: int, n: nat)
    requires |ids| == |list| && 0 < n <= |list|
    requires AllAccepted(list)
    requires forall k, u :: 0 <= k < |ids| && u in db.users ==> u.id != ids[k]
    requires forall a, b :: 0 <= a < b < |ids| ==> ids[a] != ids[b]
    requires DbValid(SeedUsersSpec(db, acme, globex, list, ids, hash, now, n - 1))
    requires UsersFrom(SeedUsersSpec(db, acme, globex, list, ids, hash, now, n - 1).users, db.users, ids, n - 1)
    ensures DbValid(SeedUsersSpec(db, acme, globex, list, ids, hash, now, n))
    ensures UsersFrom(SeedUsersSpec(db, acme, globex, list, ids, hash, now, n).users, db.users, ids, n)
  {
    var prev := SeedUsersSpec(db, acme, globex, list, ids, hash, now, n - 1);
    var tenantId := SeedTenantId(list[n - 1].tenant, acme, globex);
    var su := list[n - 1];
    var id := ids[n - 1];
    assert ids[..n] == ids[..n - 1] + [id];
    if !HasEmail(prev.users, su.email) {
      var u := SeedRecord(tenantId, su, id, hash, now);
      AllAcceptedAt(list, n - 1);
      SeedRecordStored(tenantId, su, id, hash, now);
      SeedIdUnused(prev.users, db.users, ids, n);
      AppendUserKeepsValid(prev, u);
    }
  }

  /** A seed record of an accepted entry meets the stored-user constraints. */
  lemma SeedRecordStored(tenantId: ObjectId, su: SeedUser, id: ObjectId, hash: string -> string, now: int)
    requires Accepted(su)
    ensures StoredUserValid(SeedRecord(tenantId, su, id, hash, now))
  {
    assert NormalizeEmail(su.email) == su.email;
  }

  /** The id of pass `n` is used by no user the first `n - 1` passes left. */
  lemma SeedIdUnused(us: seq<User>, start: seq<User>, ids: seq<ObjectId>, n: nat)
    requires 0 < n <= |ids|
    requires forall k, u :: 0 <= k < |ids| && u in start ==> u.id != ids[k]
    requires forall a, b :: 0 <= a < b < |ids| ==> ids[a] != ids[b]
    requires UsersFrom(us, start, ids, n - 1)
    ensures forall v :: v in us ==> v.id != ids[n - 1]
  {
    forall v | v in us
      ensures v.id != ids[n - 1]
    {
      if v.id in ids[..n - 1] {
        var k :| 0 <= k < n - 1 && ids[..n - 1][k] == v.id;
        assert ids[k] == v.id;
      }
    }
  }

  /** Seeding keeps the store valid: the demo tenants and users are created
      under fresh ids, distinct from one another, when they are missing. */
  lemma SeedKeepsValid(db: Db, acmeId: ObjectId, globexId: ObjectId, userIds: seq<ObjectId>,
                       hash: string -> string, now: int)
    requires |userIds| == |SeedUsers|
    requires DbValid(db)
    requires FreshId(db, acmeId) && FreshId(db, globexId) && acmeId != globexId
    requires forall k :: 0 <= k < |userIds| ==> FreshId(db, userIds[k])
    requires forall a, b :: 0 <= a < b < |userIds| ==> userIds[a] != userIds[b]
    ensures DbValid(SeedSpec(db, acmeId, globexId, userIds, hash, now))
  {
    var (db1, acme) := EnsureTenant(db, AcmeSlug, AcmeName, acmeId, now);
    var (db2, globex) := EnsureTenant(db1, GlobexSlug, GlobexName, globexId, now);
    SeedTenantsKeepValid(db, acmeId, globexId, now);
    SeedUsersAccepted();
    assert forall k, u :: 0 <= k < |userIds| && u in db2.users ==> u.id != userIds[k];
    SeedUsersKeepValid(db2, acme, globex, SeedUsers, userIds, hash, now, |SeedUsers|);
  }

  /** The two tenant steps keep the store valid. */
  lemma SeedTenantsKeepValid(db: Db, acmeId: ObjectId, globexId: ObjectId, now: int)
    requires DbValid(db)
    requires FreshId(db, acmeId) && FreshId(db, globexId) && acmeId != globexId
    ensures var db1 := EnsureTenant(db, AcmeSlug, AcmeName, acmeId, now).0;
            DbValid(EnsureTenant(db1, GlobexSlug, GlobexName, globexId, now).0)
  {
    var db1 := EnsureTenant(db, AcmeSlug, AcmeName, acmeId, now).0;
    AcmeTenantValid(acmeId, now);
    GlobexTenantValid(globexId, now);
    EnsureTenantKeepsValid(db, AcmeSlug, AcmeName, acmeId, now);
    EnsureTenantKeepsFresh(db, AcmeSlug, AcmeName, acmeId, now, globexId);
    EnsureTenantKeepsValid(db1, GlobexSlug, GlobexName, globexId, now);
  }

  /** Seeding the empty database that `Database` starts with, under distinct
      new ids, leaves a valid store. */
  lemma SeedEmptyValid(acmeId: ObjectId, globexId: ObjectId, userIds: seq<ObjectId>, hash: string -> string, now: int)
    requires |userIds| == |SeedUsers| && acmeId != globexId
    requires forall a, b :: 0 <= a < b < |userIds| ==> userIds[a] != userIds[b]
    ensures DbValid(SeedSpec(Db([], [], []), acmeId, globexId, userIds, hash, now))
  {
    SeedKeepsValid(Db([], [], []), acmeId, globexId, userIds, hash, now);
  }

  /** One pass stamps its user at `now`, keeping creation-time order. */
  lemma EnsureUserKeepsTimeOrder(db: Db, tenantId: ObjectId, su: SeedUser, id: ObjectId, hash: string -> string, now: int)
    requires InTimeOrder(db) && StampedBy(db, now)
    ensures InTimeOrder(EnsureUser(db, tenantId, su, id, hash, now))
    ensures StampedBy(EnsureUser(db, tenantId, su, id, hash, now), now)
  {
    if !HasEmail(db.users, su.email) {
      AppendAscending(db.users, SeedRecord(tenantId, su, id, hash, now), UserCreatedAt);
    }
  }

  /** The user loop keeps creation-time order. */
  lemma {:induction false} SeedUsersKeepTimeOrder(db: Db, acme: Tenant, globex: Tenant, list: seq<SeedUser>, ids: seq<ObjectId>,
                                                  hash: string -> string, now: int, n: nat)
    requires |ids| == |list| && n <= |list|
    requires InTimeOrder(db) && StampedBy(db, now)
    ensures InTimeOrder(SeedUsersSpec(db, acme, globex, list, ids, hash, now, n))
    ensures StampedBy(SeedUsersSpec(db, acme, globex, list, ids, hash, now, n), now)
    decreases n
  {
    if n > 0 {
      SeedUsersKeepTimeOrder(db, acme, globex, list, ids, hash, now, n - 1);
      var prev := SeedUsersSpec(db, acme, globex, list, ids, hash, now, n - 1);
      EnsureUserKeepsTimeOrder(prev, SeedTenantId(list[n - 1].tenant, acme, globex), list[n - 1], ids[n - 1], hash, now);
    }
  }

  /** Seeding at a time no earlier than any stored record keeps the store in
      creation-time order. */
  lemma SeedKeepsTimeOrder(db: Db, acmeId: ObjectId, globexId: ObjectId, userIds: seq<ObjectId>,
                           hash: string -> string, now: int)
    requires |userIds| == |SeedUsers|
    requires InTimeOrder(db) && StampedBy(db, now)
    ensures InTimeOrder(SeedSpec(db, acmeId, globexId, userIds, hash, now))
    ensures StampedBy(SeedSpec(db, acmeId, globexId, userIds, hash, now), now)
  {
    var (db1, acme) := EnsureTenant(db, AcmeSlug, AcmeName, acmeId, now);
    var (db2, globex) := EnsureTenant(db1, GlobexSlug, GlobexName, globexId, now);
    SeedUsersKeepTimeOrder(db2, acme, globex, SeedUsers, userIds, hash, now, |SeedUsers|);
  }

  // ---------------------------------------------------------------------
  // The seed as the program runs it

  /** One pass of the user loop on the store. */
  method SeedOneUser(store: Database, tenantId: ObjectId, su: SeedUser, id: ObjectId, hash: string -> string, now: int)
    requires Accepted(su)
    modifies store
    ensures store.Value() == EnsureUser(old(store.Value()), tenantId, su, id, hash, now)
  {
    var found := UserByEmailIndex(store.users, su.email);
    HasEmailFound(store.users, su.email);
    if found.None? {
      var created := CreateUser(id, tenantId, su.email, su.password, su.role, hash, now);
      SeedRecordIsCreated(tenantId, su, id, hash, now);
      store.users := store.users + [created.value];
    }
  }

  /** `seedDatabase` on the store: two find-or-create steps for the tenants,
      then a loop over the seed users. */
  method Seed(store: Database, acmeId: ObjectId, globexId: ObjectId, userIds: seq<ObjectId>,
              hash: string -> string, now: int)
    requires |userIds| == |SeedUsers|
    modifies store
    ensures store.Value() == SeedSpec(old(store.Value()), acmeId, globexId, userIds, hash, now)
  {
    ghost var db := store.Value();
    var acme: Tenant;
    match FindTenantBySlug(store.tenants, AcmeSlug) {
      case Some(t) => acme := t;
      case None =>
        acme := Tenant(acmeId, AcmeSlug, AcmeName, Free, now, now);
        store.tenants := store.tenants + [acme];
    }
    var globex: Tenant;
    match FindTenantBySlug(store.tenants, GlobexSlug) {
      case Some(t) => globex := t;
      case None =>
        globex := Tenant(globexId, GlobexSlug, GlobexName, Free, now, now);
        store.tenants := store.tenants + [globex];
    }
    ghost var db2 := store.Value();
    assert SeedSpec(db, acmeId, globexId, userIds, hash, now) == SeedUsersSpec(db2, acme, globex, SeedUsers, userIds, hash, now, |SeedUsers|);
    forall k | 0 <= k < |SeedUsers|
      ensures Accepted(SeedUsers[k])
    {
      SeedUserAccepted(k);
    }
    SeedUserLoop(store, acme, globex, SeedUsers, userIds, hash, now);
  }

  /** The user loop of `seedDatabase`: each entry in turn is found or created. */
  method SeedUserLoop(store: Database, acme: Tenant, globex: Tenant, list: seq<SeedUser>, ids: seq<ObjectId>,
                      hash: string -> string, now: int)
    requires |ids| == |list|
    requires forall k :: 0 <= k < |list| ==> Accepted(list[k])
    modifies store
    ensures store.Value() == SeedUsersSpec(old(store.Value()), acme, globex, list, ids, hash, now, |list|)
  {
    ghost var db := store.Value();
    var i := 0;
    while i < |list|
      invariant 0 <= i <= |list|
      invariant store.Value() == SeedUsersSpec(db, acme, globex, list, ids, hash, now, i)
    {
      SeedOneUser(store, SeedTenantId(list[i].tenant, acme, globex), list[i], ids[i], hash, now);
      i := i + 1;
    }
  }

  // ---------------------------------------------------------------------
  // getDatabaseStatus

  /** The connection states by `readyState`, and `unknown` for any other. */
  function DatabaseStatus(readyState: int): (r: string)
    ensures r == "unknown" <==> !(0 <= readyState <= 3)
  {
    if readyState == 0 then "disconnected"
    else if readyState == 1 then "connected"
    else if readyState == 2 then "connecting"
    else if readyState == 3 then "disconnecting"
    else "unknown"
  }

  /** Different known states have different names. */
  lemma DatabaseStatusDistinct(a: int, b: int)
    requires 0 <= a <= 3 && 0 <= b <= 3 && a != b
    ensures DatabaseStatus(a) != DatabaseStatus(b)
  {
  }
}
