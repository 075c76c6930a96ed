/** The tenant handlers: the one-way upgrade from free to pro, the tenant's
    information with its usage counts, and the admin statistics. */
module TenantsController {
  import opened Wrappers
  import opened ObjectIds
  import opened Constants
  import opened Models
  import opened Http
  import opened Store

  const UpgradeDenied: Response := Failure(403, "Access denied", "You can only upgrade your own tenant subscription")
  const InfoDenied: Response := Failure(403, "Access denied", "You can only access your own tenant information")
  const TenantNotFound: Response := Failure(404, "Tenant not found", "The specified tenant does not exist")
  const AlreadyPro: Response := Failure(400, "Already upgraded", "This tenant is already on the Pro plan")

  // ---------------------------------------------------------------------
  // upgradeTenant

  function UpgradeTenantSpec(db: Db, caller: ReqUser, slug: string, now: int): (Response, Db) {
    if caller.tenantSlug != slug then (UpgradeDenied, db)
    else
      match TenantIndex(db.tenants, caller.tenantId)
      case None => (TenantNotFound, db)
      case Some(i) =>
        var t := db.tenants[i];
        if t.slug != slug then (TenantNotFound, db)
        else if t.plan == Pro then (AlreadyPro, db)
        else
          var t' := t.(plan := Pro, updatedAt := now);
          (Success(200, "Tenant upgraded to Pro plan successfully",
                   UpgradedTenant(TenantSummary(t'.id, t'.slug, t'.name, t'.plan, t'.updatedAt))),
           db.(tenants := db.tenants[i := t']))
  }

  /** Only the caller's own tenant, named by its slug, can be upgraded. */
  lemma UpgradeOwnTenantOnly(db: Db, caller: ReqUser, slug: string, now: int)
    requires slug != caller.tenantSlug
    ensures UpgradeTenantSpec(db, caller, slug, now) == (UpgradeDenied, db)
  {
  }

  /** A free tenant upgraded by one of its callers becomes pro with a new
      `updated_at`; no other tenant, user or note changes. */
  lemma UpgradeFreeTenant(db: Db, caller: ReqUser, now: int, t: Tenant)
    requires IsCaller(db, caller) && TenantsOk(db.tenants)
    requires t in db.tenants && t.id == caller.tenantId && t.plan == Free
    ensures var (resp, db') := UpgradeTenantSpec(db, caller, caller.tenantSlug, now);
            var t' := t.(plan := Pro, updatedAt := now);
            && resp == Success(200, "Tenant upgraded to Pro plan successfully",
                               UpgradedTenant(TenantSummary(t.id, t.slug, t.name, Pro, now)))
            && db'.users == db.users && db'.notes == db.notes
            && |db'.tenants| == |db.tenants|
            && (forall j :: 0 <= j < |db.tenants| ==> db'.tenants[j] == if db.tenants[j].id == t.id then t' else db.tenants[j])
            && FindTenant(db'.tenants, t.id) == Some(t')
  {
    CallerTenant(db, caller, t);
    var i := TenantIndex(db.tenants, t.id).value;
    assert db.tenants[i] == t;
    var db' := UpgradeTenantSpec(db, caller, caller.tenantSlug, now).1;
    assert db'.tenants == db.tenants[i := t.(plan := Pro, updatedAt := now)];
    TenantIndexAfterUpdate(db.tenants, i, t.(plan := Pro, updatedAt := now));
  }

  /** A tenant is upgraded at most once: once pro, every further upgrade is
      refused with 400 and changes nothing. */
  lemma UpgradeAtMostOnce(db: Db, caller: ReqUser, slug: string, now: int, later: int)
    requires UpgradeTenantSpec(db, caller, slug, now).0.status == 200
    ensures var db' := UpgradeTenantSpec(db, caller, slug, now).1;
            UpgradeTenantSpec(db', caller, slug, later) == (AlreadyPro, db')
  {
    var i := TenantIndex(db.tenants, caller.tenantId).value;
    TenantIndexAfterUpdate(db.tenants, i, db.tenants[i].(plan := Pro, updatedAt := now));
  }

  /** The upgrade never turns a pro tenant back into a free one. */
  lemma UpgradeOneWay(db: Db, caller: ReqUser, slug: string, now: int)
    ensures var db' := UpgradeTenantSpec(db, caller, slug, now).1;
            |db'.tenants| == |db.tenants| &&
            forall j :: 0 <= j < |db.tenants| && db.tenants[j].plan == Pro ==> db'.tenants[j].plan == Pro
  {
  }

  lemma UpgradeKeepsValid(db: Db, caller: ReqUser, slug: string, now: int)
    requires DbValid(db)
    ensures DbValid(UpgradeTenantSpec(db, caller, slug, now).1)
  {
    var r := UpgradeTenantSpec(db, caller, slug, now);
    if r.1 != db {
      var i := TenantIndex(db.tenants, caller.tenantId).value;
      ReplaceTenantKeepsValid(db, i, db.tenants[i].(plan := Pro, updatedAt := now));
    }
  }

  method UpgradeTenant(store: Database, caller: ReqUser, slug: string, now: int) returns (response: Response)
    modifies store
    ensures (response, store.Value()) == UpgradeTenantSpec(old(store.Value()), caller, slug, now)
  {
    ghost var db := store.Value();
    if caller.tenantSlug != slug {
      return UpgradeDenied;
    }
    var i := TenantIndex(store.tenants, caller.tenantId);
    if i.None? {
      return TenantNotFound;
    }
    var t := store.tenants[i.value];
    if t.slug != slug {
      return TenantNotFound;
    }
    if t.plan == Pro {
      return AlreadyPro;
    }
    var t' := t.(plan := Pro, updatedAt := now);
    store.tenants := store.tenants[i.value := t'];
    response := Success(200, "Tenant upgraded to Pro plan successfully",
                        UpgradedTenant(TenantSummary(t'.id, t'.slug, t'.name, t'.plan, t'.updatedAt)));
    assert store.Value() == db.(tenants := db.tenants[i.value := t']);
  }

  // ---------------------------------------------------------------------
  // getTenantInfo

  function GetTenantInfoSpec(db: Db, caller: ReqUser, slug: string): Response {
    if caller.tenantSlug != slug then InfoDenied
    else
      match FindTenant(db.tenants, caller.tenantId)
      case None => TenantNotFound
      case Some(t) =>
        if t.slug != slug then TenantNotFound
        else
          Success(200, "", TenantInfo(TenantDetails(
            t.id, t.slug, t.name, t.plan, t.createdAt, t.updatedAt,
            |TenantUsers(db.users, t.id)|, CountNotes(db.notes, t.id), NoteLimit(t.plan))))
  }

  /** The caller's own tenant as stored, with its user and note counts; the
      note limit is 3 exactly on the free plan, and on a valid store the
      note count never exceeds it. */
  lemma GetTenantInfoShows(db: Db, caller: ReqUser, t: Tenant)
    requires IsCaller(db, caller) && DbValid(db) && t in db.tenants && t.id == caller.tenantId
    ensures var r := GetTenantInfoSpec(db, caller, caller.tenantSlug);
            && r.status == 200 && r.payload.TenantInfo?
            && var d := r.payload.tenantDetails;
               && d.id == t.id && d.slug == t.slug && d.name == t.name && d.plan == t.plan
               && d.userCount == |TenantUsers(db.users, t.id)| && d.noteCount == CountNotes(db.notes, t.id)
               && (d.noteLimit.Some? <==> t.plan == Free)
               && (d.noteLimit.Some? ==> d.noteCount <= d.noteLimit.value)
  {
    CallerTenant(db, caller, t);
  }

  /** Another tenant's slug is refused with 403, whatever is stored. */
  lemma GetTenantInfoOwnOnly(db: Db, caller: ReqUser, slug: string)
    requires slug != caller.tenantSlug
    ensures GetTenantInfoSpec(db, caller, slug) == InfoDenied
  {
  }

  // ---------------------------------------------------------------------
  // getTenantStats

  /** Milliseconds in a day. */
  const DayMs: int := 24 * 60 * 60 * 1000

  /** `new Date().setHours(0, 0, 0, 0)`: the last local midnight, for a
      clock at `now` and a local time `tzOffset` milliseconds ahead of UTC. */
  function StartOfDay(now: int, tzOffset: int): (r: int)
    ensures now - DayMs < r <= now
  {
    now - (now + tzOffset) % DayMs
  }

  /** How many of `ns` were created at or after `since`. */
  function CountSince(ns: seq<Note>, since: int): nat {
    |Filter(ns, (n: Note) => n.createdAt >= since)|
  }

  /** How many of `us` have the role. */
  function CountRole(us: seq<User>, role: Role): nat {
    |Filter(us, (u: User) => u.role == role)|
  }

  /** A note in the "recent notes" list. */
  function RecentEntry(us: seq<User>, n: Note): RecentNote {
    RecentNote(n.id, n.title, n.createdAt, AuthorEmail(us, n))
  }

  function RecentEntries(us: seq<User>, ns: seq<Note>): (rs: seq<RecentNote>)
    ensures |rs| == |ns|
    ensures forall i :: 0 <= i < |ns| ==> rs[i] == RecentEntry(us, ns[i])
  {
    seq(|ns|, i requires 0 <= i < |ns| => RecentEntry(us, ns[i]))
  }

  const RecentNotesLimit: nat := 5

  /** `getTenantStats`. The `slug` of the path is taken but never read: the
      statistics are always the caller's own tenant's. */
  function GetTenantStatsSpec(db: Db, caller: ReqUser, slug: string, now: int, tzOffset: int): Response {
    var us := TenantUsers(db.users, caller.tenantId);
    var ns := TenantNotes(db.notes, caller.tenantId);
    var newest := NewestFirst(ns);
    var stats := Stats(|us|, CountRole(us, Admin), CountRole(us, Member),
                       |ns|, CountSince(ns, StartOfDay(now, tzOffset)),
                       CountSince(ns, now - 7 * DayMs), CountSince(ns, now - 30 * DayMs));
    Success(200, "", TenantStats(stats, RecentEntries(db.users, newest[..if |newest| < RecentNotesLimit then |newest| else RecentNotesLimit])))
  }

  /** Every user is an admin or a member, and is counted as one of them. */
  lemma {:induction false} RoleCountsAddUp(us: seq<User>)
    ensures CountRole(us, Admin) + CountRole(us, Member) == |us|
  {
    if us != [] {
      RoleCountsAddUp(us[..|us| - 1]);
    }
  }

  /** The counts are nested: today within the week, the week within the
      month, the month within all the tenant's notes. */
  lemma StatsNested(db: Db, caller: ReqUser, slug: string, now: int, tzOffset: int)
    ensures var s := GetTenantStatsSpec(db, caller, slug, now, tzOffset).payload.stats;
            && s.adminUsers + s.memberUsers == s.totalUsers
            && s.notesToday <= s.notesThisWeek <= s.notesThisMonth <= s.totalNotes
            && s.totalUsers == |TenantUsers(db.users, caller.tenantId)|
            && s.totalNotes == CountNotes(db.notes, caller.tenantId)
  {
    var us := TenantUsers(db.users, caller.tenantId);
    var ns := TenantNotes(db.notes, caller.tenantId);
    RoleCountsAddUp(us);
    var day := StartOfDay(now, tzOffset);
    FilterCountMono(ns, (n: Note) => n.createdAt >= day, (n: Note) => n.createdAt >= now - 7 * DayMs);
    FilterCountMono(ns, (n: Note) => n.createdAt >= now - 7 * DayMs, (n: Note) => n.createdAt >= now - 30 * DayMs);
  }

  /** The recent notes are the tenant's newest five, newest first, each
      with its author's address or "Unknown". */
  lemma StatsRecent(db: Db, caller: ReqUser, slug: string, now: int, tzOffset: int)
    ensures var recent := GetTenantStatsSpec(db, caller, slug, now, tzOffset).payload.recent;
            var ns := TenantNotes(db.notes, caller.tenantId);
            && |recent| == (if |ns| < RecentNotesLimit then |ns| else RecentNotesLimit)
            && forall i :: 0 <= i < |recent| ==> recent[i] == RecentEntry(db.users, ns[|ns| - 1 - i])
  {
  }

  /** While the store is in creation-time order, the recent notes come with
      creation times that never increase: the `sort({ created_at: -1 })`
      order. */
  lemma StatsRecentNewestFirst(db: Db, caller: ReqUser, slug: string, now: int, tzOffset: int, i: nat, j: nat)
    requires InTimeOrder(db)
    requires i < j < |GetTenantStatsSpec(db, caller, slug, now, tzOffset).payload.recent|
    ensures GetTenantStatsSpec(db, caller, slug, now, tzOffset).payload.recent[i].createdAt
         >= GetTenantStatsSpec(db, caller, slug, now, tzOffset).payload.recent[j].createdAt
  {
    StatsRecent(db, caller, slug, now, tzOffset);
    TenantNotesAscending(db.notes, caller.tenantId);
  }

  /** The path's slug makes no difference, even another tenant's slug,
      where `getTenantInfo` answers 403. */
  lemma StatsIgnoreSlug(db: Db, caller: ReqUser, slug: string, other: string, now: int, tzOffset: int)
    requires other != caller.tenantSlug
    ensures GetTenantStatsSpec(db, caller, other, now, tzOffset) == GetTenantStatsSpec(db, caller, slug, now, tzOffset)
    ensures GetTenantStatsSpec(db, caller, other, now, tzOffset).status == 200
    ensures GetTenantInfoSpec(db, caller, other) == InfoDenied
  {
  }

  /** Other tenants' users and notes cannot influence the statistics. */
  lemma StatsIsolated(db: Db, caller: ReqUser, slug: string, now: int, tzOffset: int)
    ensures GetTenantStatsSpec(db, caller, slug, now, tzOffset).payload.stats
         == GetTenantStatsSpec(db.(users := TenantUsers(db.users, caller.tenantId),
                                   notes := TenantNotes(db.notes, caller.tenantId)), caller, slug, now, tzOffset).payload.stats
  {
    FilterFilter(db.users, (u: User) => u.tenantId == caller.tenantId, (u: User) => u.tenantId == caller.tenantId);
    FilterFilter(db.notes, (n: Note) => n.tenantId == caller.tenantId, (n: Note) => n.tenantId == caller.tenantId);
  }
}
