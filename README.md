# Multi-tenant notes API — a Dafny model

This project models the server of a multi-tenant notes service and the
client-side rules that go with it. Tenants (`acme`, `globex`, …) are on a
`free` plan limited to three notes, or on the `pro` plan. Each user
belongs to one tenant and is an `admin` or a `member`. Notes belong to a
tenant and to the user who wrote them.

The three MongoDB collections are sequences in insertion order: a value
`Store.Db` and a class `Store.Database` whose fields the handlers
reassign. A handler that writes is modelled twice. A pure `…Spec`
function gives its response and the new store. A `method` of the same
name updates a `Database` and is proved to agree with that function.
Where the code has a bug (see "## Findings"), the method follows the code
and agrees with an `…AsWritten` function, and the `…Spec` function is the
corrected handler. The properties are then proved about the functions:
tenant scoping, the free-plan quota, the store invariants (unique ids,
unique `(tenant_id, email)`, valid records, the quota) from the seed on,
creation-time order, one-way upgrades, consistent statistics and the
self-action guards. Read-only handlers, the login flow and the
validators are functions. Lengths are counted in UTF-16 code units, as
JavaScript's `length` and Joi's `min`/`max` count them.

Modules, one per component:

- `ObjectIds`: 24-digit hexadecimal ids, their casting, and the
  upper-case spelling of an id.
- `Strings`: JavaScript's `trim`, `toLowerCase` on the ASCII letters,
  and `length` counted in UTF-16 code units.
- `Constants`: the shared roles, plans, limits and e-mail pattern.
- `Models`: the three schemas, the user's save hook and `toAuthJSON`.
- `Http`: request bodies and responses.
- `Store`: queries, pagination and the invariants.
- `Validation`: the Joi schemas, `validateBody`/`validateQuery` and the
  sanitisers.
- `AuthGuard`: the middleware.
- `AuthController`, `NotesController`, `UsersController`,
  `TenantsController`: the handlers.
- `ErrorMapper`: the error middleware and the 404.
- `Routes`: the mount table, each router's middleware chain and its
  endpoints.
- `DatabaseUtils`: the seed and the connection-state table.
- `Permissions`, `ClientValidators`, `ClientErrors`: the front end.
- `ClientServer`: the client's permission rules set beside the
  server's handlers.

Foreign code is passed in as parameters:

- the Joi e-mail grammar, as `isEmail`;
- bcrypt, as a `hash` function, with `compare(p, h)` read as
  `h == hash(p)`;
- JWT signing and verification, as `sign` and `verify`;
- the clock, as `now` in milliseconds, and the local time zone, as an
  offset;
- new MongoDB ids.

Behaviour of the code worth knowing:

- `authenticateToken` answers 500, not 401, for a user whose tenant is
  gone. It reads `tenant_id._id` of a null populate, which throws.
- `req.user` takes its plan, slug and name from the live tenant record,
  not from a snapshot in the token.
- `login` looks the address up across all tenants, and the first stored
  record wins.

## Model

| member | source | states |
|---|---|---|
| Constants.ParseRole | frontend/src/utils/constants.js:6-9 | a string denotes a role exactly when it is `admin` or `member`, and the role's name is that string |
| Constants.RoleRoundTrip | frontend/src/utils/constants.js:6-9 | reading back the name of a role gives that role |
| Constants.ParsePlan | frontend/src/utils/constants.js:1-4 | a string denotes a plan exactly when it is `free` or `pro`, and the plan's name is that string |
| Constants.NoteLimit | frontend/src/utils/constants.js:43-46 | only the free plan has a limit, and it is 3; the pro plan's `null` is unlimited |
| Constants.EmailPatternOneAt | frontend/src/utils/constants.js:51 | an address the e-mail pattern accepts holds exactly one `@` |
| Constants.EmailPatternNoSpace | frontend/src/utils/constants.js:51 | an address the e-mail pattern accepts holds no whitespace |
| Constants.EmailPatternShape | frontend/src/utils/constants.js:51 | both facts together: one `@` and no whitespace |
| Constants.EmailPatternMinimum | frontend/src/utils/constants.js:51 | an accepted address has at least five characters (`a@b.c`) |
| Constants.EmailCharsShape | backend/src/models/User.js:18 | a run of `[^\s@]` characters holds no `@` and no whitespace |
| Models.NewNote | backend/src/models/Note.js:4-29 | the stored note keeps its tenant, author and id, its title is the trimmed title (and stays trimmed), its content is the given content or, when none is given, the empty string, both timestamps are the creation time |
| Models.NormalizeEmail | backend/src/models/User.js:11-15 | the stored address is lower-case and trimmed, and equals lower-casing the trimmed input |
| Models.NormalizeEmailIdempotent | backend/src/models/User.js:14-15 | applying the lowercase and trim setters twice changes nothing |
| Models.NewTenant | backend/src/models/Tenant.js:4-26 | the stored tenant keeps the given id; its slug is the given slug lower-cased and trimmed, its name the trimmed name, its plan the given plan or free, both timestamps the creation time |
| Models.NewTenantValid | backend/src/models/Tenant.js:4-26 | the created tenant passes the schema exactly when the normalised slug has 2 to 50 UTF-16 units and the trimmed name 2 to 100 |
| Models.ToAuthJSON | backend/src/models/User.js:61-70 | the view carries the user's id, tenant, e-mail and role |
| Models.AuthJSONOmitsOnlyPassword | backend/src/models/User.js:61-70 | two users have the same view exactly when they differ at most in the password hash |
| Models.AuthJSONIgnoresPassword | backend/src/models/User.js:61-70 | changing the password hash never changes the view |
| Models.UserDocument.constructor | backend/src/models/User.js:11-15 | a new document stores the normalised address and the given hash, and counts as new with a modified password |
| Models.UserDocument.SetPasswordHash | backend/src/models/User.js:44 | assigning the hash marks it modified and changes nothing else |
| Models.UserDocument.PreSave | backend/src/models/User.js:43-53 | the hook hashes the stored value only when it was modified, and changes no other field |
| Models.UserDocument.Save | backend/src/models/User.js:16-53 | validation runs first (pattern on the address, hash of at least six characters); a refused save changes nothing; a successful one runs the hook, sets timestamps on a new document, and clears the new and modified marks |
| Models.CreatedUser | backend/src/models/User.js:4-53 | the record is created exactly when the normalised address matches and the hash has six characters; it is valid, keeps id, tenant and role, and the given string checks against it through one more hash |
| Models.CreateUser | backend/src/models/User.js:43-53 | building a document and saving it gives exactly `CreatedUser` |
| Models.SaveTwice | backend/src/models/User.js:44 | a second save without touching the password does not hash the stored hash again |
| ObjectIds.HexDigit | backend/src/controllers/users.js:129 | the digit an id prints with is a lower-case hex character of that value |
| ObjectIds.ToHex | backend/src/controllers/users.js:129 | `toString()` gives exactly the requested number of hex digits, none upper-case |
| ObjectIds.ObjectIdString | backend/src/controllers/users.js:129 | an id prints as 24 lower-case hex digits |
| ObjectIds.HexValue | backend/src/controllers/notes.js:116 | the value read from a hex string fits in that many digits |
| ObjectIds.CastObjectId | backend/src/controllers/notes.js:109-114 | a path parameter is cast to an id exactly when `isValid` accepts it: 24 hex digits of either case |
| ObjectIds.HexValueOfToHex | backend/src/controllers/notes.js:116 | reading back the digits of a number gives the number |
| ObjectIds.CastOfString | backend/src/controllers/notes.js:109-116 | casting the string an id prints as gives back the id (print and cast are a round trip) |
| ObjectIds.StringInjective | backend/src/controllers/users.js:129 | two ids that print alike are the same id |
| ObjectIds.ToUpperHex | backend/src/controllers/users.js:113 | upper-casing keeps the length and maps each character |
| ObjectIds.HexValueUpper | backend/src/controllers/users.js:113 | upper-casing the hex letters keeps a string valid and keeps its value |
| ObjectIds.UpperSpellingSameId | backend/src/controllers/users.js:113-129 | the upper-case spelling of an id with a hex letter is a different string that casts to the same id |
| NotesController.ValidNoteBody | backend/src/controllers/notes.js:9-17 | a body that passed validation has a title whose trimmed form fits the note schema (1..200 UTF-16 units, trimmed) and content within 10000 UTF-16 units |
| NotesController.CreateNoteInvalidBody | backend/src/controllers/notes.js:9-15 | a body that breaks the note rules is answered 400 and nothing is written |
| NotesController.CreateNoteQuota | backend/src/controllers/notes.js:20-31 | a free caller whose tenant holds three notes or more gets 403 with `limit_reached`, and nothing is written |
| NotesController.CreateNoteStores | backend/src/controllers/notes.js:33-44 | otherwise (pro, or under the limit) the answer is 201 and the note is appended with the caller's tenant and id, the trimmed title, content or the empty string; it satisfies the note schema and the tenant's count grows by one |
| NotesController.CreateNoteKeepsValid | backend/src/controllers/notes.js:20-39 | creating a note keeps every store invariant, in particular no free tenant holds more than three notes |
| NotesController.CreateNoteOtherTenants | backend/src/controllers/notes.js:34-39 | no other tenant's notes change |
| NotesController.CreateNote | backend/src/controllers/notes.js:6-53 | the handler's response and the new store are those of `CreateNoteSpec` on the old store |
| NotesController.NoteViews | backend/src/controllers/notes.js:74-81 | one formatted view per note, in order |
| NotesController.GetNotesPagination | backend/src/controllers/notes.js:56-91 | 200 with at most `limit` notes (default 50); `page`, `limit` and `total` (the tenant's count) are reported, and `pages` is the ceiling of total over limit |
| NotesController.GetNotesOrder | backend/src/controllers/notes.js:64-68 | the i-th note of a page is the tenant's `(page-1)*limit + i`-th newest |
| NotesController.GetNotesNewestFirst | backend/src/controllers/notes.js:64-68 | while the notes are in creation-time order, a page's creation times never increase: the `sort({ created_at: -1 })` order |
| NotesController.CreateNoteKeepsTimeOrder | backend/src/models/Note.js:29 | a note stamped at `now`, no earlier than any stored record, keeps the store in creation-time order and stamped by `now` |
| NotesController.TenantNoteAt | backend/src/controllers/notes.js:64 | every note of `find({ tenant_id })` is a stored note of that tenant |
| NotesController.GetNotesScoped | backend/src/controllers/notes.js:64 | every listed note is a stored note of the caller's tenant |
| NotesController.GetNotesIsolated | backend/src/controllers/notes.js:64-71 | the listing is the same when every other tenant's notes are removed |
| NotesController.GetNoteMalformedId | backend/src/controllers/notes.js:108-114 | an id `isValid` refuses is answered 400 whatever the store holds |
| NotesController.GetNoteMissingOrForeign | backend/src/controllers/notes.js:116-124 | a note that does not exist and one of another tenant get the same 404 |
| NotesController.FindTenantNoteHit | backend/src/controllers/notes.js:116 | with unique ids, the query by id and tenant finds the note itself |
| NotesController.GetNoteFound | backend/src/controllers/notes.js:116-135 | a note of the caller's tenant is returned, formatted, for the string its id prints as |
| NotesController.GetNoteIsolated | backend/src/controllers/notes.js:116 | the answer is the same when every other tenant's notes are removed |
| NotesController.UpdateNoteChecksIdFirst | backend/src/controllers/notes.js:152-167 | a malformed id is answered 400 "Invalid ID" before the body is looked at, and nothing changes |
| NotesController.UpdateNoteMissingOrForeign | backend/src/controllers/notes.js:172-187 | a missing note and another tenant's note get the same 404, and nothing changes |
| NotesController.UpdateNoteEdits | backend/src/controllers/notes.js:169-201 | for a note of the caller's tenant, whoever wrote it: 200 with the edited note, exactly that note changes and only in title (trimmed), content (or the empty string) and `updated_at`; tenants and users are untouched |
| NotesController.UpdateNoteOtherTenants | backend/src/controllers/notes.js:172-173 | no other tenant's notes change |
| NotesController.UpdateNoteKeepsValid | backend/src/controllers/notes.js:172-180 | an update keeps every store invariant |
| NotesController.UpdateNoteKeepsTimeOrder | backend/src/models/Note.js:29 | an edit keeps `created_at`, so the creation-time order and the clock bound are kept |
| NotesController.UpdateNote | backend/src/controllers/notes.js:147-210 | the handler's response and the new store are those of `UpdateNoteSpec` |
| NotesController.DeleteNoteRemoves | backend/src/controllers/notes.js:226-239 | a successful delete removes exactly the note with that id, keeps every other note, and a later read of the id is the 404 |
| NotesController.DeleteNoteMissingOrForeign | backend/src/controllers/notes.js:227-234 | a missing note and another tenant's note get the same 404, and nothing changes |
| NotesController.DeleteNoteOtherTenants | backend/src/controllers/notes.js:227 | no other tenant's notes change |
| NotesController.DeleteNoteKeepsValid | backend/src/controllers/notes.js:227 | a delete keeps every store invariant |
| NotesController.DeleteNoteKeepsTimeOrder | backend/src/controllers/notes.js:227 | a delete keeps the creation-time order of the notes left |
| NotesController.DeleteNote | backend/src/controllers/notes.js:213-248 | the handler's response and the new store are those of `DeleteNoteSpec` |
| UsersController.InviteRoleChosen | backend/src/controllers/users.js:18 | a valid invitation uses the role it names, and member when it names none |
| UsersController.InviteDuplicate | backend/src/controllers/users.js:21-32 | as written or corrected, an address already used in the caller's tenant is refused with 400 and nothing changes |
| UsersController.InviteCreatesWith | backend/src/controllers/users.js:34-58 | as written or corrected, for a new address the invitation succeeds (201) exactly when the address and the value handed to `User.create` pass the schema; the user is appended with the given id, the caller's tenant, the normalised address and the chosen role, and its hash checks against that value; notes and tenants are unchanged; otherwise 500 and nothing is written |
| UsersController.InviteCreates | backend/src/controllers/users.js:34-58 | corrected: for a new address the user is appended with the given id, the caller's tenant, the normalised address and the chosen role, and can log in with the demo password; the response carries the user without the hash and the demo notice; the record is refused (500, nothing written) exactly when the address fails the schema's pattern |
| UsersController.InviteKeepsValid | backend/src/controllers/users.js:38-43 | inviting, as written or with the hash left to the save hook, keeps every store invariant, including one user per (tenant, e-mail) |
| UsersController.InviteOtherTenants | backend/src/controllers/users.js:38-43 | as written or corrected, no other tenant's users change |
| UsersController.InviteKeepsTimeOrder | backend/src/models/User.js:34 | as written or corrected, a user stamped at `now`, no earlier than any stored record, keeps the creation-time order |
| UsersController.InviteAsWrittenLocksOut | backend/src/controllers/users.js:36-43 | as written (hash taken in the handler, then again by the save hook), an invited user cannot log in with the announced demo password under any one-to-one hash |
| UsersController.InviteWithAppends | backend/src/controllers/users.js:38-43 | a successful invitation appends exactly one user whose hash checks against the value handed to `User.create` |
| UsersController.InviteUser | backend/src/controllers/users.js:7-67 | the handler's response and the new store are those of `InviteUserAsWritten`: the demo password is hashed in the handler and again by the save hook |
| UsersController.AddInvitedUser | backend/src/controllers/users.js:38-58 | the write appends the user, and the response carries the user's public fields and the demo notice |
| UsersController.UserViews | backend/src/controllers/users.js:77-78 | one view per user, in order, each without the password hash |
| UsersController.GetTenantUsersPagination | backend/src/controllers/users.js:70-94 | 200 with at most `limit` users (default 20); `total` is the tenant's user count and `pages` the ceiling of total over limit |
| UsersController.GetTenantUsersOrder | backend/src/controllers/users.js:77-81 | the i-th user of a page is the tenant's `(page-1)*limit + i`-th newest, without the hash |
| UsersController.GetTenantUsersNewestFirst | backend/src/controllers/users.js:77-81 | while the users are in creation-time order, a page's creation times never increase: the `sort({ created_at: -1 })` order |
| UsersController.GetTenantUsersScoped | backend/src/controllers/users.js:77 | every listed user is a stored user of the caller's tenant |
| UsersController.TenantUserAt | backend/src/controllers/users.js:77 | every user of `find({ tenant_id })` is a stored user of that tenant |
| UsersController.GetTenantUsersIsolated | backend/src/controllers/users.js:77-84 | the listing is the same when every other tenant's users are removed |
| UsersController.SelfChecksAgree | backend/src/controllers/users.js:129 | a string match with the printed caller id implies the ids match; for the canonical spelling the two checks agree |
| UsersController.SubmittedRole | backend/src/controllers/users.js:120-126 | a role is taken from the body exactly when it is the string `admin` or `member` |
| UsersController.TenantUserIndexHit | backend/src/controllers/users.js:137-138 | with unique ids, the query by id and tenant finds the user itself |
| UsersController.UpdateUserRoleChecks | backend/src/controllers/users.js:112-134 | under either self guard the checks come in order (id form 400, role 400, own id 400) and each failure leaves the store unchanged; the guard as written holds exactly when the parameter equals the caller's printed id, the corrected one exactly when it casts to the caller's id |
| UsersController.UpdateUserRoleNeverSelf | backend/src/controllers/users.js:128-134 | a successful role change never targets the caller, under any spelling of the caller's id |
| UsersController.UpdateUserRoleChanges | backend/src/controllers/users.js:136-153 | under either self guard, another user of the tenant gets the new role and a new `updated_at`; the response shows that user without the hash; nothing else changes |
| UsersController.UpdateUserRoleMissingOrForeign | backend/src/controllers/users.js:136-148 | under either self guard, a user that does not exist and a user of another tenant get the same 404, and nothing changes |
| UsersController.UpdateUserRoleKeepsValid | backend/src/controllers/users.js:137-141 | under either self guard, a role change keeps every store invariant |
| UsersController.UpdateUserRoleKeepsTimeOrder | backend/src/controllers/users.js:137-141 | under either self guard, a role change keeps `created_at`, so the creation-time order and the clock bound are kept |
| UsersController.UpdateUserRoleSelfBypass | backend/src/controllers/users.js:129 | as written, an admin whose id prints with a hex letter changes their own role by sending the upper-case spelling; the corrected guard answers 400 |
| UsersController.UpdateUserRole | backend/src/controllers/users.js:106-162 | the handler's response and the new store are those of `UpdateUserRoleAsWritten`, whose self guard compares the parameter with the caller's id as text |
| UsersController.RemoveUserRemovesWith | backend/src/controllers/users.js:186-202 | under either self guard, a successful removal deletes exactly the user with that id, who belongs to the caller's tenant; every other user stays; notes and tenants stay, and the removed user's notes then show the author "Unknown" |
| UsersController.RemoveUserRemoves | backend/src/controllers/users.js:186-202 | corrected: a successful removal never targets the caller and deletes exactly the user with that id; every other user stays; notes stay, and the removed user's notes then show the author "Unknown" |
| UsersController.RemoveUserMissingOrForeign | backend/src/controllers/users.js:186-197 | under either self guard, a user that does not exist and a user of another tenant get the same 404, and nothing changes |
| UsersController.RemoveUserKeepsValid | backend/src/controllers/users.js:187-190 | under either self guard, a removal keeps every store invariant |
| UsersController.RemoveUserKeepsTimeOrder | backend/src/controllers/users.js:187-190 | under either self guard, a removal keeps the creation-time order of the users left |
| UsersController.RemoveUserSelfBypass | backend/src/controllers/users.js:179 | as written, an admin removes their own account by sending the upper-case spelling of their id; the corrected guard answers 400 |
| UsersController.RemoveUser | backend/src/controllers/users.js:165-211 | the handler's response and the new store are those of `RemoveUserAsWritten`, whose self guard compares as text |
| TenantsController.UpgradeOwnTenantOnly | backend/src/controllers/tenants.js:10-16 | a slug other than the caller's own is refused with 403 and nothing changes |
| TenantsController.UpgradeFreeTenant | backend/src/controllers/tenants.js:18-57 | a free tenant upgraded by one of its own callers becomes pro with a new `updated_at`, the response shows it, and no other tenant, user or note changes |
| TenantsController.UpgradeAtMostOnce | backend/src/controllers/tenants.js:28-34 | after a successful upgrade every further upgrade is refused with 400 and changes nothing |
| TenantsController.UpgradeOneWay | backend/src/controllers/tenants.js:37-43 | no pro tenant ever becomes free again, and no tenant is added or removed |
| TenantsController.UpgradeKeepsValid | backend/src/controllers/tenants.js:37-43 | an upgrade keeps every store invariant (lifting the quota can only relax it) |
| TenantsController.UpgradeTenant | backend/src/controllers/tenants.js:5-66 | the handler's response and the new store are those of `UpgradeTenantSpec` |
| TenantsController.GetTenantInfoShows | backend/src/controllers/tenants.js:82-111 | for the caller's own slug: 200 with the stored tenant's fields, its user and note counts, a note limit present exactly on the free plan, and a note count within it on a valid store |
| TenantsController.GetTenantInfoOwnOnly | backend/src/controllers/tenants.js:74-80 | another slug is refused with 403 whatever is stored |
| TenantsController.StartOfDay | backend/src/controllers/tenants.js:156 | the last local midnight lies within the day before `now` |
| TenantsController.RecentEntries | backend/src/controllers/tenants.js:213-218 | one entry per note, in order, with the author's address or "Unknown" |
| TenantsController.RoleCountsAddUp | backend/src/controllers/tenants.js:133-139 | admins and members together are all the users |
| TenantsController.StatsNested | backend/src/controllers/tenants.js:128-211 | admin and member counts add up to the user total; today's notes are within the week's, the week's within the month's, the month's within the total; totals are the tenant's counts |
| TenantsController.StatsRecent | backend/src/controllers/tenants.js:197-218 | the recent list is the tenant's five newest notes (or fewer), newest first |
| TenantsController.StatsRecentNewestFirst | backend/src/controllers/tenants.js:197-200 | while the notes are in creation-time order, the recent list's creation times never increase |
| TenantsController.StatsIgnoreSlug | backend/src/controllers/tenants.js:123-125 | the path's slug makes no difference, even another tenant's slug for which `getTenantInfo` answers 403 |
| TenantsController.StatsIsolated | backend/src/controllers/tenants.js:128-194 | the statistics are the same when every other tenant's users and notes are removed |
| AuthController.TokenClaims | backend/src/controllers/auth.js:6-20 | the token carries the user's id, address and role, its tenant exactly when one is stored, and a lifetime of 24 hours |
| AuthController.FindUserByEmail | backend/src/controllers/auth.js:39-40 | a user is found only when one with that address is stored, in any tenant; none is found exactly when no stored user has it |
| AuthController.LoginInvalidInput | backend/src/controllers/auth.js:28-34 | credentials failing the login schema get 400, whatever the store holds |
| AuthController.LoginFailuresAlike | backend/src/controllers/auth.js:42-57 | an unknown address and a wrong password get the same 401 answer |
| AuthController.LoginSucceeds | backend/src/controllers/auth.js:59-75 | a 200 login answers for a stored user with that lower-cased address and a matching password, in its stored tenant; the caller returned is the middleware's view of that user and the token signs that user's claims |
| AuthController.LoginFirstRecordWins | backend/src/controllers/auth.js:39-57 | with the same address stored twice, only the first record's password can log in |
| AuthController.FirstWithEmail | backend/src/controllers/auth.js:39 | the lookup by address returns the earliest stored record with it |
| AuthController.BearerTokenAuthenticates | backend/src/middleware/auth.js:9-41 | `Bearer <token>` with a token that verifies to a stored user's id authenticates as that user in its tenant |
| AuthController.LoginThenAuthenticate | backend/src/controllers/auth.js:59-75 | the token from a successful login, sent back, authenticates as the very caller the login returned |
| AuthController.LogoutSpec | backend/src/controllers/auth.js:87-100 | logout answers 200 telling the client to drop its token and changes nothing |
| AuthController.LogoutKeepsTokens | backend/src/controllers/auth.js:87-100 | every header authenticates after logout exactly as before |
| AuthController.ProfileIsStoredCaller | backend/src/controllers/auth.js:103-125 | behind the middleware, the profile and the token check both return the stored user with its stored tenant |
| AuthGuard.FirstField | backend/src/middleware/auth.js:10 | the text up to the first space: a prefix of the input with no space in it |
| AuthGuard.ExtractToken | backend/src/middleware/auth.js:9-17 | an extracted token is never empty and never holds a space |
| AuthGuard.ExtractTokenAnyScheme | backend/src/middleware/auth.js:10 | any scheme word followed by a space and a token yields that token: the word `Bearer` is never checked |
| AuthGuard.ExtractTokenNeedsSpace | backend/src/middleware/auth.js:10-17 | a header without a space carries no token |
| AuthGuard.VerifyErrorResponse | backend/src/middleware/auth.js:44-63 | 401 exactly for `JsonWebTokenError` and `TokenExpiredError`, 500 for any other error |
| AuthGuard.Authenticate | backend/src/middleware/auth.js:7-65 | an authenticated caller is always a stored user with its stored tenant; no token gives 401; every refusal is 401 or 500 |
| AuthGuard.DeletedUserRefused | backend/src/middleware/auth.js:22-30 | a token naming a user no longer stored is refused with 401 "User not found" |
| AuthGuard.PlanFromRecord | backend/src/middleware/auth.js:22-41 | the caller's role, plan, slug and name come from the live records, not from the token |
| AuthGuard.AuthenticateToken | backend/src/middleware/auth.js:7-65 | the middleware sets `req.user` and continues exactly when `Authenticate` accepts, otherwise halts with its response and leaves `req.user` |
| AuthGuard.RequireRole | backend/src/middleware/auth.js:68-89 | 401 without a user; with one, it continues exactly when the role's name is among the required roles, and refuses with 403 otherwise |
| AuthGuard.RequireAdminAdmits | backend/src/middleware/auth.js:92 | `requireAdmin` admits exactly the authenticated admins and tells a member that "admin" is required |
| AuthGuard.RequireMemberOrAdminAdmits | backend/src/middleware/auth.js:95 | `requireMemberOrAdmin` admits every authenticated caller |
| AuthGuard.SingleRoleIsList | backend/src/middleware/auth.js:78 | a single role string acts as the one-element list |
| AuthGuard.TenantIsolation | backend/src/middleware/auth.js:98-109 | it continues exactly when there is a user, and then scopes the request to that user's tenant |
| AuthGuard.EnforceTenantIsolation | backend/src/middleware/auth.js:98-109 | the method's outcome and `req.tenant_id` are those of `TenantIsolation`; a halt leaves `req.tenant_id` as it was |
| Validation.FirstRuleError | backend/src/utils/validation.js:5-123 | no error is reported exactly when every rule of the chain passes |
| Validation.FieldFor | backend/src/utils/validation.js:4-123 | a field is found exactly when the schema declares the key, and it is the declared field |
| Validation.FirstUnknown | backend/src/utils/validation.js:4-123 | no unknown key is reported exactly when every key of the object is declared |
| Validation.FieldErrorNone | backend/src/utils/validation.js:4-123 | no field error from a position on exactly when every later field accepts its value |
| Validation.ValidIff | backend/src/utils/validation.js:126-152 | an object is valid exactly when every declared field accepts its value and no key is undeclared |
| Validation.ValidIff1 | backend/src/utils/validation.js:60-68 | with one field: valid exactly when it accepts and it is the only key |
| Validation.ValidIff2 | backend/src/utils/validation.js:4-57 | with two fields: valid exactly when both accept and no other key is present |
| Validation.ValidIff3 | backend/src/utils/validation.js:71-101 | with three fields: valid exactly when all three accept and no other key is present |
| Validation.FieldErrorKey | backend/src/utils/validation.js:157-162 | the first error is reported under the key of a field that rejects |
| Validation.GetOutput | backend/src/utils/validation.js:157-170 | in a valid object's converted value, each declared key holds what its field accepted (the converted value, or the default when absent) |
| Validation.StringFieldAccepts | backend/src/utils/validation.js:5-101 | a string field accepts a value exactly when it converts to a non-empty string that passes every rule |
| Validation.ListedFieldAccepts | backend/src/utils/validation.js:51-100 | a `valid(...)` field accepts a value exactly when it is one of the listed strings |
| Validation.NumberFieldAccepts | backend/src/utils/validation.js:105-122 | a number field accepts a value exactly when it converts to a number passing every rule |
| Validation.AcceptedValue | backend/src/utils/validation.js:53-117 | an accepted value is the converted one, and an absent one takes the field's default |
| Validation.CoerceNumber | backend/src/utils/validation.js:105-113 | whole numbers, given as numbers or as strings that read as whole numbers (white space around, a sign, a point followed by zeros), become integers; nothing else becomes an integer, and a string that changes otherwise becomes a fraction |
| Validation.PlusSignReads | backend/src/utils/validation.js:105 | "+2" reads as the number 2 |
| Validation.SurroundingSpaceReads | backend/src/utils/validation.js:105 | " 2 " reads as the number 2 |
| Validation.ZeroFractionReads | backend/src/utils/validation.js:105 | "2.0" reads as the number 2 |
| Validation.MinusSignReads | backend/src/utils/validation.js:105 | "-5" reads as the number -5 |
| Validation.FractionReads | backend/src/utils/validation.js:105 | "2.5" reads as a number between 2 and 3 |
| Validation.PaginationReadsNumericPage | backend/src/utils/validation.js:104-112 | a page given as "+2", " 2 " or "2.0" is valid and is page 2, with the default limit 20 |
| Validation.PaginationNegativePage | backend/src/utils/validation.js:105-111 | a page of "-5" is converted and then refused with "Page must be at least 1" |
| Validation.PaginationFractionPage | backend/src/utils/validation.js:105-110 | a page of "2.5" is converted and then refused with "Page must be an integer" |
| Validation.TitleRules | backend/src/utils/validation.js:23-32 | the title's rules pass exactly for 1 to 200 UTF-16 units |
| Validation.TitleFieldAccepts | backend/src/utils/validation.js:23-32 | the title is accepted exactly when it is a string whose trimmed form has 1 to 200 UTF-16 units |
| Validation.ContentFieldAccepts | backend/src/utils/validation.js:33-39 | content is accepted exactly when absent or a string of at most 10000 UTF-16 units, the empty one included |
| Validation.EmailFieldAccepts | backend/src/utils/validation.js:5-11 | the e-mail is accepted exactly when it is a non-empty string passing the e-mail grammar |
| Validation.PasswordFieldAccepts | backend/src/utils/validation.js:12-18 | the password is accepted exactly when it is a non-empty string |
| Validation.RoleFieldsAccept | backend/src/utils/validation.js:51-67 | both role fields accept exactly "admin" and "member"; only the invite's may be absent |
| Validation.SlugRules | backend/src/utils/validation.js:72-84 | the slug's rules pass exactly for 2 to 50 alphanumeric characters |
| Validation.SlugFieldAccepts | backend/src/utils/validation.js:72-84 | the slug is accepted exactly when its lower-cased form has 2 to 50 alphanumeric characters |
| Validation.TenantNameRules | backend/src/utils/validation.js:85-94 | the name's rules pass exactly for 2 to 100 UTF-16 units |
| Validation.TenantNameFieldAccepts | backend/src/utils/validation.js:85-94 | the tenant name is accepted exactly when its trimmed form has 2 to 100 UTF-16 units |
| Validation.PlanFieldAccepts | backend/src/utils/validation.js:95-100 | the plan is accepted exactly when absent, "free" or "pro" |
| Validation.PageFieldAccepts | backend/src/utils/validation.js:105-112 | the page is accepted exactly when absent or a whole number of at least 1 |
| Validation.LimitFieldAccepts | backend/src/utils/validation.js:113-122 | the limit is accepted exactly when absent or a whole number from 1 to 100 |
| Validation.ValidateNoteInput | backend/src/utils/validation.js:22-40 | valid exactly when the title and content are acceptable and no other key is present |
| Validation.ValidateLoginInput | backend/src/utils/validation.js:4-19 | valid exactly when the e-mail and password are acceptable and no other key is present |
| Validation.ValidateUserInviteInput | backend/src/utils/validation.js:43-57 | valid exactly when the e-mail is acceptable, the role absent or admin/member, and no other key present; the value's role defaults to "member" |
| Validation.InviteOutput | backend/src/utils/validation.js:51-56 | a valid invite's role is the given one, or "member" |
| Validation.ValidateUserRoleUpdate | backend/src/utils/validation.js:60-68 | valid exactly when the role is admin or member and it is the only key |
| Validation.ValidateTenantInput | backend/src/utils/validation.js:71-101 | valid exactly when slug, name and plan are acceptable and no other key is present; the value's slug is lower-cased and its plan defaults to "free" |
| Validation.TenantValidIff | backend/src/utils/validation.js:71-101 | the tenant schema accepts exactly the objects with acceptable slug, name and plan and no other key |
| Validation.TenantSlugOutput | backend/src/utils/validation.js:72-74 | a valid tenant object's slug is the given one, lower-cased |
| Validation.TenantPlanOutput | backend/src/utils/validation.js:95-97 | a valid tenant object's plan is the given one, or "free" |
| Validation.ValidatePaginationInput | backend/src/utils/validation.js:104-123 | valid exactly when page and limit are acceptable and no other key is present; the value holds page (default 1) and limit (default 20) as integers |
| Validation.PaginationOutput | backend/src/utils/validation.js:104-123 | a valid query's page and limit are the numbers given, or 1 and 20 |
| Validation.PageValue | backend/src/utils/validation.js:105-108 | an accepted page is the whole number given, or 1 |
| Validation.LimitValue | backend/src/utils/validation.js:113-117 | an accepted limit is the whole number given, or 20 |
| Validation.FirstFieldRejects | backend/src/utils/validation.js:157-162 | when the first declared field rejects, its key and message are the answer, whatever follows |
| Validation.TitleRulesOutcome | backend/src/utils/validation.js:24-30 | after trimming, a non-empty title fails only the 200-unit maximum |
| Validation.StringFieldOutcome | backend/src/utils/validation.js:5-101 | a given value of a string field is refused as not a string, as empty, or by its first failing rule, and is otherwise accepted converted |
| Validation.TitleFieldOutcome | backend/src/utils/validation.js:23-32 | the title never fails with `string.min`: a blank title is refused as empty instead |
| Validation.TitleMessageTexts | backend/src/utils/validation.js:28-32 | the required and maximum messages are the custom ones; the empty message is Joi's default |
| Validation.NoteTitleMessages | backend/src/utils/validation.js:22-32 | a missing title reads "Title is required", a blank one Joi's "is not allowed to be empty", a long one "Title cannot exceed 200 characters" |
| Validation.AstralTitleTooLong | backend/src/utils/validation.js:26-30 | a title of 101 characters outside the Basic Multilingual Plane is 202 UTF-16 units, and is refused as exceeding 200 |
| Validation.ValidateBody | backend/src/utils/validation.js:155-173 | a valid body is replaced by its converted value and the chain goes on; otherwise 400 "Validation Error" with the first error, and the body is left |
| Validation.ValidateQuery | backend/src/utils/validation.js:176-194 | the same on the query, answering 400 "Query Validation Error" |
| Validation.SanitizeEmail | backend/src/utils/validation.js:197-199 | the result is lower-case and trimmed; nothing gives "" |
| Validation.SanitizeEmailIdempotent | backend/src/utils/validation.js:197-199 | sanitising an e-mail twice gives the same as once |
| Validation.SanitizeString | backend/src/utils/validation.js:201-203 | a given string comes back as its `trim()`, trimmed and no longer than the input; nothing gives "" |
| Validation.SanitizeStringIdempotent | backend/src/utils/validation.js:201-203 | sanitising a string twice gives the same as once |
| ErrorMapper.MapError | backend/src/app.js:79-116 | every mapped error answers 400, 401 or 500 with a plain error body |
| ErrorMapper.MapErrorStatus | backend/src/app.js:82-116 | 400 exactly for validation errors and ObjectId cast errors, 401 exactly for the two token errors, 500 for everything else |
| ErrorMapper.CastErrorOtherKind | backend/src/app.js:103-116 | a cast error of any kind other than ObjectId is a 500 |
| ErrorMapper.InternalMessageHidden | backend/src/app.js:110-115 | a 500's own message is shown exactly when not in production |
| ErrorMapper.MessageLeaksOnly | backend/src/app.js:82-115 | only validation errors, and internal errors outside production, pass the error's message on; in production nothing else depends on it |
| ErrorMapper.NotFound | backend/src/app.js:119-124 | 404 "Not Found" with the message `Route <url> not found` around the original URL |
| Routes.Mounted | backend/src/app.js:62-66 | a router is mounted exactly under health, auth, notes, tenants and users |
| Routes.Resolve | backend/src/app.js:62-66 | a mounted path runs its router's own middleware; an unmounted one runs none; an unmatched route adds no route middleware |
| Routes.Dispatch | backend/src/app.js:62-124 | a handler is reached only when the route resolves to it; with no middleware the route's handler is reached, or the 404 when there is none |
| Routes.RunGuardsCons | backend/src/routes/notes.js:8-10 | middleware runs in order and the first that answers ends the chain |
| Routes.NotesChain | backend/src/routes/notes.js:8-10 | a refused token answers at once; an accepted one goes on with `req.user` set and the caller's tenant as `req.tenant_id` |
| Routes.UsersChain | backend/src/routes/users.js:10-12 | as the notes chain, but a member is stopped with 403 |
| Routes.TenantsChain | backend/src/routes/tenants.js:8-9 | a refused token answers at once; any authenticated caller goes on scoped to its tenant |
| Routes.AdminRoute | backend/src/routes/tenants.js:13-14 | the route's admin check passes exactly for admins, answers 403 otherwise, and leaves the request as it was |
| Routes.ProtectedRouteGuards | backend/src/routes/tenants.js:12-14 | only the tenant routes add route middleware, and then only the admin check |
| Routes.ProtectedNeedsToken | backend/src/routes/notes.js:8 | on the notes, users and tenants routers a refused token is the answer, whatever the path |
| Routes.ProtectedHandlersIsolated | backend/src/routes/notes.js:8-10 | every handler reached through a protected router sees the authenticated caller and its tenant as `req.tenant_id` |
| Routes.ProtectedCallerStored | backend/src/routes/notes.js:8-10 | the caller those handlers see is a stored user in its stored tenant |
| Routes.NotesEndpoints | backend/src/routes/notes.js:13-17 | the notes router serves exactly POST and GET on the collection and GET, PUT and DELETE on one id |
| Routes.NotesAccess | backend/src/routes/notes.js:8-17 | a notes endpoint is reached exactly by an authenticated caller, member or admin |
| Routes.UsersEndpoints | backend/src/routes/users.js:15-18 | the users router serves exactly invite, list, role change and removal |
| Routes.UsersAccess | backend/src/routes/users.js:10-18 | a users endpoint is reached exactly by an authenticated admin; a member gets 403 |
| Routes.TenantsRoutes | backend/src/routes/tenants.js:12-14 | any authenticated caller reaches the tenant info; only admins reach upgrade and stats, others get 403 |
| Routes.AuthRoutes | backend/src/routes/auth.js:8-13 | login and logout are reached without a token; profile and verify only with an accepted one, otherwise the refusal is the answer |
| Routes.UnmountedNotFound | backend/src/app.js:119-124 | a path under no mount point, or a non-GET on the root, is a 404 |
| Routes.UnmatchedNotFound | backend/src/app.js:119-124 | below a protected router, a path no route takes is a 404 once its middleware has passed |
| Routes.RunChain | backend/src/routes/notes.js:8-10 | running the middleware on the request object leaves `req.user` and `req.tenant_id` as `RunGuards` says |
| Routes.Serve | backend/src/app.js:62-124 | on a fresh request, the application's outcome is `Dispatch` on the token check against the current store |
| DatabaseUtils.SeedTenantsValid | backend/src/utils/database.js:31-47 | both demo tenants meet the tenant schema |
| DatabaseUtils.SeedEmailMatches | backend/src/utils/database.js:49-54 | a plain `local@domain.tld` address of lower-case letters and dots passes the e-mail pattern and is already normalised |
| DatabaseUtils.SeedUsersAccepted | backend/src/utils/database.js:49-65 | every demo user's address and password pass the user schema, so no save fails |
| DatabaseUtils.SeedEmailsDistinct | backend/src/utils/database.js:49-54 | the four demo addresses are all different |
| DatabaseUtils.EnsureTenant | backend/src/utils/database.js:31-47 | a tenant with the slug is found, or a free one is appended; users and notes are unchanged |
| DatabaseUtils.SeedRecordIsCreated | backend/src/utils/database.js:59-65 | saving a demo user stores its address and its password hashed by the save hook |
| DatabaseUtils.EnsureUserAppends | backend/src/utils/database.js:56-66 | one pass appends at most one user and changes nothing else |
| DatabaseUtils.SeedUsersAppends | backend/src/utils/database.js:56-67 | the user loop only appends users; tenants and notes stay |
| DatabaseUtils.EnsureUserPresent | backend/src/utils/database.js:57-66 | after one pass a user with the address exists |
| DatabaseUtils.EnsureUserFound | backend/src/utils/database.js:57-58 | a pass whose address is already taken, in any tenant, changes nothing |
| DatabaseUtils.SeedUsersPresent | backend/src/utils/database.js:56-67 | after the loop every listed address has a user |
| DatabaseUtils.SeedUsersFound | backend/src/utils/database.js:56-67 | when every listed address already has a user, the loop changes nothing |
| DatabaseUtils.FindSlugAfterOther | backend/src/utils/database.js:40 | adding a tenant with another slug does not change what a slug lookup finds |
| DatabaseUtils.SeedTenantsCreate | backend/src/utils/database.js:31-47 | `acme` and `globex` are appended, free, exactly when missing, and both are found afterwards |
| DatabaseUtils.SeedCreates | backend/src/utils/database.js:28-70 | seeding adds the missing demo tenants, only appends users, never touches notes, and leaves a user for each demo address |
| DatabaseUtils.SeedIdempotent | backend/src/utils/database.js:28-70 | seeding a second time, with any new ids and clock, changes nothing |
| DatabaseUtils.EnsureTenantKeepsValid | backend/src/utils/database.js:31-47 | finding the slug's tenant, or creating a valid one under a fresh id, keeps every store invariant |
| DatabaseUtils.EnsureTenantKeepsFresh | backend/src/utils/database.js:31-47 | another id stays fresh after a tenant step |
| DatabaseUtils.SeedTenantsKeepValid | backend/src/utils/database.js:31-47 | the two tenant steps under distinct fresh ids keep every store invariant |
| DatabaseUtils.SeedUsersKeepValid | backend/src/utils/database.js:56-67 | the user loop with accepted entries and distinct unused ids keeps every store invariant, and every user it adds carries one of its ids |
| DatabaseUtils.SeedKeepsValid | backend/src/utils/database.js:28-70 | seeding a valid store under fresh, distinct ids leaves a valid store |
| DatabaseUtils.SeedEmptyValid | backend/src/utils/database.js:28-70 | seeding the empty store a new `Database` holds, under distinct ids, leaves a valid store |
| DatabaseUtils.EnsureUserKeepsTimeOrder | backend/src/utils/database.js:57-66 | one pass stamps its user at `now` and keeps the creation-time order |
| DatabaseUtils.SeedUsersKeepTimeOrder | backend/src/utils/database.js:56-67 | the user loop keeps the creation-time order |
| DatabaseUtils.SeedKeepsTimeOrder | backend/src/utils/database.js:28-70 | seeding at a time no earlier than any stored record keeps the creation-time order |
| DatabaseUtils.SeedOneUser | backend/src/utils/database.js:57-66 | one pass on the store leaves it as `EnsureUser` says |
| DatabaseUtils.Seed | backend/src/utils/database.js:28-70 | `seedDatabase` on the store leaves it as `SeedSpec` says |
| DatabaseUtils.SeedUserLoop | backend/src/utils/database.js:56-67 | the loop on the store leaves it as `SeedUsersSpec` after all entries |
| DatabaseUtils.DatabaseStatus | backend/src/utils/database.js:86-95 | "unknown" exactly for a ready state outside 0 to 3 |
| DatabaseUtils.DatabaseStatusDistinct | backend/src/utils/database.js:87-92 | different known states have different names |
| Store.FirstIndex | backend/src/controllers/notes.js:116 | the index found holds the first element that matches; none is found exactly when nothing matches |
| Store.Filter | backend/src/controllers/notes.js:64 | a query's result is no longer than the collection |
| Store.FilterMembers | backend/src/controllers/notes.js:64 | a query returns exactly the stored records that match it |
| Store.FilterConcat | backend/src/controllers/notes.js:64 | the matches of two parts of the collection are the matches of each, in order |
| Store.FilterCountMono | backend/src/controllers/tenants.js:144-194 | a stricter query counts no more records |
| Store.FilterFilter | backend/src/controllers/tenants.js:144-194 | filtering a tenant's records again by a stricter condition is filtering the collection by it |
| Store.FirstIndexFilter | backend/src/controllers/auth.js:39 | `findOne` finds nothing exactly when `find` returns nothing, and otherwise finds the first of its results |
| Store.FilterEmpty | backend/src/controllers/notes.js:64 | when nothing matches, the query returns nothing |
| Store.FilterFirst | backend/src/controllers/notes.js:64 | the first matching record heads the query's result |
| Store.FilterUpdateCount | backend/src/controllers/notes.js:172-180 | an update that keeps whether a record matches keeps the count of matches |
| Store.FilterUpdateOther | backend/src/controllers/notes.js:172-180 | updating a record that matches neither before nor after leaves the query's result |
| Store.Remove | backend/src/controllers/notes.js:227 | deleting one record leaves the others, in order |
| Store.FilterRemove | backend/src/controllers/notes.js:227 | deleting a record lowers the count of matches by one exactly when it matched, and leaves the result when it did not |
| Store.Reverse | backend/src/controllers/notes.js:66 | reversal keeps the length and reads the sequence back to front |
| Store.Paginate | backend/src/controllers/notes.js:61-68 | a page holds at most `limit` records, the ones after the skipped `(page - 1) * limit`, in order, and is full unless the results run out |
| Store.NewestPageAt | backend/src/controllers/notes.js:61-68 | each entry of a page of the newest-first order is the stored record at the mirrored position |
| Store.CeilDiv | backend/src/controllers/notes.js:89 | the page count is the least whole number of pages holding all records |
| Store.FindTenant | backend/src/controllers/tenants.js:19 | a tenant is found only when stored with that id, and none exactly when no stored tenant has it |
| Store.TenantIndexAfterUpdate | backend/src/controllers/tenants.js:37-46 | after an update that keeps the id, the same record is found by it |
| Store.FindTenantBySlug | backend/src/utils/database.js:31 | a tenant is found only when stored with that slug, and none exactly when no stored tenant has it |
| Store.FindUser | backend/src/middleware/auth.js:22 | a user is found only when stored with that id, and none exactly when no stored user has it |
| Store.FindTenantUserByEmail | backend/src/controllers/users.js:22-25 | a user is found only with that tenant and address, and none exactly when the pair is unused |
| Store.TenantNoteIndexHit | backend/src/controllers/notes.js:116 | a stored note is found by its own id and tenant |
| Store.FormatNote | backend/src/controllers/notes.js:74-81 | the formatted note carries the stored note's id, title, content and times, and its author's address as `AuthorEmail` gives it |
| Store.AuthorEmail | backend/src/controllers/notes.js:80 | the author shown is never empty: the address of a stored user with the note's `user_id`, or "Unknown", which it always is when no such user exists |
| Store.CallerFor | backend/src/middleware/auth.js:33-41 | `req.user` takes the user's id, address and role and the tenant's id, slug, name and plan |
| Store.CallerUser | backend/src/middleware/auth.js:22-41 | an authenticated caller has its own stored record with the same id, tenant, address and role |
| Store.TenantNotesAppend | backend/src/controllers/notes.js:34-40 | a new note joins its own tenant's notes at the end, and no other tenant's |
| Store.CallerTenant | backend/src/middleware/auth.js:37-40 | the caller's plan, slug and name are the stored tenant's |
| Store.FindTenantUnique | backend/src/models/Tenant.js:4-26 | with unique ids, the tenant found by an id is the stored one |
| Store.FindUserUnique | backend/src/models/User.js:4-36 | with unique ids, the user found by an id is the stored one |
| Store.NoteIdUnique | backend/src/models/Note.js:4-29 | two stored notes with the same id are the same note |
| Store.AppendNoteKeepsValid | backend/src/controllers/notes.js:20-40 | a valid new note under the free quota keeps every store invariant, the quota included |
| Store.ReplaceNoteKeepsValid | backend/src/controllers/notes.js:172-180 | a valid edit keeping the note's id and tenant keeps every store invariant |
| Store.RemoveNoteKeepsNotesOk | backend/src/controllers/notes.js:227 | deleting a note keeps the note ids distinct and every note valid |
| Store.RemoveNoteKeepsValid | backend/src/controllers/notes.js:227 | deleting a note keeps every store invariant |
| Store.ReplaceTenantKeepsValid | backend/src/controllers/tenants.js:37-43 | changing only a tenant's plan, to pro or unchanged, keeps every store invariant |
| Store.AppendUserKeepsValid | backend/src/models/User.js:38-39 | a valid new user with a new id and an address unused in its tenant keeps every store invariant |
| Store.ReplaceUserKeepsValid | backend/src/controllers/users.js:137-148 | changing a user while keeping its id, tenant and address keeps every store invariant |
| Store.RemoveUserKeepsValid | backend/src/controllers/users.js:187-197 | deleting a user keeps every store invariant |
| Store.Database.constructor | backend/src/utils/database.js:28-30 | a new store holds no tenants, users or notes |
| Store.CountTenantNotes | backend/src/controllers/notes.js:22 | counting a tenant's notes one by one gives the number of its notes |
| Store.NewestFirstSorted | backend/src/controllers/notes.js:66 | when creation times follow insertion order, the newest-first order is sorted by `created_at` descending |
| Store.FilterAscending | backend/src/controllers/notes.js:64-66 | a query keeps the creation-time order of what it returns |
| Store.TenantNotesAscending | backend/src/controllers/notes.js:64-66 | a tenant's notes are in creation-time order when all notes are |
| Store.TenantUsersAscending | backend/src/controllers/users.js:77-79 | a tenant's users are in creation-time order when all users are |
| Store.AppendAscending | backend/src/models/Note.js:29 | appending a record no older than any stored one keeps the creation-time order |
| Store.RemoveAscending | backend/src/controllers/notes.js:227 | deleting a record keeps the creation-time order of the others |
| Permissions.HasRoleMeaning | frontend/src/utils/permissions.js:3-6 | for a non-empty role: true exactly when there is a user with that role |
| Permissions.AdminOnlyActions | frontend/src/utils/permissions.js:8-26 | upgrade, stats and user management are allowed exactly for admins; `isMember` exactly for members; nobody is both |
| Permissions.CanCreateNoteCases | frontend/src/utils/permissions.js:28-36 | no user may never create; a pro user always may; any other plan may exactly below 3 notes; a missing count counts as 0 |
| Permissions.CanCreateNoteMatchesLimit | frontend/src/utils/permissions.js:28-36 | for a known plan the client allows creation exactly when the server's note limit is absent or not yet reached |
| Permissions.CanEditNoteMeaning | frontend/src/utils/permissions.js:38-43 | edit is allowed exactly with a user and a note, to the note's owner or an admin |
| Permissions.CanDeleteIsCanEdit | frontend/src/utils/permissions.js:45-50 | delete is allowed exactly when edit is |
| ClientValidators.LimitMessagesQuoteLimits | frontend/src/utils/validators.js:15-28 | the length messages quote the shared limits 200 and 10000 |
| ClientValidators.ValidateEmail | frontend/src/utils/validators.js:3-7 | an address is accepted only when it matches the e-mail pattern |
| ClientValidators.ValidateEmailCases | frontend/src/utils/validators.js:3-7 | "Email is required" exactly when missing or empty, "Invalid email format" exactly when present and not matching; an accepted address has one `@` and no white space |
| ClientValidators.ValidatePassword | frontend/src/utils/validators.js:9-13 | accepted exactly at 6 UTF-16 units or more; "Password is required" exactly when missing or empty |
| ClientValidators.ValidateNoteTitle | frontend/src/utils/validators.js:15-21 | accepted exactly when not blank and at most 200 UTF-16 units untrimmed; "Title is required" exactly when missing or blank |
| ClientValidators.ValidateNoteContent | frontend/src/utils/validators.js:23-28 | an error exactly for content over 10000 UTF-16 units, with the limit message |
| ClientValidators.FieldError | frontend/src/utils/validators.js:34-45 | a required field missing or blank reads "<field> is required"; an empty value errs exactly when required; messages are never empty |
| ClientValidators.FormErrorsKeys | frontend/src/utils/validators.js:33-46 | a field has an error exactly when one of its rules produced one |
| ClientValidators.FormErrorsValue | frontend/src/utils/validators.js:33-46 | with one rule per field, a field's entry is its rule's message |
| ClientValidators.FormValidIff | frontend/src/utils/validators.js:48-51 | the form is valid exactly when no rule reports an error |
| ClientValidators.ValidateForm | frontend/src/utils/validators.js:30-52 | the loop's errors are `FormErrors`, `isValid` holds exactly when no rule errs, and no message is empty |
| ClientErrors.StatusText | frontend/src/utils/errors.js:10-27 | every status has a non-empty text |
| ClientErrors.GetErrorMessage | frontend/src/utils/errors.js:1-45 | the message shown is never empty |
| ClientErrors.ServerMessageFirst | frontend/src/utils/errors.js:4-7 | a server-supplied message always wins |
| ClientErrors.StatusDecides | frontend/src/utils/errors.js:9-27 | without a server message a status decides the text; an unlisted status reads "Request failed with status <n>" |
| ClientErrors.NoResponseChain | frontend/src/utils/errors.js:29-44 | without a response: the network test, then the timeout code, then the error's own message, then the generic text |
| ClientErrors.HandleApiErrorIgnoresDefault | frontend/src/utils/errors.js:47-51 | the default message never reaches the user; no error gives "An unknown error occurred" |
| ClientServer.UpdateIgnoresOwnerAndRole | backend/src/controllers/notes.js:172-173 | the server's edit and delete answers do not depend on the caller's id or role |
| ClientServer.ServerEditsTenantNote | backend/src/controllers/notes.js:172-227 | any caller of a note's tenant edits it in place and deletes it, with 200 |
| ClientServer.ClientRefusesOthersNote | frontend/src/utils/permissions.js:42 | even on a note object carrying its owner's id, the client offers neither edit nor delete to a member on another user's note |
| ClientServer.MemberEditsOthersNote | frontend/src/utils/permissions.js:42 | a member gets 200 from the server for editing and deleting another user's note, which the client refuses for the same member and note |
| ClientServer.ClientEditsViewOnlyAsAdmin | frontend/src/utils/permissions.js:38-50 | on a note as the list, get and update responses format it (no `user_id`), the client offers edit and delete exactly to admins, so a member is refused even on their own notes |
| ClientServer.CreateRuleAgrees | frontend/src/utils/permissions.js:28-36 | with a valid body, the client offers creation exactly when the server creates the note |
| ClientServer.UpgradedTenantIsPro | backend/src/controllers/tenants.js:37-43 | after a successful upgrade the caller's tenant is pro |
| ClientServer.UpgradeLiftsQuota | backend/src/controllers/notes.js:20-31 | after an upgrade every later caller of the tenant authenticates as pro, and a valid note is always created |
| Http.Get | backend/src/controllers/notes.js:17 | a value is found exactly when the key is present, and it is that key's value |
| Http.Request.constructor | backend/src/middleware/auth.js:9 | a new request holds the header, body and query, and no user or tenant yet |
| Strings.Trim | backend/src/utils/validation.js:202 | the trimmed string is no longer than the input and neither starts nor ends with white space |
| Strings.TrimCutsOnlySpace | backend/src/utils/validation.js:202 | trimming keeps a slice of the input and cuts only white space before and after it |
| Strings.TrimIdempotent | backend/src/utils/validation.js:202 | trimming twice is trimming once |
| Strings.TrimEmptyIff | frontend/src/utils/validators.js:16 | the trimmed string is empty exactly when every character is white space |
| Strings.ToLower | backend/src/utils/validation.js:198 | lower-casing keeps the length and maps each character |
| Strings.ToLowerIsLower | backend/src/utils/validation.js:198 | the lower-cased string has no upper-case letter, and lower-casing again changes nothing |
| Strings.TrimToLower | backend/src/utils/validation.js:198 | trimming and lower-casing commute |
| Strings.NatToString | frontend/src/utils/validators.js:18 | the decimal text of a number is never empty |
| Strings.Utf16Length | frontend/src/utils/validators.js:11 | a string's `length` lies between its number of characters and twice that |
| Strings.Utf16LengthBmp | frontend/src/utils/validators.js:11 | for characters of the Basic Multilingual Plane, `length` is the number of characters |
| Strings.Utf16LengthAstral | frontend/src/utils/validators.js:11 | for characters outside it, `length` is twice the number of characters |

## Left out

- Concurrency: requests run one at a time. The count-then-create race on the note quota (`backend/src/controllers/notes.js:22-34`) is not modelled.
- I/O: logging, the database connection, disconnecting and the signal handlers are not modelled. So are the Express set-up (helmet, CORS, rate limiting, body parsers, the request logger) and `startServer`.
- The health endpoints report process metrics and are not modelled beyond their mount point.
- bcrypt is a deterministic `hash` parameter, so salting is not modelled: two hashes of one password are equal here.
- JWT signing and verification are parameters, and so is token expiry: the payload records `expiresIn`, but `verify` decides when a token has expired.
- `ObjectId.isValid` is modelled as "24 hexadecimal digits". Its 12-byte-string form is not modelled.
- New ids are parameters. `FreshId` states that MongoDB never reuses one.
- Express path matching is exact on segments: case-insensitive matching and trailing slashes are not modelled.
- The statistics' day, week and month start from a fixed time-zone offset. Daylight-saving changes are not modelled.
- JavaScript coercion is modelled only as far as the handlers rely on it. A request value is a string, an integer, a fraction known by its floor, or some other value. `Math.ceil` is integer ceiling division.
- Validation.CoerceNumber: a string with an exponent ("2e0", "1e1") is not read as a number here, so it gets `number.base`; Joi reads it. Joi's `number.unsafe` check is not modelled either: whole numbers beyond 2^53 - 1, and numerals whose printed JavaScript number differs from their own normal form (such as "0.10000000000000001", which prints as 0.1), are read as numbers here, where Joi refuses them as unsafe.
- Validation.PageFieldAccepts: for the reasons above, a page of "2e0" is refused here with "\"page\" must be a number" and accepted by Joi, and a page such as "0.10000000000000001", or one beyond 2^53 - 1, gets a different answer here than Joi's unsafe-number error.
- Validation.LimitFieldAccepts: the same holds for the limit.
- Validation.ValidatePaginationInput: the same holds for both fields.
- NotesController.GetNotesSpec: requires `page` and `limit` of at least 1 when given. The handler does not validate its query (it never uses the pagination schema), so a zero or negative value, which gives a negative `skip`, is not modelled. The defaults are 1 and 50.
- UsersController.GetTenantUsersSpec: requires `page` and `limit` of at least 1 when given, for the same reason. The default limit is 20.
- NotesController.NoteViews: the formatted note does not carry `user_id`, only `created_by_email`.
- DatabaseUtils.EnsureUser: the seed looks the address up as written. Each demo address is already in the form the schema's setters store (`SeedEmailMatches`), so this is the stored form.
- Routes.Serve: requires a fresh request, with no `req.user` and no `req.tenant_id` yet.
- `sanitizeHtml` is not modelled. It relies on look-ahead regular expressions and is never called.
- `validateUserInput` is not modelled. It refers to an undefined `userSchema`, so calling it always throws.
- The React pages, components and hooks, the HTTP services and `frontend/src/utils/storage.js` are not modelled. They are presentation and browser I/O.
- `getDatabaseStatus` also returns the connection's host, port and name. These are not modelled.
- A request body or query with a repeated key is not modelled: `Http.Body` takes its keys to be distinct.
- Strings are sequences of Unicode scalar values. A JavaScript string holding an unpaired surrogate is not modelled.
- Strings.ToLower: lower-cases the ASCII letters A to Z only. JavaScript's `toLowerCase` (and the schemas' `lowercase`) maps every cased character, for example "Ä" to "ä" and the Kelvin sign U+212A to "k". Inputs with other cased characters are not modelled faithfully.
- Strings.ToLowerIsLower: "no upper-case letter" means no ASCII upper-case letter, for the same reason.
- Models.NormalizeEmail: the setter's lower-casing is the ASCII-only `ToLower`. An address with a non-ASCII upper-case letter is stored unchanged here, lower-cased by Mongoose.
- Models.NormalizeEmailIdempotent: holds for the ASCII-only lower-casing.
- Models.NewTenant: the slug's lower-casing is ASCII-only.
- Validation.SanitizeEmail: ASCII-only lower-casing.
- Validation.SanitizeEmailIdempotent: holds for the ASCII-only lower-casing.
- Validation.SlugFieldAccepts: the lower-casing before `alphanum` is ASCII-only. Joi lower-cases first, so a slug holding the Kelvin sign U+212A becomes alphanumeric and is accepted by Joi, but is refused here.
- Validation.TenantSlugOutput: the converted slug is lower-cased on the ASCII letters only.
- UsersController.InviteEmail: the address's `toLowerCase` is ASCII-only.
- AuthController.LoginEmail: the address's `toLowerCase` is ASCII-only, so the lookup key of an address with a non-ASCII upper-case letter differs from JavaScript's.
- NotesController.GetNotesOrder: the page is the reverse of insertion order. It equals `sort({ created_at: -1 })` only while notes are in creation-time order (`GetNotesNewestFirst`, `InTimeOrder`), which holds when the clock never runs backwards (`CreateNoteKeepsTimeOrder`). Notes created in the same millisecond come later-inserted first here, while MongoDB leaves their order unspecified.
- UsersController.GetTenantUsersOrder: the same holds for users (`GetTenantUsersNewestFirst`, `InviteKeepsTimeOrder`, `SeedKeepsTimeOrder`).
- TenantsController.StatsRecent: the same holds for the recent notes (`StatsRecentNewestFirst`).
- The clock `now` is a free parameter of each handler. A clock that runs backwards breaks `InTimeOrder`, and then only the reverse-insertion order is proved.
- UsersController.InviteUserSpec, UsersController.UpdateUserRoleSpec, UsersController.RemoveUserSpec: the corrected handlers of the Findings below. The methods model the code as written (`InviteUserAsWritten`, `UpdateUserRoleAsWritten`, `RemoveUserAsWritten`). Store-invariant lemmas, the invitation's outcome (`InviteCreatesWith`, `InviteDuplicate`) and the removal's effect (`RemoveUserRemovesWith`) are proved for both versions; the self-action guarantees (`UpdateUserRoleNeverSelf`, `RemoveUserRemoves`) and the demo-password log-in (`InviteCreates`) hold for the corrected ones only.

## Findings

| source | as written | input that shows it | evidently intended | confidence | as-written member | corrected member |
|---|---|---|---|---|---|---|
| backend/src/controllers/users.js:129 | the self guard of `updateUserRole` compares the path parameter with the caller's id as text | the caller's own id spelled with upper-case hex digits passes `isValid` and the guard, and the caller's own role is changed | the guard compares the ids the parameter and the caller denote | not executed | UsersController.UpdateUserRoleSelfBypass | UsersController.UpdateUserRoleNeverSelf |
| backend/src/controllers/users.js:179 | the self guard of `removeUser` compares the path parameter with the caller's id as text | the caller's own id spelled with upper-case hex digits removes the caller's own account | the guard compares the ids | not executed | UsersController.RemoveUserSelfBypass | UsersController.RemoveUserRemoves |
| backend/src/controllers/users.js:36-43 | `inviteUser` hashes the demo password and passes the hash to `User.create`, whose save hook hashes it again | any successful invitation: the stored hash is `hash(hash("password"))`, so "password" never logs in | the save hook hashes the plain demo password once | not executed | UsersController.InviteAsWrittenLocksOut | UsersController.InviteCreates |
