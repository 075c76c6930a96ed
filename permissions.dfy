/** The client's permission predicates, over the user object the client
    keeps after login and the note objects it lists. JavaScript's `null`
    and `undefined` are `None`; an empty string is falsy. */
module Permissions {
  import opened Wrappers
  import opened Constants

  /** The fields of the stored client user the predicates read. */
  datatype ClientUser = ClientUser(id: string, role: string, plan: string)

  /** The field of a note the predicates read: its owner's id, `None` when
      the note object has no `user_id` (the formatted notes the list, get
      and update responses carry). */
  datatype ClientNote = ClientNote(userId: Option<string>)

  /** `hasRole`: false without a user or without a role, otherwise string
      equality. */
  predicate HasRole(user: Option<ClientUser>, role: string) {
    if user.None? || user.value.role == "" then false
    else user.value.role == role
  }

  lemma HasRoleMeaning(user: Option<ClientUser>, role: string)
    requires role != ""
    ensures HasRole(user, role) <==> user.Some? && user.value.role == role
  {
  }

  predicate IsAdmin(user: Option<ClientUser>) {
    HasRole(user, RoleName(Admin))
  }

  predicate IsMember(user: Option<ClientUser>) {
    HasRole(user, RoleName(Member))
  }

  predicate CanUpgradeTenant(user: Option<ClientUser>) {
    IsAdmin(user)
  }

  predicate CanViewTenantStats(user: Option<ClientUser>) {
    IsAdmin(user)
  }

  predicate CanManageUsers(user: Option<ClientUser>) {
    IsAdmin(user)
  }

  /** The three admin-only actions are allowed for exactly the users whose
      role is `admin`, and no user is both admin and member. */
  lemma AdminOnlyActions(user: Option<ClientUser>)
    ensures CanUpgradeTenant(user) <==> user.Some? && user.value.role == "admin"
    ensures CanViewTenantStats(user) == CanUpgradeTenant(user) == CanManageUsers(user)
    ensures IsMember(user) <==> user.Some? && user.value.role == "member"
    ensures !(IsAdmin(user) && IsMember(user))
  {
  }

  /** `canCreateNote(user, noteCount = 0)`: a missing count is 0. */
  predicate CanCreateNote(user: Option<ClientUser>, noteCount: Option<int>) {
    if user.None? then false
    else if user.value.plan == PlanName(Pro) then true
    else noteCount.GetOr(0) < FreePlanNoteLimit
  }

  /** No user may create; a pro user may at any count; any other user
      (free, or a plan the client does not know) may while the count is
      under the free limit. */
  lemma CanCreateNoteCases(user: Option<ClientUser>, noteCount: Option<int>)
    ensures user.None? ==> !CanCreateNote(user, noteCount)
    ensures user.Some? && user.value.plan == "pro" ==> CanCreateNote(user, noteCount)
    ensures user.Some? && user.value.plan != "pro" ==>
              (CanCreateNote(user, noteCount) <==> noteCount.GetOr(0) < 3)
    ensures user.Some? && noteCount.None? ==> CanCreateNote(user, noteCount)
  {
  }

  /** The client's rule agrees with the server's quota for a known plan:
      creation is allowed exactly when `NoteLimit` is unlimited or above
      the count. */
  lemma CanCreateNoteMatchesLimit(user: ClientUser, p: Plan, noteCount: nat)
    requires user.plan == PlanName(p)
    ensures CanCreateNote(Some(user), Some(noteCount)) <==> NoteLimit(p).None? || noteCount < NoteLimit(p).value
  {
  }

  /** `canEditNote`: the owner or an admin. */
  predicate CanEditNote(user: Option<ClientUser>, note: Option<ClientNote>) {
    if user.None? || note.None? then false
    else note.value.userId == Some(user.value.id) || IsAdmin(user)
  }

  /** `canDeleteNote`: the same check, behind its own null guard. */
  predicate CanDeleteNote(user: Option<ClientUser>, note: Option<ClientNote>) {
    if user.None? || note.None? then false
    else CanEditNote(user, note)
  }

  lemma CanEditNoteMeaning(user: Option<ClientUser>, note: Option<ClientNote>)
    ensures CanEditNote(user, note) <==>
              user.Some? && note.Some? && (note.value.userId == Some(user.value.id) || user.value.role == "admin")
  {
  }

  lemma CanDeleteIsCanEdit(user: Option<ClientUser>, note: Option<ClientNote>)
    ensures CanDeleteNote(user, note) == CanEditNote(user, note)
  {
  }
}
