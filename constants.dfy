/** The shared constants: roles, plans, the per-plan note limits and the
    validation limits, together with the e-mail pattern
    `^[^\s@]+@[^\s@]+\.[^\s@]+$` that both the client validators and the
    server's user schema use. */
module Constants {
  import opened Wrappers
  import opened Strings

  /** USER_ROLES: exactly `admin` and `member`. */
  datatype Role = Admin | Member

  /** SUBSCRIPTION_PLANS: exactly `free` and `pro`. */
  datatype Plan = Free | Pro

  function RoleName(r: Role): string {
    match r
    case Admin => "admin"
    case Member => "member"
  }

  /** The role a stored or submitted string denotes, if any. */
  function ParseRole(s: string): (r: Option<Role>)
    ensures r.Some? <==> s == "admin" || s == "member"
    ensures r.Some? ==> RoleName(r.value) == s
  {
    if s == "admin" then Some(Admin) else if s == "member" then Some(Member) else None
  }

  lemma RoleRoundTrip(r: Role)
    ensures ParseRole(RoleName(r)) == Some(r)
  {
  }

  function PlanName(p: Plan): string {
    match p
    case Free => "free"
    case Pro => "pro"
  }

  function ParsePlan(s: string): (r: Option<Plan>)
    ensures r.Some? <==> s == "free" || s == "pro"
    ensures r.Some? ==> PlanName(r.value) == s
  {
    if s == "free" then Some(Free) else if s == "pro" then Some(Pro) else None
  }

  /** NOTE_LIMITS.FREE_PLAN. */
  const FreePlanNoteLimit: nat := 3

  /** NOTE_LIMITS by plan: `None` is the client's `null`, meaning unlimited. */
  function NoteLimit(p: Plan): (r: Option<nat>)
    ensures r.Some? <==> p == Free
    ensures r.Some? ==> r.value == FreePlanNoteLimit
  {
    match p
    case Free => Some(FreePlanNoteLimit)
    case Pro => None
  }

  /** VALIDATION_RULES.NOTE_TITLE_MAX_LENGTH. */
  const NoteTitleMaxLength: nat := 200

  /** VALIDATION_RULES.NOTE_CONTENT_MAX_LENGTH. */
  const NoteContentMaxLength: nat := 10000

  /** A character of the regex class `[^\s@]`. */
  predicate EmailChar(c: char) {
    !IsSpace(c) && c != '@'
  }

  predicate AllEmailChars(s: string) {
    forall i :: 0 <= i < |s| ==> EmailChar(s[i])
  }

  /** `[^\s@]+\.[^\s@]+$` on what follows the `@`. */
  predicate EmailDomainMatches(d: string) {
    AllEmailChars(d) && exists k :: 0 < k < |d| - 1 && d[k] == '.'
  }

  /** VALIDATION_RULES.EMAIL_REGEX (and the user model's validator):
      `^[^\s@]+@[^\s@]+\.[^\s@]+$`. */
  predicate EmailPatternMatches(s: string) {
    exists i :: 0 < i < |s| && s[i] == '@' && AllEmailChars(s[..i]) && EmailDomainMatches(s[i + 1..])
  }

  lemma EmailCharsShape(a: string)
    requires AllEmailChars(a)
    ensures CountChar(a, '@') == 0
    ensures forall k :: 0 <= k < |a| ==> !IsSpace(a[k])
  {
    CountCharAbsent(a, '@');
  }

  lemma EmailPatternOneAt(s: string)
    requires EmailPatternMatches(s)
    ensures CountChar(s, '@') == 1
  {
    var i :| 0 < i < |s| && s[i] == '@' && AllEmailChars(s[..i]) && EmailDomainMatches(s[i + 1..]);
    var a, d := s[..i], s[i + 1..];
    assert s == a + ['@'] + d;
    EmailCharsShape(a);
    EmailCharsShape(d);
    CountCharAppend(a + ['@'], d, '@');
    CountCharAppend(a, ['@'], '@');
    assert CountChar(['@'], '@') == 1;
  }

  lemma EmailPatternNoSpace(s: string)
    requires EmailPatternMatches(s)
    ensures forall j :: 0 <= j < |s| ==> !IsSpace(s[j])
  {
    var i :| 0 < i < |s| && s[i] == '@' && AllEmailChars(s[..i]) && EmailDomainMatches(s[i + 1..]);
    forall j | 0 <= j < |s|
      ensures !IsSpace(s[j])
    {
      if j < i {
        assert s[j] == s[..i][j];
      } else if j > i {
        assert s[j] == s[i + 1..][j - i - 1];
      }
    }
  }

  /** Every address the pattern accepts has exactly one `@` and no whitespace. */
  lemma EmailPatternShape(s: string)
    requires EmailPatternMatches(s)
    ensures CountChar(s, '@') == 1
    ensures forall j :: 0 <= j < |s| ==> !IsSpace(s[j])
  {
    EmailPatternOneAt(s);
    EmailPatternNoSpace(s);
  }

  /** The pattern needs at least five characters: `a@b.c`. */
  lemma EmailPatternMinimum(s: string)
    requires EmailPatternMatches(s)
    ensures |s| >= 5
  {
  }
}
