/** The request schemas of the API and the Joi validation they go through
    (convert mode, stop at the first error, unknown keys refused), the two
    middleware that validate a request in place, and the sanitisers. */
module Validation {
  import opened Wrappers
  import opened Strings
  import opened Models
  import opened Http

  datatype Kind = StringKind | NumberKind

  /** One rule of a Joi field, in the order the schema chains them. */
  datatype Rule =
    | TrimRule | LowercaseRule
    | MinRule(limit: int) | MaxRule(limit: int)
    | EmailRule | AlphanumRule | IntegerRule

  /** A Joi field: its key, base type, chained rules, `.required()`,
      `.allow('')`, `.valid(...)` list, `.default(...)` and `.messages({...})`. */
  datatype Field = Field(
    key: string, kind: Kind, rules: seq<Rule>, required: bool, allowEmpty: bool,
    only: seq<string>, default: Option<JsValue>, messages: seq<(Code, string)>)

  type Schema = seq<Field>

  /** Joi's error codes (`any.required`, `string.min`, ...) that these
      schemas can raise. */
  datatype Code =
    | AnyRequired | AnyOnly
    | StringBase | StringEmpty | StringMin | StringMax | StringEmail | StringAlphanum | StringLowercase
    | NumberBase | NumberInteger | NumberMin | NumberMax

  /** A field's outcome: the value it contributes (None when absent without
      default), or the first error code with the rule's limit. */
  datatype Check = Accept(value: Option<JsValue>) | Reject(code: Code, limit: int)

  /** `schema.validate(...)`: the converted object, or the first error's
      key and message. */
  datatype Validated = Valid(value: Body) | Invalid(field: string, message: string)

  // ---------------------------------------------------------------------
  // Conversion and rules

  predicate IsDigit(c: char) { '0' <= c <= '9' }

  predicate IsAlnum(c: char) { 'a' <= c <= 'z' || 'A' <= c <= 'Z' || IsDigit(c) }

  predicate AllDigits(s: string) {
    forall i :: 0 <= i < |s| ==> IsDigit(s[i])
  }

  function DigitsValue(s: string): nat
    requires AllDigits(s)
  {
    if s == [] then 0
    else
      assert IsDigit(s[|s|-1]);
      10 * DigitsValue(s[..|s|-1]) + (s[|s|-1] as int - '0' as int)
  }

  /** The index of the first decimal point, or `|s|` when there is none. */
  function PointIndex(s: string): (r: nat)
    ensures r <= |s|
    ensures r < |s| ==> s[r] == '.'
    ensures forall i :: 0 <= i < r ==> s[i] != '.'
  {
    if s == [] then 0
    else if s[0] == '.' then 0
    else 1 + PointIndex(s[1..])
  }

  /** The digits before the point. */
  function WholeDigits(s: string): string {
    s[..PointIndex(s)]
  }

  /** The digits after the point, empty when there is no point. */
  function FractionDigits(s: string): string {
    var p := PointIndex(s);
    if p < |s| then s[p + 1..] else ""
  }

  /** A decimal numeral without sign or exponent: `d+`, `d+.`, `d+.d+` or `.d+`. */
  predicate IsDecimal(s: string) {
    AllDigits(WholeDigits(s)) && AllDigits(FractionDigits(s))
    && (WholeDigits(s) != "" || FractionDigits(s) != "")
  }

  /** The string without its sign, if it has one. */
  function Unsigned(t: string): string {
    if |t| > 0 && (t[0] == '+' || t[0] == '-') then t[1..] else t
  }

  /** Joi's reading of a string as a number, exponents aside: white space
      around, an optional sign, then a decimal numeral. An integral value
      becomes that integer; any other value becomes the fraction between its
      floor and the next integer. None when the string is no such numeral. */
  function NumericValue(s: string): (r: Option<JsValue>)
    ensures r.Some? ==> r.value.JInt? || r.value.JFraction?
  {
    var t := Trim(s);
    var u := Unsigned(t);
    if !IsDecimal(u) then None
    else
      var n: int := DigitsValue(WholeDigits(u));
      var negative := |t| > 0 && t[0] == '-';
      if forall i :: 0 <= i < |FractionDigits(u)| ==> FractionDigits(u)[i] == '0' then
        Some(JInt(if negative then -n else n))
      else Some(JFraction(if negative then -n - 1 else n))
  }

  /** Conversion before the rules run: strings are lower-cased and then
      trimmed when the field asks for it; a string that reads as a number
      (`NumericValue`) given to a number field becomes that number. */
  function Coerce(f: Field, v: JsValue): JsValue {
    match v
    case JStr(s) =>
      if f.kind == StringKind then
        var cased := if LowercaseRule in f.rules then ToLower(s) else s;
        JStr(if TrimRule in f.rules then Trim(cased) else cased)
      else NumericValue(s).GetOr(v)
    case _ => v
  }

  /** The base type check, after the allowed values were tried. */
  function BaseError(kind: Kind, v: JsValue): Option<Code> {
    match kind
    case StringKind =>
      if !v.JStr? then Some(StringBase)
      else if v.s == "" then Some(StringEmpty)
      else None
    case NumberKind =>
      if v.JInt? || v.JFraction? then None else Some(NumberBase)
  }

  /** One rule on a value that passed the base check. Trim and lowercase
      never fail in convert mode; a fraction between b and b+1 is at least n
      exactly when b >= n and at most n exactly when b < n. */
  function RuleError(r: Rule, v: JsValue, isEmail: string -> bool): Option<(Code, int)> {
    match v
    case JStr(s) =>
      (match r
       case MinRule(n) => if Utf16Length(s) >= n then None else Some((StringMin, n))
       case MaxRule(n) => if Utf16Length(s) <= n then None else Some((StringMax, n))
       case EmailRule => if isEmail(s) then None else Some((StringEmail, 0))
       case AlphanumRule =>
         if forall i :: 0 <= i < |s| ==> IsAlnum(s[i]) then None else Some((StringAlphanum, 0))
       case _ => None)
    case JInt(i) =>
      (match r
       case MinRule(n) => if i >= n then None else Some((NumberMin, n))
       case MaxRule(n) => if i <= n then None else Some((NumberMax, n))
       case _ => None)
    case JFraction(b) =>
      (match r
       case IntegerRule => Some((NumberInteger, 0))
       case MinRule(n) => if b >= n then None else Some((NumberMin, n))
       case MaxRule(n) => if b < n then None else Some((NumberMax, n))
       case _ => None)
    case JOther => None
  }

  /** The first failing rule, in chain order. */
  function FirstRuleError(rules: seq<Rule>, v: JsValue, isEmail: string -> bool): (r: Option<(Code, int)>)
    ensures r.None? <==> forall k :: 0 <= k < |rules| ==> RuleError(rules[k], v, isEmail).None?
  {
    if rules == [] then None
    else match RuleError(rules[0], v, isEmail)
      case Some(e) => Some(e)
      case None =>
        var r := FirstRuleError(rules[1..], v, isEmail);
        assert forall k :: 0 < k < |rules| ==> rules[k] == rules[1..][k-1];
        r
  }

  /** Joi's order for one field: absent (required or default), allowed
      values, `valid` list, base type, then the rules. */
  function ValidateField(f: Field, v: Option<JsValue>, isEmail: string -> bool): Check {
    match v
    case None => if f.required then Reject(AnyRequired, 0) else Accept(f.default)
    case Some(raw) =>
      var c := Coerce(f, raw);
      if c.JStr? && ((f.allowEmpty && c.s == "") || c.s in f.only) then Accept(Some(c))
      else if |f.only| > 0 then Reject(AnyOnly, 0)
      else match BaseError(f.kind, c)
        case Some(code) => Reject(code, 0)
        case None =>
          match FirstRuleError(f.rules, c, isEmail)
          case Some(e) => Reject(e.0, e.1)
          case None => Accept(Some(c))
  }

  // ---------------------------------------------------------------------
  // Messages

  function Label(key: string): string { "\"" + key + "\"" }

  /** Joi's default message templates for the codes these schemas can raise. */
  function DefaultMessage(f: Field, code: Code, limit: int): string {
    var tag := Label(f.key);
    match code
    case AnyRequired => tag + " is required"
    case AnyOnly => tag + (if |f.only| == 1 then " must be [" else " must be one of [") + Join(f.only, ", ") + "]"
    case StringBase => tag + " must be a string"
    case StringEmpty => tag + " is not allowed to be empty"
    case StringMin => tag + " length must be at least " + IntToString(limit) + " characters long"
    case StringMax => tag + " length must be less than or equal to " + IntToString(limit) + " characters long"
    case StringEmail => tag + " must be a valid email"
    case StringAlphanum => tag + " must only contain alpha-numeric characters"
    case StringLowercase => tag + " must only contain lowercase characters"
    case NumberBase => tag + " must be a number"
    case NumberInteger => tag + " must be an integer"
    case NumberMin => tag + " must be greater than or equal to " + IntToString(limit)
    case NumberMax => tag + " must be less than or equal to " + IntToString(limit)
  }

  /** A custom message for the code wins over the default template. */
  function Message(f: Field, code: Code, limit: int): string {
    match Lookup(f.messages, code)
    case Some(m) => m
    case None => DefaultMessage(f, code, limit)
  }

  /** The message registered for `code`, if any. */
  function Lookup(messages: seq<(Code, string)>, code: Code): Option<string> {
    if messages == [] then None
    else if messages[0].0 == code then Some(messages[0].1)
    else Lookup(messages[1..], code)
  }

  // ---------------------------------------------------------------------
  // Objects

  /** The first field of the schema declared under `key`. */
  function FieldFor(schema: Schema, key: string): (r: Option<Field>)
    ensures r.None? <==> forall i :: 0 <= i < |schema| ==> schema[i].key != key
    ensures r.Some? ==> r.value.key == key && exists i :: 0 <= i < |schema| && schema[i] == r.value
  {
    if schema == [] then None
    else if schema[0].key == key then Some(schema[0])
    else
      var r := FieldFor(schema[1..], key);
      assert forall i :: 0 < i < |schema| ==> schema[i] == schema[1..][i-1];
      r
  }

  /** The first failing field from index `i` on, with its message. */
  function FieldError(schema: Schema, body: Body, isEmail: string -> bool, i: nat): Option<(string, string)>
    decreases |schema| - i
  {
    if i >= |schema| then None
    else match ValidateField(schema[i], Get(body, schema[i].key), isEmail)
      case Reject(code, limit) => Some((schema[i].key, Message(schema[i], code, limit)))
      case Accept(_) => FieldError(schema, body, isEmail, i + 1)
  }

  /** The first key of the object that the schema does not declare. */
  function FirstUnknown(schema: Schema, body: Body): (r: Option<string>)
    ensures r.None? <==> forall j :: 0 <= j < |body| ==> FieldFor(schema, body[j].0).Some?
  {
    if body == [] then None
    else if FieldFor(schema, body[0].0).None? then Some(body[0].0)
    else
      var r := FirstUnknown(schema, body[1..]);
      assert forall j :: 0 < j < |body| ==> body[j] == body[1..][j-1];
      r
  }

  /** The value an entry of a valid object ends up with. */
  function OutValue(schema: Schema, body: Body, isEmail: string -> bool, entry: (string, JsValue)): JsValue {
    match FieldFor(schema, entry.0)
    case Some(f) =>
      (match ValidateField(f, Get(body, entry.0), isEmail)
       case Accept(Some(v)) => v
       case _ => entry.1)
    case None => entry.1
  }

  /** Defaults of the fields absent from the object, in schema order. */
  function Defaults(schema: Schema, body: Body): Body {
    if schema == [] then []
    else
      var rest := Defaults(schema[1..], body);
      if Get(body, schema[0].key).None? && schema[0].default.Some? then
        [(schema[0].key, schema[0].default.value)] + rest
      else rest
  }

  /** The converted object: each entry keeps its place with its converted
      value, and defaults are added after it. */
  function Output(schema: Schema, body: Body, isEmail: string -> bool): Body {
    seq(|body|, j requires 0 <= j < |body| => (body[j].0, OutValue(schema, body, isEmail, body[j])))
      + Defaults(schema, body)
  }

  /** `schema.validate(value)`: fields in schema order, then unknown keys. */
  function ValidateObject(schema: Schema, body: Body, isEmail: string -> bool): Validated {
    match FieldError(schema, body, isEmail, 0)
    case Some(e) => Invalid(e.0, e.1)
    case None =>
      match FirstUnknown(schema, body)
      case Some(k) => Invalid(k, Label(k) + " is not allowed")
      case None => Valid(Output(schema, body, isEmail))
  }

  lemma {:induction false} FieldErrorNone(schema: Schema, body: Body, isEmail: string -> bool, i: nat)
    ensures FieldError(schema, body, isEmail, i).None? <==>
            forall k :: i <= k < |schema| ==> ValidateField(schema[k], Get(body, schema[k].key), isEmail).Accept?
    decreases |schema| - i
  {
    if i < |schema| {
      FieldErrorNone(schema, body, isEmail, i + 1);
    }
  }

  /** An object is valid exactly when every declared field accepts its value
      and every key of the object is declared. */
  lemma ValidIff(schema: Schema, body: Body, isEmail: string -> bool)
    ensures ValidateObject(schema, body, isEmail).Valid? <==>
            (forall k :: 0 <= k < |schema| ==> ValidateField(schema[k], Get(body, schema[k].key), isEmail).Accept?)
            && (forall j :: 0 <= j < |body| ==> FieldFor(schema, body[j].0).Some?)
  {
    FieldErrorNone(schema, body, isEmail, 0);
  }

  /** The whole number given, or `d` when absent or not a whole number. */
  function NumberOr(v: Option<JsValue>, d: int): int {
    match v
    case None => d
    case Some(x) => WholeNumber(x).GetOr(d)
  }

  /** Every key of the object is one of `keys`. */
  predicate OnlyKeys(body: Body, keys: set<string>) {
    forall j :: 0 <= j < |body| ==> body[j].0 in keys
  }

  lemma ValidIff1(schema: Schema, body: Body, isEmail: string -> bool)
    requires |schema| == 1
    ensures ValidateObject(schema, body, isEmail).Valid? <==>
            ValidateField(schema[0], Get(body, schema[0].key), isEmail).Accept?
            && OnlyKeys(body, {schema[0].key})
  {
    ValidIff(schema, body, isEmail);
    assert forall k :: FieldFor(schema, k).Some? <==> k == schema[0].key;
  }

  lemma ValidIff2(schema: Schema, body: Body, isEmail: string -> bool)
    requires |schema| == 2
    ensures ValidateObject(schema, body, isEmail).Valid? <==>
            ValidateField(schema[0], Get(body, schema[0].key), isEmail).Accept?
            && ValidateField(schema[1], Get(body, schema[1].key), isEmail).Accept?
            && OnlyKeys(body, {schema[0].key, schema[1].key})
  {
    ValidIff(schema, body, isEmail);
    Declared2(schema, body);
  }

  lemma ValidIff3(schema: Schema, body: Body, isEmail: string -> bool)
    requires |schema| == 3
    ensures ValidateObject(schema, body, isEmail).Valid? <==>
            ValidateField(schema[0], Get(body, schema[0].key), isEmail).Accept?
            && ValidateField(schema[1], Get(body, schema[1].key), isEmail).Accept?
            && ValidateField(schema[2], Get(body, schema[2].key), isEmail).Accept?
            && OnlyKeys(body, {schema[0].key, schema[1].key, schema[2].key})
  {
    ValidIff(schema, body, isEmail);
    Declared3(schema, body);
    Accepted3(schema, body, isEmail);
  }

  /** With two fields, "every key of the object is declared" reads as
      `OnlyKeys` on the two keys. */
  lemma Declared2(schema: Schema, body: Body)
    requires |schema| == 2
    ensures (forall j :: 0 <= j < |body| ==> FieldFor(schema, body[j].0).Some?) <==>
            OnlyKeys(body, {schema[0].key, schema[1].key})
  {
    forall j | 0 <= j < |body|
      ensures FieldFor(schema, body[j].0).Some? <==> body[j].0 in {schema[0].key, schema[1].key}
    {
      Keys2(schema, body[j].0);
    }
  }

  lemma Keys2(schema: Schema, k: string)
    requires |schema| == 2
    ensures FieldFor(schema, k).Some? <==> k == schema[0].key || k == schema[1].key
  {
  }

  lemma Declared3(schema: Schema, body: Body)
    requires |schema| == 3
    ensures (forall j :: 0 <= j < |body| ==> FieldFor(schema, body[j].0).Some?) <==>
            OnlyKeys(body, {schema[0].key, schema[1].key, schema[2].key})
  {
    forall j | 0 <= j < |body|
      ensures FieldFor(schema, body[j].0).Some? <==> body[j].0 in {schema[0].key, schema[1].key, schema[2].key}
    {
      Keys3(schema, body[j].0);
    }
  }

  lemma Accepted3(schema: Schema, body: Body, isEmail: string -> bool)
    requires |schema| == 3
    ensures (forall k :: 0 <= k < |schema| ==> ValidateField(schema[k], Get(body, schema[k].key), isEmail).Accept?) <==>
            ValidateField(schema[0], Get(body, schema[0].key), isEmail).Accept?
            && ValidateField(schema[1], Get(body, schema[1].key), isEmail).Accept?
            && ValidateField(schema[2], Get(body, schema[2].key), isEmail).Accept?
  {
    var (f0, f1, f2) := (schema[0], schema[1], schema[2]);
    var (c0, c1, c2) := (ValidateField(f0, Get(body, f0.key), isEmail), ValidateField(f1, Get(body, f1.key), isEmail),
                         ValidateField(f2, Get(body, f2.key), isEmail));
    if c0.Accept? && c1.Accept? && c2.Accept? {
      forall k | 0 <= k < |schema|
        ensures ValidateField(schema[k], Get(body, schema[k].key), isEmail).Accept?
      {
        assert k == 0 || k == 1 || k == 2;
      }
    }
  }

  lemma Keys3(schema: Schema, k: string)
    requires |schema| == 3
    ensures FieldFor(schema, k).Some? <==> k == schema[0].key || k == schema[1].key || k == schema[2].key
  {
  }

  /** The first error is reported under the key of the first failing field. */
  lemma {:induction false} FieldErrorKey(schema: Schema, body: Body, isEmail: string -> bool, i: nat)
    ensures FieldError(schema, body, isEmail, i).Some? ==>
            exists k :: i <= k < |schema| && FieldError(schema, body, isEmail, i).value.0 == schema[k].key
                        && ValidateField(schema[k], Get(body, schema[k].key), isEmail).Reject?
    decreases |schema| - i
  {
    if i < |schema| {
      FieldErrorKey(schema, body, isEmail, i + 1);
    }
  }

  lemma {:induction false} GetAppend(a: Body, b: Body, key: string)
    ensures Get(a + b, key) == if Get(a, key).Some? then Get(a, key) else Get(b, key)
  {
    if a != [] {
      assert (a + b)[1..] == a[1..] + b;
      GetAppend(a[1..], b, key);
    } else {
      assert a + b == b;
    }
  }

  lemma {:induction false} GetMapped(entries: Body, out: Body, key: string, schema: Schema, body: Body, isEmail: string -> bool)
    requires |out| == |entries|
    requires forall j :: 0 <= j < |entries| ==> out[j] == (entries[j].0, OutValue(schema, body, isEmail, entries[j]))
    ensures Get(entries, key).None? ==> Get(out, key).None?
    ensures Get(entries, key).Some? ==> Get(out, key) == Some(OutValue(schema, body, isEmail, (key, Get(entries, key).value)))
  {
    if entries != [] {
      if entries[0].0 != key {
        GetMapped(entries[1..], out[1..], key, schema, body, isEmail);
      }
    }
  }

  /** No key is declared twice. */
  predicate DistinctKeys(schema: Schema) {
    forall i, k :: 0 <= i < k < |schema| ==> schema[i].key != schema[k].key
  }

  lemma {:induction false} GetDefaults(schema: Schema, body: Body, key: string)
    requires DistinctKeys(schema)
    requires Get(body, key).None?
    ensures Get(Defaults(schema, body), key) == match FieldFor(schema, key) case Some(f) => f.default case None => None
  {
    if schema != [] {
      assert forall i :: 0 < i < |schema| ==> schema[i] == schema[1..][i-1];
      GetDefaults(schema[1..], body, key);
    }
  }

  /** In the converted object, a declared key holds what its field accepted:
      the converted value when given, the default otherwise. */
  lemma GetOutput(schema: Schema, body: Body, isEmail: string -> bool, f: Field)
    requires DistinctKeys(schema)
    requires ValidateObject(schema, body, isEmail).Valid?
    requires FieldFor(schema, f.key) == Some(f)
    ensures ValidateField(f, Get(body, f.key), isEmail).Accept?
    ensures Get(ValidateObject(schema, body, isEmail).value, f.key) == ValidateField(f, Get(body, f.key), isEmail).value
  {
    ValidIff(schema, body, isEmail);
    assert ValidateObject(schema, body, isEmail).value == Output(schema, body, isEmail);
    GetOutputOf(schema, body, isEmail, f);
  }

  /** The same, on the converted object itself, for a field that accepts. */
  lemma GetOutputOf(schema: Schema, body: Body, isEmail: string -> bool, f: Field)
    requires DistinctKeys(schema)
    requires FieldFor(schema, f.key) == Some(f)
    requires ValidateField(f, Get(body, f.key), isEmail).Accept?
    ensures Get(Output(schema, body, isEmail), f.key) == ValidateField(f, Get(body, f.key), isEmail).value
  {
    var mapped := seq(|body|, j requires 0 <= j < |body| => (body[j].0, OutValue(schema, body, isEmail, body[j])));
    assert Output(schema, body, isEmail) == mapped + Defaults(schema, body);
    GetAppend(mapped, Defaults(schema, body), f.key);
    GetMapped(body, mapped, f.key, schema, body, isEmail);
    if Get(body, f.key).None? {
      GetDefaults(schema, body, f.key);
    }
  }

  // ---------------------------------------------------------------------
  // The schemas

  /** A rule-free e-mail test for schemas that have no e-mail field. */
  function NoEmail(s: string): bool { false }

  const EmailMessages: seq<(Code, string)> :=
    [(StringEmail, "Please provide a valid email address"), (AnyRequired, "Email is required")]

  const EmailField: Field :=
    Field("email", StringKind, [EmailRule], true, false, [], None, EmailMessages)

  const PasswordMessages: seq<(Code, string)> :=
    [(StringMin, "Password cannot be empty"), (AnyRequired, "Password is required")]

  const PasswordField: Field :=
    Field("password", StringKind, [MinRule(1)], true, false, [], None, PasswordMessages)

  const LoginSchema: Schema := [EmailField, PasswordField]

  const TitleMessages: seq<(Code, string)> :=
    [(StringMin, "Title cannot be empty"), (StringMax, "Title cannot exceed 200 characters"),
      (AnyRequired, "Title is required")]

  const TitleField: Field :=
    Field("title", StringKind, [TrimRule, MinRule(1), MaxRule(200)], true, false, [], None, TitleMessages)

  const ContentMessages: seq<(Code, string)> :=
    [(StringMax, "Content cannot exceed 10,000 characters")]

  const ContentField: Field :=
    Field("content", StringKind, [MaxRule(10000)], false, true, [], None, ContentMessages)

  const NoteSchema: Schema := [TitleField, ContentField]

  const InviteRoleMessages: seq<(Code, string)> :=
    [(AnyOnly, "Role must be either admin or member")]

  const InviteRoleField: Field :=
    Field("role", StringKind, [], false, false, ["admin", "member"], Some(JStr("member")), InviteRoleMessages)

  const InviteSchema: Schema := [EmailField, InviteRoleField]

  const RoleMessages: seq<(Code, string)> :=
    [(AnyOnly, "Role must be either admin or member"), (AnyRequired, "Role is required")]

  const RoleField: Field :=
    Field("role", StringKind, [], true, false, ["admin", "member"], None,
          RoleMessages)

  const RoleUpdateSchema: Schema := [RoleField]

  const SlugMessages: seq<(Code, string)> :=
    [(StringAlphanum, "Tenant slug can only contain alphanumeric characters"),
      (StringLowercase, "Tenant slug must be lowercase"),
      (StringMin, "Tenant slug must be at least 2 characters long"),
      (StringMax, "Tenant slug cannot exceed 50 characters"),
      (AnyRequired, "Tenant slug is required")]

  const SlugField: Field :=
    Field("slug", StringKind, [AlphanumRule, LowercaseRule, MinRule(2), MaxRule(50)], true, false, [], None, SlugMessages)

  const TenantNameMessages: seq<(Code, string)> :=
    [(StringMin, "Tenant name must be at least 2 characters long"),
      (StringMax, "Tenant name cannot exceed 100 characters"),
      (AnyRequired, "Tenant name is required")]

  const TenantNameField: Field :=
    Field("name", StringKind, [TrimRule, MinRule(2), MaxRule(100)], true, false, [], None, TenantNameMessages)

  const PlanMessages: seq<(Code, string)> :=
    [(AnyOnly, "Subscription plan must be either free or pro")]

  const PlanField: Field :=
    Field("subscription_plan", StringKind, [], false, false, ["free", "pro"], Some(JStr("free")), PlanMessages)

  const TenantSchema: Schema := [SlugField, TenantNameField, PlanField]

  const PageMessages: seq<(Code, string)> :=
    [(NumberInteger, "Page must be an integer"), (NumberMin, "Page must be at least 1")]

  const PageField: Field :=
    Field("page", NumberKind, [IntegerRule, MinRule(1)], false, false, [], Some(JInt(1)), PageMessages)

  const LimitMessages: seq<(Code, string)> :=
    [(NumberInteger, "Limit must be an integer"), (NumberMin, "Limit must be at least 1"),
      (NumberMax, "Limit cannot exceed 100")]

  const LimitField: Field :=
    Field("limit", NumberKind, [IntegerRule, MinRule(1), MaxRule(100)], false, false, [], Some(JInt(20)), LimitMessages)

  const PaginationSchema: Schema := [PageField, LimitField]

  // ---------------------------------------------------------------------
  // What each schema accepts

  /** A whole number given as a JSON integer or as a string that reads as one. */
  function WholeNumber(v: JsValue): Option<int> {
    match v
    case JInt(i) => Some(i)
    case JStr(s) => if NumericValue(s).Some? && NumericValue(s).value.JInt? then Some(NumericValue(s).value.i) else None
    case _ => None
  }

  predicate IsRoleName(s: string) { s == "admin" || s == "member" }

  predicate AllAlnum(s: string) { forall i :: 0 <= i < |s| ==> IsAlnum(s[i]) }

  // What each field accepts, stated on the raw value.

  predicate TitleOk(v: Option<JsValue>) {
    v.Some? && v.value.JStr? && 1 <= Utf16Length(Trim(v.value.s)) <= 200
  }

  predicate ContentOk(v: Option<JsValue>) {
    v.None? || (v.value.JStr? && Utf16Length(v.value.s) <= 10000)
  }

  predicate EmailOk(v: Option<JsValue>, isEmail: string -> bool) {
    v.Some? && v.value.JStr? && v.value.s != "" && isEmail(v.value.s)
  }

  predicate PasswordOk(v: Option<JsValue>) {
    v.Some? && v.value.JStr? && v.value.s != ""
  }

  predicate RoleOk(v: Option<JsValue>) {
    v.Some? && v.value.JStr? && IsRoleName(v.value.s)
  }

  predicate SlugOk(v: Option<JsValue>) {
    v.Some? && v.value.JStr? && 2 <= |v.value.s| <= 50 && AllAlnum(ToLower(v.value.s))
  }

  predicate TenantNameOk(v: Option<JsValue>) {
    v.Some? && v.value.JStr? && 2 <= Utf16Length(Trim(v.value.s)) <= 100
  }

  predicate PlanOk(v: Option<JsValue>) {
    v.None? || (v.value.JStr? && (v.value.s == "free" || v.value.s == "pro"))
  }

  predicate PageOk(v: Option<JsValue>) {
    v.None? || (WholeNumber(v.value).Some? && WholeNumber(v.value).value >= 1)
  }

  predicate LimitOk(v: Option<JsValue>) {
    v.None? || (WholeNumber(v.value).Some? && 1 <= WholeNumber(v.value).value <= 100)
  }

  /** A string field without allowed or listed values accepts a given value
      exactly when it converts to a non-empty string that passes every rule. */
  lemma StringFieldAccepts(f: Field, v: JsValue, isEmail: string -> bool)
    requires f.kind == StringKind && f.only == [] && !f.allowEmpty
    ensures ValidateField(f, Some(v), isEmail).Accept? <==>
            var c := Coerce(f, v);
            c.JStr? && c.s != "" && forall k :: 0 <= k < |f.rules| ==> RuleError(f.rules[k], c, isEmail).None?
  {
  }

  /** A string field with a list of values and no rules accepts a given
      value exactly when it is one of the listed strings. */
  lemma ListedFieldAccepts(f: Field, v: JsValue, isEmail: string -> bool)
    requires f.kind == StringKind && f.only != [] && !f.allowEmpty && f.rules == []
    ensures ValidateField(f, Some(v), isEmail).Accept? <==> v.JStr? && v.s in f.only
  {
  }

  /** A number field without listed values accepts a given value exactly when
      it converts to a number that passes every rule. */
  lemma NumberFieldAccepts(f: Field, v: JsValue)
    requires f.kind == NumberKind && f.only == [] && !f.allowEmpty
    ensures ValidateField(f, Some(v), NoEmail).Accept? <==>
            var c := Coerce(f, v);
            (c.JInt? || c.JFraction?) && forall k :: 0 <= k < |f.rules| ==> RuleError(f.rules[k], c, NoEmail).None?
  {
  }

  /** An accepted value is the converted one; an absent one is the default. */
  lemma AcceptedValue(f: Field, v: Option<JsValue>, isEmail: string -> bool)
    ensures ValidateField(f, v, isEmail).Accept? ==>
            ValidateField(f, v, isEmail).value == if v.Some? then Some(Coerce(f, v.value)) else f.default
  {
  }

  lemma CoerceNumber(f: Field, v: JsValue)
    requires f.kind == NumberKind
    ensures WholeNumber(v).Some? ==> Coerce(f, v) == JInt(WholeNumber(v).value)
    ensures WholeNumber(v).None? ==> !Coerce(f, v).JInt?
    ensures WholeNumber(v).None? && Coerce(f, v) != v ==> v.JStr? && Coerce(f, v).JFraction?
  {
  }

  lemma TitleRules(c: string)
    ensures (forall k :: 0 <= k < |TitleField.rules| ==> RuleError(TitleField.rules[k], JStr(c), NoEmail).None?)
            <==> 1 <= Utf16Length(c) <= 200
  {
    var rules := [TrimRule, MinRule(1), MaxRule(200)];
    assert TitleField.rules == rules;
    assert RuleError(rules[0], JStr(c), NoEmail).None?;
    assert RuleError(rules[1], JStr(c), NoEmail).None? <==> 1 <= Utf16Length(c);
    assert RuleError(rules[2], JStr(c), NoEmail).None? <==> Utf16Length(c) <= 200;
  }

  /** The title field: a string whose trimmed form has 1..200 UTF-16 units. */
  lemma TitleFieldAccepts(v: Option<JsValue>)
    ensures ValidateField(TitleField, v, NoEmail).Accept? <==> TitleOk(v)
  {
    assert TitleField.rules == [TrimRule, MinRule(1), MaxRule(200)];
    if v.Some? {
      StringFieldAccepts(TitleField, v.value, NoEmail);
      if v.value.JStr? {
        var c := Trim(v.value.s);
        assert LowercaseRule !in TitleField.rules && TrimRule in TitleField.rules;
        assert Coerce(TitleField, v.value) == JStr(c);
        TitleRules(c);
      }
    }
  }

  /** The content field: absent, or a string of at most 10000 UTF-16 units,
      the empty string included. */
  lemma ContentFieldAccepts(v: Option<JsValue>)
    ensures ValidateField(ContentField, v, NoEmail).Accept? <==> ContentOk(v)
  {
    assert ContentField.rules == [MaxRule(10000)];
    if v.Some? && v.value.JStr? {
      assert LowercaseRule !in ContentField.rules && TrimRule !in ContentField.rules;
      assert Coerce(ContentField, v.value) == v.value;
      assert RuleError(ContentField.rules[0], v.value, NoEmail).None? <==> Utf16Length(v.value.s) <= 10000;
    }
  }

  lemma EmailFieldAccepts(v: Option<JsValue>, isEmail: string -> bool)
    ensures ValidateField(EmailField, v, isEmail).Accept? <==> EmailOk(v, isEmail)
  {
    assert EmailField.rules == [EmailRule];
    if v.Some? {
      StringFieldAccepts(EmailField, v.value, isEmail);
      if v.value.JStr? {
        assert LowercaseRule !in EmailField.rules && TrimRule !in EmailField.rules;
        assert Coerce(EmailField, v.value) == v.value;
        assert RuleError(EmailField.rules[0], v.value, isEmail).None? <==> isEmail(v.value.s);
      }
    }
  }

  lemma PasswordFieldAccepts(v: Option<JsValue>, isEmail: string -> bool)
    ensures ValidateField(PasswordField, v, isEmail).Accept? <==> PasswordOk(v)
  {
    assert PasswordField.rules == [MinRule(1)];
    if v.Some? {
      StringFieldAccepts(PasswordField, v.value, isEmail);
      if v.value.JStr? {
        assert LowercaseRule !in PasswordField.rules && TrimRule !in PasswordField.rules;
        assert Coerce(PasswordField, v.value) == v.value;
        assert RuleError(PasswordField.rules[0], v.value, isEmail).None? <==> Utf16Length(v.value.s) >= 1;
      }
    }
  }

  /** Both role fields accept exactly admin and member; only the invite one
      may be left out. */
  lemma RoleFieldsAccept(v: Option<JsValue>, isEmail: string -> bool)
    ensures ValidateField(InviteRoleField, v, isEmail).Accept? <==> v.None? || RoleOk(v)
    ensures ValidateField(RoleField, v, isEmail).Accept? <==> RoleOk(v)
  {
    if v.Some? {
      ListedFieldAccepts(InviteRoleField, v.value, isEmail);
      ListedFieldAccepts(RoleField, v.value, isEmail);
    }
  }

  lemma SlugRules(c: string)
    ensures (forall k :: 0 <= k < |SlugField.rules| ==> RuleError(SlugField.rules[k], JStr(c), NoEmail).None?)
            <==> AllAlnum(c) && 2 <= |c| <= 50
  {
    var rules := [AlphanumRule, LowercaseRule, MinRule(2), MaxRule(50)];
    assert SlugField.rules == rules;
    assert RuleError(rules[0], JStr(c), NoEmail).None? <==> AllAlnum(c);
    assert RuleError(rules[1], JStr(c), NoEmail).None?;
    assert RuleError(rules[2], JStr(c), NoEmail).None? <==> 2 <= Utf16Length(c);
    assert RuleError(rules[3], JStr(c), NoEmail).None? <==> Utf16Length(c) <= 50;
    if AllAlnum(c) {
      Utf16LengthBmp(c);
    }
  }

  /** The slug field: lower-cased first, then 2..50 alphanumeric characters. */
  lemma SlugFieldAccepts(v: Option<JsValue>)
    ensures ValidateField(SlugField, v, NoEmail).Accept? <==> SlugOk(v)
  {
    assert SlugField.rules == [AlphanumRule, LowercaseRule, MinRule(2), MaxRule(50)];
    if v.Some? {
      StringFieldAccepts(SlugField, v.value, NoEmail);
      if v.value.JStr? {
        var c := ToLower(v.value.s);
        assert LowercaseRule in SlugField.rules && TrimRule !in SlugField.rules;
        assert Coerce(SlugField, v.value) == JStr(c);
        SlugRules(c);
      }
    }
  }

  lemma TenantNameRules(c: string)
    ensures (forall k :: 0 <= k < |TenantNameField.rules| ==> RuleError(TenantNameField.rules[k], JStr(c), NoEmail).None?)
            <==> 2 <= Utf16Length(c) <= 100
  {
    var rules := [TrimRule, MinRule(2), MaxRule(100)];
    assert TenantNameField.rules == rules;
    assert RuleError(rules[0], JStr(c), NoEmail).None?;
    assert RuleError(rules[1], JStr(c), NoEmail).None? <==> 2 <= Utf16Length(c);
    assert RuleError(rules[2], JStr(c), NoEmail).None? <==> Utf16Length(c) <= 100;
  }

  lemma TenantNameFieldAccepts(v: Option<JsValue>)
    ensures ValidateField(TenantNameField, v, NoEmail).Accept? <==> TenantNameOk(v)
  {
    assert TenantNameField.rules == [TrimRule, MinRule(2), MaxRule(100)];
    if v.Some? {
      StringFieldAccepts(TenantNameField, v.value, NoEmail);
      if v.value.JStr? {
        var c := Trim(v.value.s);
        assert LowercaseRule !in TenantNameField.rules && TrimRule in TenantNameField.rules;
        assert Coerce(TenantNameField, v.value) == JStr(c);
        TenantNameRules(c);
      }
    }
  }

  lemma PlanFieldAccepts(v: Option<JsValue>)
    ensures ValidateField(PlanField, v, NoEmail).Accept? <==> PlanOk(v)
  {
    if v.Some? {
      ListedFieldAccepts(PlanField, v.value, NoEmail);
    }
  }

  lemma PageFieldAccepts(v: Option<JsValue>)
    ensures ValidateField(PageField, v, NoEmail).Accept? <==> PageOk(v)
  {
    var rules := [IntegerRule, MinRule(1)];
    assert PageField.rules == rules;
    if v.Some? {
      NumberFieldAccepts(PageField, v.value);
      CoerceNumber(PageField, v.value);
      var c := Coerce(PageField, v.value);
      if c.JInt? {
        assert RuleError(rules[0], c, NoEmail).None?;
        assert RuleError(rules[1], c, NoEmail).None? <==> c.i >= 1;
      } else if c.JFraction? {
        assert RuleError(rules[0], c, NoEmail).Some?;
      }
    }
  }

  lemma LimitFieldAccepts(v: Option<JsValue>)
    ensures ValidateField(LimitField, v, NoEmail).Accept? <==> LimitOk(v)
  {
    var rules := [IntegerRule, MinRule(1), MaxRule(100)];
    assert LimitField.rules == rules;
    if v.Some? {
      NumberFieldAccepts(LimitField, v.value);
      CoerceNumber(LimitField, v.value);
      var c := Coerce(LimitField, v.value);
      if c.JInt? {
        assert RuleError(rules[0], c, NoEmail).None?;
        assert RuleError(rules[1], c, NoEmail).None? <==> c.i >= 1;
        assert RuleError(rules[2], c, NoEmail).None? <==> c.i <= 100;
      } else if c.JFraction? {
        assert RuleError(rules[0], c, NoEmail).Some?;
      }
    }
  }

  // ---------------------------------------------------------------------
  // The validation helpers

  /** `validateNoteInput`: valid exactly when the title's trimmed form has
      1..200 UTF-16 units, content is absent or a string of at most 10000
      UTF-16 units, and no other key is present. */
  function ValidateNoteInput(body: Body): (r: Validated)
    ensures r.Valid? <==> TitleOk(Get(body, "title")) && ContentOk(Get(body, "content")) && OnlyKeys(body, {"title", "content"})
  {
    ValidIff2(NoteSchema, body, NoEmail);
    TitleFieldAccepts(Get(body, "title"));
    ContentFieldAccepts(Get(body, "content"));
    ValidateObject(NoteSchema, body, NoEmail)
  }

  /** `validateLoginInput`: a non-empty e-mail passing the e-mail grammar, a
      non-empty password, no other key. */
  function ValidateLoginInput(body: Body, isEmail: string -> bool): (r: Validated)
    ensures r.Valid? <==> EmailOk(Get(body, "email"), isEmail) && PasswordOk(Get(body, "password")) && OnlyKeys(body, {"email", "password"})
  {
    ValidIff2(LoginSchema, body, isEmail);
    EmailFieldAccepts(Get(body, "email"), isEmail);
    PasswordFieldAccepts(Get(body, "password"), isEmail);
    ValidateObject(LoginSchema, body, isEmail)
  }

  /** `validateUserInviteInput`: an e-mail as for login, a role absent or
      admin or member, no other key; a valid result carries the role,
      `member` when none was given. */
  function ValidateUserInviteInput(body: Body, isEmail: string -> bool): (r: Validated)
    ensures r.Valid? <==> EmailOk(Get(body, "email"), isEmail) && (Get(body, "role").None? || RoleOk(Get(body, "role")))
                          && OnlyKeys(body, {"email", "role"})
    ensures r.Valid? ==> Get(r.value, "role") == Some(JStr(GetString(body, "role").GetOr("member")))
  {
    ValidIff2(InviteSchema, body, isEmail);
    EmailFieldAccepts(Get(body, "email"), isEmail);
    RoleFieldsAccept(Get(body, "role"), isEmail);
    InviteOutput(body, isEmail);
    ValidateObject(InviteSchema, body, isEmail)
  }

  lemma InviteOutput(body: Body, isEmail: string -> bool)
    ensures var r := ValidateObject(InviteSchema, body, isEmail);
            r.Valid? ==> Get(r.value, "role") == Some(JStr(GetString(body, "role").GetOr("member")))
  {
    RoleFieldsAccept(Get(body, "role"), isEmail);
    if ValidateObject(InviteSchema, body, isEmail).Valid? {
      assert DistinctKeys(InviteSchema);
      assert FieldFor(InviteSchema, "role") == Some(InviteRoleField);
      GetOutput(InviteSchema, body, isEmail, InviteRoleField);
    }
  }

  /** `validateUserRoleUpdate`: the role is required and must be admin or member. */
  function ValidateUserRoleUpdate(body: Body): (r: Validated)
    ensures r.Valid? <==> RoleOk(Get(body, "role")) && OnlyKeys(body, {"role"})
  {
    ValidIff1(RoleUpdateSchema, body, NoEmail);
    RoleFieldsAccept(Get(body, "role"), NoEmail);
    ValidateObject(RoleUpdateSchema, body, NoEmail)
  }

  /** `validateTenantInput`: slug, name and plan as their fields accept, no
      other key; a valid result carries the slug lower-cased and the plan,
      `free` when none was given. */
  function ValidateTenantInput(body: Body): (r: Validated)
    ensures r.Valid? <==> SlugOk(Get(body, "slug")) && TenantNameOk(Get(body, "name")) && PlanOk(Get(body, "subscription_plan"))
                          && OnlyKeys(body, {"slug", "name", "subscription_plan"})
    ensures r.Valid? ==> Get(r.value, "slug") == Some(JStr(ToLower(GetString(body, "slug").GetOr(""))))
    ensures r.Valid? ==> Get(r.value, "subscription_plan") == Some(JStr(GetString(body, "subscription_plan").GetOr("free")))
  {
    TenantValidIff(body);
    TenantSlugOutput(body);
    TenantPlanOutput(body);
    ValidateObject(TenantSchema, body, NoEmail)
  }

  lemma TenantValidIff(body: Body)
    ensures ValidateObject(TenantSchema, body, NoEmail).Valid? <==>
            SlugOk(Get(body, "slug")) && TenantNameOk(Get(body, "name")) && PlanOk(Get(body, "subscription_plan"))
            && OnlyKeys(body, {"slug", "name", "subscription_plan"})
  {
    ValidIff3(TenantSchema, body, NoEmail);
    SlugFieldAccepts(Get(body, "slug"));
    TenantNameFieldAccepts(Get(body, "name"));
    PlanFieldAccepts(Get(body, "subscription_plan"));
  }

  lemma TenantFields()
    ensures DistinctKeys(TenantSchema)
    ensures FieldFor(TenantSchema, "slug") == Some(SlugField)
    ensures FieldFor(TenantSchema, "subscription_plan") == Some(PlanField)
  {
    var rest := TenantSchema[1..];
    assert rest == [TenantNameField, PlanField];
    assert rest[1..] == [PlanField];
    assert FieldFor(rest[1..], "subscription_plan") == Some(PlanField);
    assert FieldFor(rest, "subscription_plan") == Some(PlanField);
  }

  lemma TenantSlugOutput(body: Body)
    ensures var r := ValidateObject(TenantSchema, body, NoEmail);
            r.Valid? ==> Get(r.value, "slug") == Some(JStr(ToLower(GetString(body, "slug").GetOr(""))))
  {
    if ValidateObject(TenantSchema, body, NoEmail).Valid? {
      TenantFields();
      GetOutput(TenantSchema, body, NoEmail, SlugField);
      SlugValue(body);
    }
  }

  /** The slug field accepts a string and keeps it lower-cased. */
  lemma SlugValue(body: Body)
    requires ValidateField(SlugField, Get(body, "slug"), NoEmail).Accept?
    ensures ValidateField(SlugField, Get(body, "slug"), NoEmail).value == Some(JStr(ToLower(GetString(body, "slug").GetOr(""))))
  {
    AcceptedValue(SlugField, Get(body, "slug"), NoEmail);
    assert LowercaseRule in SlugField.rules && TrimRule !in SlugField.rules;
  }

  lemma TenantPlanOutput(body: Body)
    ensures var r := ValidateObject(TenantSchema, body, NoEmail);
            r.Valid? ==> Get(r.value, "subscription_plan") == Some(JStr(GetString(body, "subscription_plan").GetOr("free")))
  {
    if ValidateObject(TenantSchema, body, NoEmail).Valid? {
      TenantFields();
      GetOutput(TenantSchema, body, NoEmail, PlanField);
      AcceptedValue(PlanField, Get(body, "subscription_plan"), NoEmail);
      PlanFieldAccepts(Get(body, "subscription_plan"));
      assert TrimRule !in PlanField.rules && LowercaseRule !in PlanField.rules;
    }
  }

  /** `validatePaginationInput`: page absent or a whole number of at least 1,
      limit absent or a whole number in 1..100, no other key; a valid result
      holds both as integers, 1 and 20 when not given. */
  function ValidatePaginationInput(query: Body): (r: Validated)
    ensures r.Valid? <==> PageOk(Get(query, "page")) && LimitOk(Get(query, "limit")) && OnlyKeys(query, {"page", "limit"})
    ensures r.Valid? ==> Get(r.value, "page") == Some(JInt(NumberOr(Get(query, "page"), 1)))
    ensures r.Valid? ==> Get(r.value, "limit") == Some(JInt(NumberOr(Get(query, "limit"), 20)))
  {
    ValidIff2(PaginationSchema, query, NoEmail);
    PageFieldAccepts(Get(query, "page"));
    LimitFieldAccepts(Get(query, "limit"));
    PaginationOutput(query);
    ValidateObject(PaginationSchema, query, NoEmail)
  }

  lemma PaginationOutput(query: Body)
    ensures var r := ValidateObject(PaginationSchema, query, NoEmail);
            r.Valid? ==>
              && Get(r.value, "page") == Some(JInt(NumberOr(Get(query, "page"), 1)))
              && Get(r.value, "limit") == Some(JInt(NumberOr(Get(query, "limit"), 20)))
  {
    if ValidateObject(PaginationSchema, query, NoEmail).Valid? {
      PaginationFields();
      GetOutput(PaginationSchema, query, NoEmail, PageField);
      GetOutput(PaginationSchema, query, NoEmail, LimitField);
      PageValue(Get(query, "page"));
      LimitValue(Get(query, "limit"));
    }
  }

  lemma PaginationFields()
    ensures DistinctKeys(PaginationSchema)
    ensures FieldFor(PaginationSchema, "page") == Some(PageField)
    ensures FieldFor(PaginationSchema, "limit") == Some(LimitField)
  {
    assert PaginationSchema[1..] == [LimitField];
  }

  /** An accepted page is the whole number given, or 1 when absent. */
  lemma PageValue(v: Option<JsValue>)
    requires ValidateField(PageField, v, NoEmail).Accept?
    ensures ValidateField(PageField, v, NoEmail).value == Some(JInt(NumberOr(v, 1)))
  {
    PageFieldAccepts(v);
    AcceptedValue(PageField, v, NoEmail);
    if v.Some? {
      CoerceNumber(PageField, v.value);
    }
  }

  /** An accepted limit is the whole number given, or 20 when absent. */
  lemma LimitValue(v: Option<JsValue>)
    requires ValidateField(LimitField, v, NoEmail).Accept?
    ensures ValidateField(LimitField, v, NoEmail).value == Some(JInt(NumberOr(v, 20)))
  {
    LimitFieldAccepts(v);
    AcceptedValue(LimitField, v, NoEmail);
    if v.Some? {
      CoerceNumber(LimitField, v.value);
    }
  }

  // Numeric strings in a query

  /** A decimal numeral of one digit. */
  lemma OneDigitNumeral(d: char)
    requires IsDigit(d)
    ensures IsDecimal([d]) && WholeDigits([d]) == [d] && FractionDigits([d]) == ""
    ensures DigitsValue([d]) == d as int - '0' as int
  {
    assert PointIndex([d]) == 1 + PointIndex([]);
    assert [d][..|[d]| - 1] == [];
  }

  /** A leading plus sign is read as a positive number: "+2" is 2. */
  lemma PlusSignReads()
    ensures NumericValue("+2") == Some(JInt(2))
  {
    TrimOfTrimmed("+2");
    assert Unsigned("+2") == "2";
    OneDigitNumeral('2');
  }

  /** White space around a number is ignored: " 2 " is 2. */
  lemma SurroundingSpaceReads()
    ensures NumericValue(" 2 ") == Some(JInt(2))
  {
    assert TrimStart(" 2 ") == TrimStart("2 ") == "2 " by { assert " 2 "[1..] == "2 "; }
    assert TrimEnd("2 ") == TrimEnd("2") == "2" by { assert "2 "[..1] == "2"; }
    assert Unsigned("2") == "2";
    OneDigitNumeral('2');
  }

  /** A point followed by zeros keeps the value whole: "2.0" is 2. */
  lemma ZeroFractionReads()
    ensures NumericValue("2.0") == Some(JInt(2))
  {
    TrimOfTrimmed("2.0");
    assert Unsigned("2.0") == "2.0";
    assert PointIndex("2.0") == 1 by { assert "2.0"[1..] == ".0"; }
    assert WholeDigits("2.0") == "2" && FractionDigits("2.0") == "0";
    OneDigitNumeral('2');
  }

  /** A negative number is read, with its sign: "-5" is -5. */
  lemma MinusSignReads()
    ensures NumericValue("-5") == Some(JInt(-5))
  {
    TrimOfTrimmed("-5");
    assert Unsigned("-5") == "5";
    OneDigitNumeral('5');
  }

  /** A fraction is read as one: "2.5" lies between 2 and 3. */
  lemma FractionReads()
    ensures NumericValue("2.5") == Some(JFraction(2))
  {
    TrimOfTrimmed("2.5");
    assert Unsigned("2.5") == "2.5";
    assert PointIndex("2.5") == 1 by { assert "2.5"[1..] == ".5"; }
    assert WholeDigits("2.5") == "2" && FractionDigits("2.5") == "5";
    OneDigitNumeral('2');
  }

  /** A page given as "+2", " 2 " or "2.0" is page 2. */
  lemma PaginationReadsNumericPage(s: string)
    requires s == "+2" || s == " 2 " || s == "2.0"
    ensures var r := ValidatePaginationInput([("page", JStr(s))]);
            r.Valid? && Get(r.value, "page") == Some(JInt(2)) && Get(r.value, "limit") == Some(JInt(20))
  {
    if s == "+2" { PlusSignReads(); } else if s == " 2 " { SurroundingSpaceReads(); } else { ZeroFractionReads(); }
    var query := [("page", JStr(s))];
    assert Get(query, "page") == Some(JStr(s)) && Get(query, "limit") == None;
    assert OnlyKeys(query, {"page", "limit"});
  }

  /** A page of "-5" is refused by the minimum: "Page must be at least 1". */
  lemma PaginationNegativePage()
    ensures ValidatePaginationInput([("page", JStr("-5"))]) == Invalid("page", "Page must be at least 1")
  {
    MinusSignReads();
    var f := PageField;
    assert f.rules == [IntegerRule, MinRule(1)];
    assert Coerce(f, JStr("-5")) == JInt(-5);
    assert RuleError(f.rules[0], JInt(-5), NoEmail).None?;
    assert FirstRuleError(f.rules, JInt(-5), NoEmail) == Some((NumberMin, 1));
    assert ValidateField(f, Get([("page", JStr("-5"))], "page"), NoEmail) == Reject(NumberMin, 1);
    FirstFieldRejects(PaginationSchema, [("page", JStr("-5"))], NoEmail);
  }

  /** A page of "2.5" is refused as not whole: "Page must be an integer". */
  lemma PaginationFractionPage()
    ensures ValidatePaginationInput([("page", JStr("2.5"))]) == Invalid("page", "Page must be an integer")
  {
    FractionReads();
    var f := PageField;
    assert f.rules == [IntegerRule, MinRule(1)];
    assert Coerce(f, JStr("2.5")) == JFraction(2);
    assert FirstRuleError(f.rules, JFraction(2), NoEmail) == Some((NumberInteger, 0));
    assert ValidateField(f, Get([("page", JStr("2.5"))], "page"), NoEmail) == Reject(NumberInteger, 0);
    FirstFieldRejects(PaginationSchema, [("page", JStr("2.5"))], NoEmail);
  }

  /** When the first field rejects, its key and message are the answer. */
  lemma FirstFieldRejects(schema: Schema, body: Body, isEmail: string -> bool)
    requires |schema| > 0 && ValidateField(schema[0], Get(body, schema[0].key), isEmail).Reject?
    ensures var c := ValidateField(schema[0], Get(body, schema[0].key), isEmail);
            ValidateObject(schema, body, isEmail) == Invalid(schema[0].key, Message(schema[0], c.code, c.limit))
  {
  }

  lemma TitleCoerce(t: string)
    ensures Coerce(TitleField, JStr(t)) == JStr(Trim(t))
  {
    assert TitleField.rules == [TrimRule, MinRule(1), MaxRule(200)];
    assert LowercaseRule !in TitleField.rules && TrimRule in TitleField.rules;
  }

  /** The title's rules never fail on `min(1)`: the empty string is refused
      by the base check before the rules run. */
  lemma TitleRulesOutcome(c: string)
    requires c != ""
    ensures FirstRuleError(TitleField.rules, JStr(c), NoEmail) == if Utf16Length(c) > 200 then Some((StringMax, 200)) else None
  {
    var rules := [TrimRule, MinRule(1), MaxRule(200)];
    assert TitleField.rules == rules;
    assert RuleError(rules[0], JStr(c), NoEmail).None?;
    assert RuleError(rules[1], JStr(c), NoEmail).None?;
    assert rules[1..][1..] == [MaxRule(200)];
    assert FirstRuleError(rules[1..][1..][1..], JStr(c), NoEmail).None?;
    assert FirstRuleError(rules[1..][1..], JStr(c), NoEmail) == if Utf16Length(c) > 200 then Some((StringMax, 200)) else None;
    assert FirstRuleError(rules[1..], JStr(c), NoEmail) == FirstRuleError(rules[1..][1..], JStr(c), NoEmail);
  }

  /** A string field without an allow-list: absent is required or the
      default, a non-string is `string.base`, an empty converted string is
      `string.empty`, and otherwise the first failing rule decides. */
  lemma StringFieldOutcome(f: Field, raw: JsValue, isEmail: string -> bool)
    requires f.only == [] && !f.allowEmpty && f.kind == StringKind
    ensures var c := Coerce(f, raw);
            ValidateField(f, Some(raw), isEmail) ==
              if !c.JStr? then Reject(StringBase, 0)
              else if c.s == "" then Reject(StringEmpty, 0)
              else match FirstRuleError(f.rules, c, isEmail)
                   case Some(e) => Reject(e.0, e.1)
                   case None => Accept(Some(c))
  {
  }

  /** The whole behaviour of the title field: required when absent, empty
      when blank after trimming, too long past 200 UTF-16 units, otherwise the
      trimmed title. The `min(1)` error, whose custom text the schema
      declares, never comes out. */
  function TitleOutcome(v: Option<JsValue>): Check {
    match v
    case None => Reject(AnyRequired, 0)
    case Some(JStr(t)) =>
      if Trim(t) == "" then Reject(StringEmpty, 0)
      else if Utf16Length(Trim(t)) > 200 then Reject(StringMax, 200)
      else Accept(Some(JStr(Trim(t))))
    case Some(_) => Reject(StringBase, 0)
  }

  lemma TitleFieldOutcome(v: Option<JsValue>)
    ensures ValidateField(TitleField, v, NoEmail) == TitleOutcome(v)
    ensures !(ValidateField(TitleField, v, NoEmail).Reject? && ValidateField(TitleField, v, NoEmail).code == StringMin)
  {
    assert TitleField.only == [] && !TitleField.allowEmpty && TitleField.kind == StringKind && TitleField.required;
    if v.Some? {
      StringFieldOutcome(TitleField, v.value, NoEmail);
      if v.value.JStr? {
        TitleCoerce(v.value.s);
        if Trim(v.value.s) != "" {
          TitleRulesOutcome(Trim(v.value.s));
        }
      }
    }
  }

  lemma TitleMessageTexts()
    ensures Message(TitleField, AnyRequired, 0) == "Title is required"
    ensures Message(TitleField, StringEmpty, 0) == Label("title") + " is not allowed to be empty"
    ensures Message(TitleField, StringMax, 200) == "Title cannot exceed 200 characters"
  {
    var ms := TitleMessages;
    assert TitleField.messages == ms;
    assert Lookup(ms[1..][1..][1..], StringEmpty).None?;
    assert Lookup(ms[1..][1..], AnyRequired) == Some("Title is required");
  }

  /** The title's messages: "Title is required" when absent, Joi's default
      empty-string message when blank after trimming, the custom limit
      message when the trimmed title is longer than 200 UTF-16 units. */
  lemma NoteTitleMessages(body: Body, t: string)
    ensures Get(body, "title").None? ==> ValidateNoteInput(body) == Invalid("title", "Title is required")
    ensures Get(body, "title") == Some(JStr(t)) && Trim(t) == "" ==>
              ValidateNoteInput(body) == Invalid("title", Label("title") + " is not allowed to be empty")
    ensures Get(body, "title") == Some(JStr(t)) && Utf16Length(Trim(t)) > 200 ==>
              ValidateNoteInput(body) == Invalid("title", "Title cannot exceed 200 characters")
  {
    var v := Get(body, "title");
    TitleFieldOutcome(v);
    TitleMessageTexts();
    assert NoteSchema[0] == TitleField;
    if ValidateField(TitleField, v, NoEmail).Reject? {
      FirstFieldRejects(NoteSchema, body, NoEmail);
    }
  }

  /** A title of 101 emoji is 202 UTF-16 units: refused as too long, though
      it has only 101 characters. */
  lemma AstralTitleTooLong(body: Body)
    requires Get(body, "title") == Some(JStr(seq(101, _ => '\U{1F600}')))
    ensures ValidateNoteInput(body) == Invalid("title", "Title cannot exceed 200 characters")
  {
    var t: string := seq(101, _ => '\U{1F600}');
    assert !IsSpace(t[0]) && !IsSpace(t[100]);
    TrimOfTrimmed(t);
    Utf16LengthAstral(t);
    NoteTitleMessages(body, t);
  }

  /** How a handler answers a body that fails its own validation call: 400
      with the first error's message. */
  function ValidationFailure(message: string): Response {
    Failure(400, "Validation Error", message)
  }

  // ---------------------------------------------------------------------
  // Middleware and sanitisers

  /** `validateBody(schema)`: a failure answers 400 with the first error and
      leaves the body alone; a success replaces the body by the converted
      value and passes on. */
  method ValidateBody(req: Request, schema: Schema, isEmail: string -> bool) returns (next: Next)
    modifies req`body
    ensures match ValidateObject(schema, old(req.body), isEmail)
            case Valid(v) => next == Continue && req.body == v
            case Invalid(field, msg) =>
              next == Halt(Response(400, "Validation Error", msg, false, ErrorDetails([(field, msg)])))
              && req.body == old(req.body)
  {
    var result := ValidateObject(schema, req.body, isEmail);
    match result
    case Invalid(field, msg) =>
      next := Halt(Response(400, "Validation Error", msg, false, ErrorDetails([(field, msg)])));
    case Valid(v) =>
      req.body := v;
      next := Continue;
  }

  /** `validateQuery(schema)`: as `validateBody`, on the query. */
  method ValidateQuery(req: Request, schema: Schema) returns (next: Next)
    modifies req`query
    ensures match ValidateObject(schema, old(req.query), NoEmail)
            case Valid(v) => next == Continue && req.query == v
            case Invalid(field, msg) =>
              next == Halt(Response(400, "Query Validation Error", msg, false, ErrorDetails([(field, msg)])))
              && req.query == old(req.query)
  {
    var result := ValidateObject(schema, req.query, NoEmail);
    match result
    case Invalid(field, msg) =>
      next := Halt(Response(400, "Query Validation Error", msg, false, ErrorDetails([(field, msg)])));
    case Valid(v) =>
      req.query := v;
      next := Continue;
  }

  /** `sanitizeEmail`: nothing (or the empty string) gives the empty string;
      otherwise lower-case and trim, as the user schema stores addresses. */
  function SanitizeEmail(email: Option<string>): (r: string)
    ensures IsLower(r) && IsTrimmed(r)
    ensures email.None? ==> r == ""
    ensures email.Some? ==> r == NormalizeEmail(email.value)
  {
    match email
    case None => ""
    case Some(e) => NormalizeEmail(e)
  }

  lemma SanitizeEmailIdempotent(email: Option<string>)
    ensures SanitizeEmail(Some(SanitizeEmail(email))) == SanitizeEmail(email)
  {
    if email.Some? {
      NormalizeEmailIdempotent(email.value);
    }
  }

  /** `sanitizeString`: nothing gives the empty string; otherwise trim. */
  function SanitizeString(str: Option<string>): (r: string)
    ensures IsTrimmed(r)
    ensures str.Some? ==> |r| <= |str.value| && r == Trim(str.value)
    ensures str.None? ==> r == ""
  {
    match str
    case None => ""
    case Some(s) => TrimIdempotent(s); Trim(s)
  }

  lemma SanitizeStringIdempotent(str: Option<string>)
    ensures SanitizeString(Some(SanitizeString(str))) == SanitizeString(str)
  {
    if str.Some? {
      TrimIdempotent(str.value);
    }
  }
}
