/** The client's form validators. Each field validator answers `None` (the
    JavaScript `null`) or an error message; `ValidateForm` runs a rule per
    field and collects the messages. A missing or empty value is falsy. */
module ClientValidators {
  import opened Wrappers
  import opened Strings
  import opened Constants

  const EmailRequired: string := "Email is required"
  const EmailInvalid: string := "Invalid email format"
  const PasswordRequired: string := "Password is required"
  const PasswordTooShort: string := "Password must be at least 6 characters"
  const PasswordMinLength: nat := 6
  const TitleRequired: string := "Title is required"
  const TitleTooLong: string := "Title cannot exceed 200 characters"
  const ContentTooLong: string := "Content cannot exceed 10000 characters"

  /** The limit messages quote the shared limits. */
  lemma LimitMessagesQuoteLimits()
    ensures TitleTooLong == "Title cannot exceed " + NatToString(NoteTitleMaxLength) + " characters"
    ensures ContentTooLong == "Content cannot exceed " + NatToString(NoteContentMaxLength) + " characters"
  {
    assert NatToString(2) == "2";
    assert NatToString(20) == "20";
    assert NatToString(200) == "200";
    assert NatToString(1) == "1";
    assert NatToString(10) == "10";
    assert NatToString(100) == "100";
    assert NatToString(1000) == "1000";
    assert NatToString(10000) == "10000";
  }

  function ValidateEmail(email: Option<string>): (r: Option<string>)
    ensures r.None? ==> email.Some? && EmailPatternMatches(email.value)
  {
    if email.None? || email.value == "" then Some(EmailRequired)
    else if !EmailPatternMatches(email.value) then Some(EmailInvalid)
    else None
  }

  /** The three outcomes, and the shape of every accepted address: exactly
      one `@` and no whitespace. */
  lemma ValidateEmailCases(email: Option<string>)
    ensures (email.None? || email.value == "") <==> ValidateEmail(email) == Some(EmailRequired)
    ensures ValidateEmail(email) == Some(EmailInvalid) <==> email.Some? && email.value != "" && !EmailPatternMatches(email.value)
    ensures ValidateEmail(email).None? ==> CountChar(email.value, '@') == 1 && forall j :: 0 <= j < |email.value| ==> !IsSpace(email.value[j])
  {
    if ValidateEmail(email).None? {
      EmailPatternShape(email.value);
    }
  }

  function ValidatePassword(password: Option<string>): (r: Option<string>)
    ensures r.None? <==> password.Some? && Utf16Length(password.value) >= PasswordMinLength
    ensures r == Some(PasswordRequired) <==> password.None? || password.value == ""
  {
    if password.None? || password.value == "" then Some(PasswordRequired)
    else if Utf16Length(password.value) < PasswordMinLength then Some(PasswordTooShort)
    else None
  }

  /** `validateNoteTitle`: blank titles are refused, and the length limit is
      checked on the untrimmed title. */
  function ValidateNoteTitle(title: Option<string>): (r: Option<string>)
    ensures r.None? <==> title.Some? && Trim(title.value) != "" && Utf16Length(title.value) <= NoteTitleMaxLength
    ensures r == Some(TitleRequired) <==> title.None? || Trim(title.value) == ""
  {
    if title.None? || title.value == "" || Trim(title.value) == "" then Some(TitleRequired)
    else if Utf16Length(title.value) > NoteTitleMaxLength then Some(TitleTooLong)
    else None
  }

  function ValidateNoteContent(content: Option<string>): (r: Option<string>)
    ensures r.Some? <==> content.Some? && Utf16Length(content.value) > NoteContentMaxLength
    ensures r.Some? ==> r.value == ContentTooLong
  {
    if content.Some? && content.value != "" && Utf16Length(content.value) > NoteContentMaxLength then Some(ContentTooLong)
    else None
  }

  /** A form rule: whether the field is required, and its optional validator,
      whose falsy answers (`null`, `''`) mean no error. */
  datatype Rule = Rule(required: bool, validator: Option<string -> Option<string>>)

  function FieldValue(data: map<string, string>, field: string): Option<string> {
    if field in data then Some(data[field]) else None
  }

  /** One rule's verdict: a required field that is missing or blank gets
      "<field> is required" and its validator is skipped; otherwise the
      validator runs on a non-empty value only. */
  function FieldError(value: Option<string>, field: string, rule: Rule): (r: Option<string>)
    ensures rule.required && (value.None? || Trim(value.value) == "") ==> r == Some(field + " is required")
    ensures (value.None? || value.value == "") ==> (r.Some? <==> rule.required)
    ensures r.Some? ==> r.value != ""
  {
    if rule.required && (value.None? || value.value == "" || Trim(value.value) == "") then Some(field + " is required")
    else if rule.validator.Some? && value.Some? && value.value != "" then
      var e := rule.validator.value(value.value);
      if e.Some? && e.value != "" then e else None
    else None
  }

  /** The errors object after the rules, in key order, have run. */
  function FormErrors(data: map<string, string>, rules: seq<(string, Rule)>): map<string, string>
  {
    if rules == [] then map[]
    else
      var prev := FormErrors(data, rules[..|rules| - 1]);
      var (field, rule) := rules[|rules| - 1];
      match FieldError(FieldValue(data, field), field, rule)
      case Some(e) => prev[field := e]
      case None => prev
  }

  /** A field has an error exactly when one of its rules produced one. */
  lemma {:induction false} FormErrorsKeys(data: map<string, string>, rules: seq<(string, Rule)>, field: string)
    ensures field in FormErrors(data, rules) <==>
              exists i :: 0 <= i < |rules| && rules[i].0 == field && FieldError(FieldValue(data, field), field, rules[i].1).Some?
    decreases |rules|
  {
    if rules != [] {
      var init := rules[..|rules| - 1];
      FormErrorsKeys(data, init, field);
      if field in FormErrors(data, init) {
        var i :| 0 <= i < |init| && init[i].0 == field && FieldError(FieldValue(data, field), field, init[i].1).Some?;
        assert rules[i] == init[i];
      }
      if exists i :: 0 <= i < |rules| && rules[i].0 == field && FieldError(FieldValue(data, field), field, rules[i].1).Some? {
        var i :| 0 <= i < |rules| && rules[i].0 == field && FieldError(FieldValue(data, field), field, rules[i].1).Some?;
        if i < |init| {
          assert init[i] == rules[i];
        }
      }
    }
  }

  /** With one rule per field, a field's entry is its rule's message. */
  lemma {:induction false} FormErrorsValue(data: map<string, string>, rules: seq<(string, Rule)>, i: nat)
    requires i < |rules|
    requires forall j, k :: 0 <= j < k < |rules| ==> rules[j].0 != rules[k].0
    requires FieldError(FieldValue(data, rules[i].0), rules[i].0, rules[i].1).Some?
    ensures rules[i].0 in FormErrors(data, rules)
    ensures FormErrors(data, rules)[rules[i].0] == FieldError(FieldValue(data, rules[i].0), rules[i].0, rules[i].1).value
    decreases |rules|
  {
    var init := rules[..|rules| - 1];
    if i < |init| {
      assert init[i] == rules[i];
      FormErrorsValue(data, init, i);
    }
  }

  /** The form is valid exactly when no rule reports an error. */
  lemma FormValidIff(data: map<string, string>, rules: seq<(string, Rule)>)
    ensures |FormErrors(data, rules)| == 0 <==>
              forall i :: 0 <= i < |rules| ==> FieldError(FieldValue(data, rules[i].0), rules[i].0, rules[i].1).None?
  {
    var errs := FormErrors(data, rules);
    if |errs| == 0 {
      forall i | 0 <= i < |rules|
        ensures FieldError(FieldValue(data, rules[i].0), rules[i].0, rules[i].1).None?
      {
        FormErrorsKeys(data, rules, rules[i].0);
      }
    } else {
      var f :| f in errs;
      FormErrorsKeys(data, rules, f);
    }
  }

  /** `validateForm`: runs each rule in order, adding messages to the errors
      object, and reports validity by its emptiness. */
  method ValidateForm(data: map<string, string>, rules: seq<(string, Rule)>) returns (isValid: bool, errors: map<string, string>)
    ensures errors == FormErrors(data, rules)
    ensures isValid <==> forall i :: 0 <= i < |rules| ==> FieldError(FieldValue(data, rules[i].0), rules[i].0, rules[i].1).None?
    ensures forall f :: f in errors ==> errors[f] != ""
  {
    errors := map[];
    var i := 0;
    while i < |rules|
      invariant 0 <= i <= |rules|
      invariant errors == FormErrors(data, rules[..i])
      invariant forall f :: f in errors ==> errors[f] != ""
    {
      var (field, rule) := rules[i];
      var value := if field in data then Some(data[field]) else None;
      if rule.required && (value.None? || value.value == "" || Trim(value.value) == "") {
        errors := errors[field := field + " is required"];
      } else if rule.validator.Some? && value.Some? && value.value != "" {
        var e := rule.validator.value(value.value);
        if e.Some? && e.value != "" {
          errors := errors[field := e.value];
        }
      }
      assert rules[..i + 1][..i] == rules[..i];
      i := i + 1;
    }
    assert rules[..i] == rules;
    isValid := |errors| == 0;
    FormValidIff(data, rules);
  }
}
