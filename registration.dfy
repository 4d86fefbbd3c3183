/**
  The registration form of the current front end: password strength meter, field
  validators, whole-form validation, the submit button's enabled state, and the
  submit handler that rejects names or e-mails already registered (ignoring case)
  and otherwise appends a normalised record to `registeredUsers` in localStorage.
 */
module Registration {
  import opened Wrappers
  import opened Text
  import opened Email
  import opened Storage

  const UsersKey := "registeredUsers"

  datatype Field = Username | GroupName | EmailAddress | Password | ConfirmPassword

  /** The fields in the order `Object.keys(formData)` lists them. */
  const FormFields: seq<Field> := [Username, GroupName, EmailAddress, Password, ConfirmPassword]

  datatype FormData = FormData(username: string, groupName: string, email: string, password: string, confirmPassword: string)
  {
    function Get(f: Field): string {
      match f
      case Username => username
      case GroupName => groupName
      case EmailAddress => email
      case Password => password
      case ConfirmPassword => confirmPassword
    }

    /** `{ ...prev, [f]: value }`: the field `f` holds `value`, every other field is kept. */
    function With(f: Field, value: string): (r: FormData)
      ensures r.Get(f) == value
      ensures forall g | g != f :: r.Get(g) == Get(g)
    {
      match f
      case Username => this.(username := value)
      case GroupName => this.(groupName := value)
      case EmailAddress => this.(email := value)
      case Password => this.(password := value)
      case ConfirmPassword => this.(confirmPassword := value)
    }
  }

  const EmptyForm := FormData([], [], [], [], [])

  /** The fields `validateForm` marks as touched. */
  const AllFields: set<Field> := {Username, GroupName, EmailAddress, Password, ConfirmPassword}

  // ---------------------------------------------------------------- password strength

  predicate IsLower(c: char) { 'a' <= c <= 'z' }
  predicate IsUpper(c: char) { 'A' <= c <= 'Z' }
  /** `\d`: an ASCII digit. */
  predicate IsDigit(c: char) { '0' <= c <= '9' }
  /** `[^A-Za-z0-9]` */
  predicate IsSymbol(c: char) { !IsLower(c) && !IsUpper(c) && !IsDigit(c) }

  predicate HasLower(p: string) { exists k | 0 <= k < |p| :: IsLower(p[k]) }
  predicate HasUpper(p: string) { exists k | 0 <= k < |p| :: IsUpper(p[k]) }
  predicate HasDigit(p: string) { exists k | 0 <= k < |p| :: IsDigit(p[k]) }
  predicate HasSymbol(p: string) { exists k | 0 <= k < |p| :: IsSymbol(p[k]) }

  function Point(b: bool): nat { if b then 1 else 0 }

  /**
    The strength of a password: 0 for the empty password, otherwise one point for
    each of length at least 8, a lower-case letter, an upper-case letter, a digit and
    any other character. Every non-empty password scores at least one point (its
    first character falls in one of the four classes), so the strength is 0 only
    for the empty password, and it never exceeds 5.
   */
  function Strength(p: string): (r: nat)
    ensures r <= 5
    ensures r == 0 <==> p == []
  {
    if p == [] then 0
    else
      assert HasLower(p) || HasUpper(p) || HasDigit(p) || HasSymbol(p) by {
        if IsLower(p[0]) { assert HasLower(p); }
        else if IsUpper(p[0]) { assert HasUpper(p); }
        else if IsDigit(p[0]) { assert HasDigit(p); }
        else { assert HasSymbol(p); }
      }
      Point(|p| >= 8) + Point(HasLower(p)) + Point(HasUpper(p)) + Point(HasDigit(p)) + Point(HasSymbol(p))
  }

  /** `calculatePasswordStrength`: one point per criterion, checked one after another. */
  method CalculatePasswordStrength(password: string) returns (score: nat)
    ensures score == Strength(password)
  {
    if password == [] {
      return 0;
    }
    score := 0;
    if |password| >= 8 {
      score := score + 1;
    }
    if exists k | 0 <= k < |password| :: IsLower(password[k]) {
      score := score + 1;
    }
    if exists k | 0 <= k < |password| :: IsUpper(password[k]) {
      score := score + 1;
    }
    if exists k | 0 <= k < |password| :: IsDigit(password[k]) {
      score := score + 1;
    }
    if exists k | 0 <= k < |password| :: IsSymbol(password[k]) {
      score := score + 1;
    }
  }

  /** A password made only of whitespace earns at most the length and symbol points. */
  lemma BlankPasswordIsWeak(p: string)
    requires Blank(p)
    ensures Strength(p) <= 2
  {
    assert forall k | 0 <= k < |p| :: IsWhitespace(p[k]) && IsSymbol(p[k]);
  }

  const Red := "#dc3545"
  const Orange := "#fd7e14"
  const Yellow := "#ffc107"
  const Cyan := "#0dcaf0"
  const Green := "#198754"

  /** `getStrengthColor`. */
  function StrengthColor(strength: int): (c: string)
    ensures c in {Red, Orange, Yellow, Cyan, Green}
    ensures c == Red <==> strength <= 1
    ensures c == Green <==> strength >= 5
  {
    if strength <= 1 then Red
    else if strength == 2 then Orange
    else if strength == 3 then Yellow
    else if strength == 4 then Cyan
    else Green
  }

  const StrengthLabels: seq<string> := ["Too weak", "Weak", "Fair", "Good", "Strong"]

  /** `strengthLabels[Math.max(strength - 1, 0)] ?? strengthLabels[0]`. */
  function StrengthLabel(strength: int): (r: string)
    ensures r in StrengthLabels
    ensures 1 <= strength <= 5 ==> r == StrengthLabels[strength - 1]
    ensures strength <= 1 || strength > 5 ==> r == StrengthLabels[0]
  {
    var i := if strength - 1 > 0 then strength - 1 else 0;
    if i < |StrengthLabels| then StrengthLabels[i] else StrengthLabels[0]
  }

  /** The label under the meter: `formData.password ? strengthLabel : strengthLabels[0]`. */
  function DisplayedLabel(password: string): string {
    if password != [] then StrengthLabel(Strength(password)) else StrengthLabels[0]
  }

  /**
    The meter's colour and label tell the same story: red exactly when the label is
    "Too weak", green exactly when it is "Strong", and a password the validator
    accepts is shown neither red nor orange.
   */
  lemma ColorAgreesWithLabel(password: string)
    ensures StrengthColor(Strength(password)) == Red <==> DisplayedLabel(password) == "Too weak"
    ensures StrengthColor(Strength(password)) == Green <==> DisplayedLabel(password) == "Strong"
    ensures ValidatePassword(password).None? ==> StrengthColor(Strength(password)) in {Yellow, Cyan, Green}
  {
    PasswordRules(password);
    var s := Strength(password);
    assert s == 0 || s == 1 || s == 2 || s == 3 || s == 4 || s == 5;
  }

  // ---------------------------------------------------------------- field validators

  const UsernameRequired := "User name is required."
  const UsernameTooShort := "User name must be at least 3 characters."
  const GroupNameRequired := "Group name is required."
  const EmailRequired := "Email is required."
  const EmailInvalid := "Enter a valid email address."
  const PasswordRequired := "New password is required."
  const PasswordTooShort := "Password must be at least 8 characters long."
  const PasswordTooWeak := "Choose a stronger password."
  const ConfirmRequired := "Please confirm the new password."
  const ConfirmMismatch := "Passwords do not match."

  /** User name: required, then at least 3 characters once trimmed. */
  function ValidateUsername(value: string): Option<string> {
    var trimmed := Trim(value);
    if trimmed == [] then Some(UsernameRequired)
    else if |trimmed| < 3 then Some(UsernameTooShort)
    else None
  }

  /** A user name passes exactly when it has 3 characters once trimmed; a blank one is "required", not "too short". */
  lemma UsernameRules(value: string)
    ensures ValidateUsername(value).None? <==> |Trim(value)| >= 3
    ensures ValidateUsername(value) == Some(UsernameRequired) <==> Blank(value)
    ensures ValidateUsername(value) == Some(UsernameTooShort) <==> 0 < |Trim(value)| < 3
  {
  }

  /** Group name: required once trimmed. */
  function ValidateGroupName(value: string): Option<string> {
    if Trim(value) == [] then Some(GroupNameRequired) else None
  }

  /** A group name passes exactly when it is not blank. */
  lemma GroupNameRules(value: string)
    ensures ValidateGroupName(value).None? <==> !Blank(value)
    ensures ValidateGroupName(value).Some? ==> ValidateGroupName(value).value == GroupNameRequired
  {
  }

  /** E-mail: required once trimmed, then the trimmed value must match the e-mail expression. */
  function ValidateEmail(value: string): Option<string> {
    var trimmed := Trim(value);
    if trimmed == [] then Some(EmailRequired)
    else if !MatchEmail(trimmed) then Some(EmailInvalid)
    else None
  }

  /**
    An e-mail passes exactly when its trimmed value is in the language of the
    expression; a blank one is "required", any other failure "invalid".
   */
  lemma EmailRules(value: string)
    ensures ValidateEmail(value).None? <==> EmailSpec(Trim(value))
    ensures ValidateEmail(value) == Some(EmailRequired) <==> Blank(value)
    ensures ValidateEmail(value) == Some(EmailInvalid) <==> !Blank(value) && !EmailSpec(Trim(value))
  {
    MatchEmailCorrect(Trim(value));
  }

  /** Password (not trimmed): required, then at least 8 characters, then strength at least 3. */
  function ValidatePassword(value: string): Option<string> {
    if value == [] then Some(PasswordRequired)
    else if |value| < 8 then Some(PasswordTooShort)
    else if Strength(value) < 3 then Some(PasswordTooWeak)
    else None
  }

  /** A password passes exactly when it has 8 characters and strength 3; the checks are reported in that order. */
  lemma PasswordRules(value: string)
    ensures ValidatePassword(value).None? <==> |value| >= 8 && Strength(value) >= 3
    ensures ValidatePassword(value) == Some(PasswordRequired) <==> value == []
    ensures ValidatePassword(value) == Some(PasswordTooShort) <==> 0 < |value| < 8
    ensures ValidatePassword(value) == Some(PasswordTooWeak) <==> |value| >= 8 && Strength(value) < 3
  {
  }

  /** Confirmation: required, then equal to the password it is compared with. */
  function ValidateConfirmPassword(value: string, password: string): Option<string> {
    if value == [] then Some(ConfirmRequired)
    else if value != password then Some(ConfirmMismatch)
    else None
  }

  /** A confirmation passes exactly when it is non-empty and equal to the password. */
  lemma ConfirmRules(value: string, password: string)
    ensures ValidateConfirmPassword(value, password).None? <==> value != [] && value == password
    ensures ValidateConfirmPassword(value, password) == Some(ConfirmRequired) <==> value == []
  {
  }

  /**
    `validateField(field, value)`; `password` is the password the confirmation is
    compared with (the component reads it from the form state).
   */
  function ValidateField(field: Field, value: string, password: string): (r: Option<string>)
    ensures r.Some? ==> r.value != []
    ensures r.None? <==> Acceptable(field, value, password)
  {
    match field
    case Username => UsernameRules(value); ValidateUsername(value)
    case GroupName => GroupNameRules(value); ValidateGroupName(value)
    case EmailAddress => EmailRules(value); ValidateEmail(value)
    case Password => PasswordRules(value); ValidatePassword(value)
    case ConfirmPassword => ConfirmRules(value, password); ValidateConfirmPassword(value, password)
  }

  /** What each field accepts, stated without the messages. */
  predicate Acceptable(field: Field, value: string, password: string) {
    match field
    case Username => |Trim(value)| >= 3
    case GroupName => !Blank(value)
    case EmailAddress => EmailSpec(Trim(value))
    case Password => |value| >= 8 && Strength(value) >= 3
    case ConfirmPassword => value != [] && value == password
  }

  /** The error of one field of a form. */
  function ErrorOf(form: FormData, f: Field): (r: Option<string>)
    ensures r.Some? ==> r.value != []
  {
    ValidateField(f, form.Get(f), form.password)
  }

  /** The field check of a form, as a function of the field. */
  function CheckerOf(form: FormData): Field -> Option<string> {
    f => ErrorOf(form, f)
  }

  /** Every field of the form passes its validator. */
  predicate FormValid(form: FormData) {
    && ValidateUsername(form.username).None?
    && ValidateGroupName(form.groupName).None?
    && ValidateEmail(form.email).None?
    && ValidatePassword(form.password).None?
    && ValidateConfirmPassword(form.confirmPassword, form.password).None?
  }

  /** The errors `check` finds among `fields`, each with its message, collected left to right. */
  function Collect(check: Field -> Option<string>, fields: seq<Field>): map<Field, string> {
    if fields == [] then map[]
    else
      var earlier := Collect(check, fields[..|fields| - 1]);
      var f := fields[|fields| - 1];
      match check(f)
      case Some(message) => earlier[f := message]
      case None => earlier
  }

  /** A field has an entry exactly when it is listed and fails, and the entry is its message. */
  lemma {:induction false} CollectEntries(check: Field -> Option<string>, fields: seq<Field>, f: Field)
    ensures f in Collect(check, fields) <==> f in fields && check(f).Some?
    ensures f in Collect(check, fields) ==> Collect(check, fields)[f] == check(f).value
  {
    if fields != [] {
      var init := fields[..|fields| - 1];
      CollectEntries(check, init, f);
      assert fields == init + [fields[|fields| - 1]];
    }
  }

  /** The errors `validateForm` shows: those of all five fields. */
  function FormErrors(form: FormData): map<Field, string> {
    Collect(CheckerOf(form), FormFields)
  }

  /** Each field of a valid form passes its check. */
  lemma ValidFieldPasses(form: FormData, f: Field)
    requires FormValid(form)
    ensures CheckerOf(form)(f).None?
  {
    match f
    case Username =>
    case GroupName =>
    case EmailAddress =>
    case Password =>
    case ConfirmPassword =>
  }

  /** A form has no errors exactly when it is valid. */
  lemma NoErrorsIffValid(form: FormData)
    ensures FormErrors(form) == map[] <==> FormValid(form)
  {
    var errors := FormErrors(form);
    if FormValid(form) {
      forall f | f in errors
        ensures false
      {
        CollectEntries(CheckerOf(form), FormFields, f);
        ValidFieldPasses(form, f);
      }
    } else {
      var f := if ValidateUsername(form.username).Some? then Username
        else if ValidateGroupName(form.groupName).Some? then GroupName
        else if ValidateEmail(form.email).Some? then EmailAddress
        else if ValidatePassword(form.password).Some? then Password
        else ConfirmPassword;
      CollectEntries(CheckerOf(form), FormFields, f);
    }
  }

  /** The loop of `validateForm`: the error of every field that has one, in field order. */
  method CollectErrors(form: FormData) returns (newErrors: map<Field, string>)
    ensures newErrors == FormErrors(form)
  {
    newErrors := map[];
    for i := 0 to |FormFields|
      invariant newErrors == Collect(CheckerOf(form), FormFields[..i])
    {
      var key := FormFields[i];
      var error := ValidateField(key, form.Get(key), form.password);
      assert FormFields[..i + 1][..i] == FormFields[..i];
      assert CheckerOf(form)(key) == error;
      if error.Some? {
        newErrors := newErrors[key := error.value];
      }
    }
    assert FormFields[..|FormFields|] == FormFields;
  }

  /** `Object.values(formData).some(value => !value.trim())`. */
  predicate SomeFieldBlank(form: FormData) {
    || Trim(form.username) == [] || Trim(form.groupName) == [] || Trim(form.email) == []
    || Trim(form.password) == [] || Trim(form.confirmPassword) == []
  }

  /** `isSubmitDisabled`: some error is shown, or some field is blank. */
  predicate IsSubmitDisabled(errors: map<Field, string>, form: FormData) {
    (exists f | f in errors :: errors[f] != []) || SomeFieldBlank(form)
  }

  /** No field of a valid form is blank (a blank password is too weak to pass). */
  lemma ValidFormHasNoBlankField(form: FormData)
    requires FormValid(form)
    ensures !SomeFieldBlank(form)
  {
    UsernameRules(form.username);
    GroupNameRules(form.groupName);
    EmailRules(form.email);
    PasswordRules(form.password);
    if Blank(form.password) {
      BlankPasswordIsWeak(form.password);
    }
  }

  /**
    Right after `validateForm`, the submit button is disabled exactly when the form
    is invalid: a valid form has no errors and no blank field, and an invalid one
    shows a non-empty message.
   */
  lemma SubmitEnabledIffValid(form: FormData)
    ensures IsSubmitDisabled(FormErrors(form), form) <==> !FormValid(form)
  {
    NoErrorsIffValid(form);
    var errors := FormErrors(form);
    if FormValid(form) {
      ValidFormHasNoBlankField(form);
    } else {
      var f :| f in errors;
      CollectEntries(CheckerOf(form), FormFields, f);
      assert errors[f] != [];
    }
  }

  // ---------------------------------------------------------------- editing

  /** The error shown for `f`: its entry, or none (`undefined`). */
  function Shown(errors: map<Field, string>, f: Field): Option<string> {
    if f in errors then Some(errors[f]) else None
  }

  /** `setErrors(prev => ({ ...prev, [f]: error }))`: `f` shows `error`, every other field what it showed. */
  function WithError(errors: map<Field, string>, f: Field, error: Option<string>): (r: map<Field, string>)
    ensures Shown(r, f) == error
    ensures forall g | g != f :: Shown(r, g) == Shown(errors, g)
  {
    match error
    case Some(message) => errors[f := message]
    case None => errors - {f}
  }

  /** Every touched field shows exactly the error its current value has. */
  predicate ErrorsCurrent(form: FormData, errors: map<Field, string>, touched: set<Field>) {
    forall f | f in touched :: Shown(errors, f) == ErrorOf(form, f)
  }

  /**
    `updateField(field, value)` as the component has it. The edited field is rechecked
    only when touched. After a password edit, the touched confirmation is rechecked
    against `form.password`: the handler reads the form of the render it was created
    in, which still holds the password from before the edit.
   */
  function ErrorsAfterEditAsWritten(form: FormData, errors: map<Field, string>, touched: set<Field>, field: Field, value: string): (r: map<Field, string>)
    ensures field !in touched ==> r == errors
    ensures field in touched ==> Shown(r, field) == ValidateField(field, value, form.password)
    ensures field == Password && field in touched && ConfirmPassword in touched ==>
      Shown(r, ConfirmPassword) == ValidateConfirmPassword(form.confirmPassword, form.password)
    ensures forall g | g != field && !(field == Password && g == ConfirmPassword) :: Shown(r, g) == Shown(errors, g)
  {
    if field !in touched then errors
    else
      var checked := WithError(errors, field, ValidateField(field, value, form.password));
      if field == Password && ConfirmPassword in touched then
        WithError(checked, ConfirmPassword, ValidateConfirmPassword(form.confirmPassword, form.password))
      else checked
  }

  /**
    The written `updateField` leaves a stale error. With both password fields touched,
    password "ab" and confirmation "abc", typing "c" into the password makes the two
    equal, yet "Passwords do not match." stays on the confirmation.
   */
  lemma StaleConfirmationError()
    ensures var form := FormData([], [], [], "ab", "abc");
      var touched := {Password, ConfirmPassword};
      var errors := map[Password := PasswordTooShort, ConfirmPassword := ConfirmMismatch];
      var after := ErrorsAfterEditAsWritten(form, errors, touched, Password, "abc");
      && ErrorsCurrent(form, errors, touched)
      && Shown(after, ConfirmPassword) == Some(ConfirmMismatch)
      && ErrorOf(form.With(Password, "abc"), ConfirmPassword) == None
      && !ErrorsCurrent(form.With(Password, "abc"), after, touched)
  {
    var form := FormData([], [], [], "ab", "abc");
    assert "ab" != "abc";
    assert ErrorOf(form, Password) == Some(PasswordTooShort);
    assert ErrorOf(form, ConfirmPassword) == Some(ConfirmMismatch);
  }

  /**
    `updateField(field, value)` corrected: the edited field is rechecked when touched,
    and after a password edit a touched confirmation is rechecked against the new
    password.
   */
  function ErrorsAfterEdit(form: FormData, errors: map<Field, string>, touched: set<Field>, field: Field, value: string): map<Field, string> {
    var edited := form.With(field, value);
    var checked := if field in touched then WithError(errors, field, ErrorOf(edited, field)) else errors;
    if field == Password && ConfirmPassword in touched then WithError(checked, ConfirmPassword, ErrorOf(edited, ConfirmPassword))
    else checked
  }

  /** The corrected edit keeps every touched field's error in step with the form. */
  lemma EditKeepsErrorsCurrent(form: FormData, errors: map<Field, string>, touched: set<Field>, field: Field, value: string)
    requires ErrorsCurrent(form, errors, touched)
    ensures ErrorsCurrent(form.With(field, value), ErrorsAfterEdit(form, errors, touched, field, value), touched)
  {
    var edited := form.With(field, value);
    var after := ErrorsAfterEdit(form, errors, touched, field, value);
    forall f | f in touched
      ensures Shown(after, f) == ErrorOf(edited, f)
    {
      if f != field && !(f == ConfirmPassword && field == Password) {
        assert edited.Get(f) == form.Get(f);
        assert f == ConfirmPassword ==> edited.password == form.password by {
          if f == ConfirmPassword {
            assert edited.Get(Password) == form.Get(Password);
          }
        }
      }
    }
  }

  /** `handleBlur(field)`: the field becomes touched and shows its current error. */
  lemma BlurKeepsErrorsCurrent(form: FormData, errors: map<Field, string>, touched: set<Field>, field: Field)
    requires ErrorsCurrent(form, errors, touched)
    ensures ErrorsCurrent(form, WithError(errors, field, ErrorOf(form, field)), touched + {field})
  {
  }

  /** `validateForm` leaves every field touched and showing its current error. */
  lemma {:induction false} FormErrorsCurrent(form: FormData)
    ensures ErrorsCurrent(form, FormErrors(form), AllFields)
  {
    forall f | f in AllFields
      ensures Shown(FormErrors(form), f) == ErrorOf(form, f)
    {
      CollectEntries(CheckerOf(form), FormFields, f);
    }
  }

  /**
    Once every field is touched and shows its current error, the submit button is
    disabled exactly when the form is invalid; the written `updateField` breaks the
    premise (see `StaleConfirmationError`).
   */
  lemma SubmitTracksValidity(form: FormData, errors: map<Field, string>)
    requires ErrorsCurrent(form, errors, AllFields)
    ensures IsSubmitDisabled(errors, form) <==> !FormValid(form)
  {
    FormErrorsCurrent(form);
    forall f
      ensures Shown(errors, f) == Shown(FormErrors(form), f)
    {
      EveryFieldListed(f);
    }
    SameShownSameErrors(errors, FormErrors(form));
    SubmitEnabledIffValid(form);
  }

  lemma EveryFieldListed(f: Field)
    ensures f in AllFields
  {
    match f
    case Username =>
    case GroupName =>
    case EmailAddress =>
    case Password =>
    case ConfirmPassword =>
  }

  /** Two error maps that show the same error for every field are equal. */
  lemma SameShownSameErrors(a: map<Field, string>, b: map<Field, string>)
    requires forall f :: Shown(a, f) == Shown(b, f)
    ensures a == b
  {
    assert forall f :: f in a <==> f in b by {
      forall f
        ensures f in a <==> f in b
      {
        assert Shown(a, f) == Shown(b, f);
      }
    }
    forall f | f in a
      ensures a[f] == b[f]
    {
      assert Shown(a, f) == Shown(b, f);
    }
  }

  // ---------------------------------------------------------------- submit

  /** A stored user's name or e-mail equals the submitted one, ignoring case. */
  predicate UsernameTaken(existing: seq<StoredUser>, form: FormData) {
    exists i | 0 <= i < |existing| :: ToLower(existing[i].username) == ToLower(Trim(form.username))
  }

  predicate EmailTaken(existing: seq<StoredUser>, form: FormData) {
    exists i | 0 <= i < |existing| :: ToLower(existing[i].email) == ToLower(Trim(form.email))
  }

  const BothTaken := "User name and email are already registered."
  const NameTaken := "That user name is already registered."
  const MailTaken := "That email is already registered."
  const Registered := "Registration complete! You can log in with your new credentials."

  /** The duplicate check of `handleSubmit`: no message when neither is taken, else which one is. */
  function DuplicateMessage(existing: seq<StoredUser>, form: FormData): (r: Option<string>)
    ensures r.None? <==> !UsernameTaken(existing, form) && !EmailTaken(existing, form)
    ensures r.Some? ==> r.value in {BothTaken, NameTaken, MailTaken}
  {
    var usernameTaken := UsernameTaken(existing, form);
    var emailTaken := EmailTaken(existing, form);
    if usernameTaken || emailTaken then
      Some(if usernameTaken && emailTaken then BothTaken else if usernameTaken then NameTaken else MailTaken)
    else None
  }

  /** The message names exactly what is taken: both, the name only, the e-mail only, or nothing. */
  lemma DuplicateMessageCases(existing: seq<StoredUser>, form: FormData)
    ensures DuplicateMessage(existing, form).None? <==> !UsernameTaken(existing, form) && !EmailTaken(existing, form)
    ensures DuplicateMessage(existing, form) == Some(BothTaken) <==> UsernameTaken(existing, form) && EmailTaken(existing, form)
    ensures DuplicateMessage(existing, form) == Some(NameTaken) <==> UsernameTaken(existing, form) && !EmailTaken(existing, form)
    ensures DuplicateMessage(existing, form) == Some(MailTaken) <==> !UsernameTaken(existing, form) && EmailTaken(existing, form)
  {
  }

  /** The record `handleSubmit` stores: trimmed name and group, trimmed lower-case e-mail. */
  function NewUser(form: FormData, createdAt: string): StoredUser {
    StoredUser(Trim(form.username), Trim(form.groupName), ToLower(Trim(form.email)), form.password, createdAt)
  }

  /**
    Once a user is stored, any later submission whose trimmed name or e-mail differs
    from theirs only in letter case is rejected as a duplicate.
   */
  lemma RegisteredUserBlocksDuplicates(existing: seq<StoredUser>, first: FormData, createdAt: string, later: FormData)
    requires ToLower(Trim(later.username)) == ToLower(Trim(first.username)) || ToLower(Trim(later.email)) == ToLower(Trim(first.email))
    ensures DuplicateMessage(existing + [NewUser(first, createdAt)], later).Some?
  {
    var users := existing + [NewUser(first, createdAt)];
    var u := users[|existing|];
    ToLowerIdempotent(Trim(first.email));
    assert ToLower(u.email) == ToLower(Trim(first.email));
  }

  /** The users stored under `registeredUsers`, or none (`?? []`). */
  function StoredUsers(stored: Option<Value>): seq<StoredUser> {
    match stored
    case Some(UserRecords(users)) => users
    case _ => []
  }

  datatype Variant = Success | Danger

  datatype Status = Status(variant: Variant, message: string)

  /** The `RegistrationPage` component's state and the localStorage it writes. */
  class RegistrationPage {
    var form: FormData
    var errors: map<Field, string>
    var touched: set<Field>
    var status: Option<Status>
    const storage: LocalStorage

    constructor (storage: LocalStorage)
      ensures this.storage == storage
      ensures form == EmptyForm && errors == map[] && touched == {} && status == None
    {
      this.storage := storage;
      form, errors, touched, status := EmptyForm, map[], {}, None;
    }

    /** `handleChange` through `updateField`, with the confirmation rechecked against the new password. */
    method UpdateField(field: Field, value: string)
      modifies this`form, this`errors
      ensures form == old(form).With(field, value)
      ensures errors == ErrorsAfterEdit(old(form), old(errors), touched, field, value)
      ensures ErrorsCurrent(old(form), old(errors), touched) ==> ErrorsCurrent(form, errors, touched)
    {
      if ErrorsCurrent(form, errors, touched) {
        EditKeepsErrorsCurrent(form, errors, touched, field, value);
      }
      errors := ErrorsAfterEdit(form, errors, touched, field, value);
      form := form.With(field, value);
    }

    /** `handleBlur`: the field becomes touched and shows the error of its current value. */
    method HandleBlur(field: Field)
      modifies this`touched, this`errors
      ensures touched == old(touched) + {field}
      ensures errors == WithError(old(errors), field, ErrorOf(form, field))
      ensures ErrorsCurrent(form, old(errors), old(touched)) ==> ErrorsCurrent(form, errors, touched)
    {
      if ErrorsCurrent(form, errors, touched) {
        BlurKeepsErrorsCurrent(form, errors, touched, field);
      }
      touched := touched + {field};
      errors := WithError(errors, field, ErrorOf(form, field));
    }

    /** `validateForm`: shows every field's error, marks every field touched, and reports whether there were none. */
    method ValidateForm() returns (ok: bool)
      modifies this`errors, this`touched
      ensures errors == FormErrors(form)
      ensures touched == AllFields
      ensures ok <==> FormValid(form)
    {
      var newErrors := CollectErrors(form);
      errors := newErrors;
      touched := AllFields;
      ok := |newErrors| == 0;
      NoErrorsIffValid(form);
    }

    /**
      `handleSubmit`, with `now` standing for `new Date().toISOString()`. An invalid
      form only shows its errors. A name or e-mail already registered (ignoring case)
      sets the matching danger message and stores nothing. Otherwise the normalised
      record is appended to the stored users, the form is reset and success is shown.
     */
    method HandleSubmit(now: string)
      modifies this`form, this`errors, this`touched, this`status, storage
      ensures var existing := StoredUsers(Lookup(old(storage.entries), UsersKey));
        if !FormValid(old(form)) then
          && form == old(form) && errors == FormErrors(old(form)) && touched == AllFields && status == None
          && storage.entries == old(storage.entries)
        else match DuplicateMessage(existing, old(form))
          case Some(message) =>
            && form == old(form) && errors == map[] && touched == AllFields && status == Some(Status(Danger, message))
            && storage.entries == old(storage.entries)
          case None =>
            && form == EmptyForm && errors == map[] && touched == {} && status == Some(Status(Success, Registered))
            && storage.entries == old(storage.entries)[UsersKey := UserRecords(existing + [NewUser(old(form), now)])]
    {
      status := None;
      var ok := ValidateForm();
      if !ok {
        return;
      }
      NoErrorsIffValid(form);
      var existingUsers := StoredUsers(Lookup(storage.entries, UsersKey));
      var message := DuplicateMessage(existingUsers, form);
      if message.Some? {
        status := Some(Status(Danger, message.value));
        return;
      }
      var newUser := NewUser(form, now);
      storage.Save(UsersKey, UserRecords(existingUsers + [newUser]));
      form, errors, touched := EmptyForm, map[], {};
      status := Some(Status(Success, Registered));
    }
  }
}
