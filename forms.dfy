/**
 * The web forms' validation rules: the registration form's two lookups against
 * the user table and the declared field constraints of the registration and
 * profile forms.
 */
module Forms {

  /** The part of a `user` row that the validators look at. */
  datatype User = User(id: int, username: string, email: string)

  /** The two columns the registration validators look up. */
  datatype Column = UsernameColumn | EmailColumn

  datatype FormField = UsernameField | EmailField | PasswordField | Password2Field | AboutMeField

  /** Which validator rejected a field; `Custom` carries the source's own message. */
  datatype Violation = DataRequired | EqualTo(other: FormField) | Length(max: nat) | Custom(message: string)

  datatype FormError = FormError(field: FormField, violation: Violation)

  datatype Option<T> = None | Some(value: T)

  /** The longest About-me text the profile form accepts. */
  const AboutMeMax: nat := 140

  const UsernameTakenMessage := "Please use a different username"
  const EmailTakenMessage := "Please use a different email"

  function ColumnOf(u: User, c: Column): string {
    match c
    case UsernameColumn => u.username
    case EmailColumn => u.email
  }

  /** `User.query.filter_by(<column>=value).first()`: exact, case-sensitive equality. */
  function FirstWith(users: seq<User>, c: Column, value: string): (r: Option<User>)
    ensures r.Some? ==> r.value in users && ColumnOf(r.value, c) == value
    ensures r.None? <==> forall u :: u in users ==> ColumnOf(u, c) != value
  {
    if users == [] then None
    else if ColumnOf(users[0], c) == value then Some(users[0])
    else
      assert forall u :: u in users ==> u == users[0] || u in users[1..];
      FirstWith(users[1..], c, value)
  }

  /** `validate_username`: `None` when the name is free, the error message otherwise. */
  function ValidateUsername(users: seq<User>, username: string): (r: Option<string>)
    ensures r.Some? <==> exists u :: u in users && u.username == username
    ensures r.Some? ==> r.value == UsernameTakenMessage
  {
    match FirstWith(users, UsernameColumn, username)
    case Some(_) => Some(UsernameTakenMessage)
    case None => None
  }

  /** `validate_email`: `None` when the address is free, the error message otherwise. */
  function ValidateEmail(users: seq<User>, email: string): (r: Option<string>)
    ensures r.Some? <==> exists u :: u in users && u.email == email
    ensures r.Some? ==> r.value == EmailTakenMessage
  {
    match FirstWith(users, EmailColumn, email)
    case Some(_) => Some(EmailTakenMessage)
    case None => None
  }

  /** The characters Python's `str.isspace` (and so `str.strip`) treats as whitespace. */
  predicate IsWhitespace(c: char) {
    || ('\U{9}' <= c <= '\U{D}')
    || ('\U{1C}' <= c <= '\U{20}')
    || c == '\U{85}' || c == '\U{A0}' || c == '\U{1680}'
    || ('\U{2000}' <= c <= '\U{200A}')
    || c == '\U{2028}' || c == '\U{2029}' || c == '\U{202F}' || c == '\U{205F}' || c == '\U{3000}'
  }

  /** A field has data: some character of it is not whitespace. */
  predicate HasData(s: string) {
    exists i :: 0 <= i < |s| && !IsWhitespace(s[i])
  }

  /** `s` with its leading whitespace removed. */
  function TrimStart(s: string): (r: string)
    ensures |r| <= |s| && r == s[|s| - |r|..]
    ensures r != [] ==> !IsWhitespace(r[0])
    ensures forall i :: 0 <= i < |s| - |r| ==> IsWhitespace(s[i])
  {
    if s != [] && IsWhitespace(s[0]) then TrimStart(s[1..]) else s
  }

  /** `s` with its trailing whitespace removed. */
  function TrimEnd(s: string): (r: string)
    ensures |r| <= |s| && r == s[..|r|]
    ensures r != [] ==> !IsWhitespace(r[|r| - 1])
    ensures forall i :: |r| <= i < |s| ==> IsWhitespace(s[i])
  {
    if s != [] && IsWhitespace(s[|s| - 1]) then TrimEnd(s[..|s| - 1]) else s
  }

  /** Python's `str.strip()` with no argument. */
  function Strip(s: string): (r: string)
    ensures r == [] <==> forall i :: 0 <= i < |s| ==> IsWhitespace(s[i])
  {
    TrimEnd(TrimStart(s))
  }

  /**
   * `DataRequired`: the field fails when its data is empty or strips to nothing, and
   * the failure stops the field's validator chain.
   */
  function Required(s: string): (r: Option<Violation>)
    ensures r.None? <==> HasData(s)
    ensures r.Some? ==> r.value == DataRequired
  {
    if s == "" || Strip(s) == "" then Some(DataRequired) else None
  }

  /** The errors of one field: `DataRequired` first, then its other validators in order. */
  function FieldErrors(field: FormField, data: string, others: seq<Option<Violation>>): (r: seq<FormError>)
    ensures r == [] <==> HasData(data) && forall k :: 0 <= k < |others| ==> others[k].None?
    ensures !HasData(data) ==> r == [FormError(field, DataRequired)]
    ensures forall k :: HasData(data) && 0 <= k < |others| && others[k].Some? ==> FormError(field, others[k].value) in r
    ensures forall e :: HasData(data) && e in r ==>
      e.field == field && exists k :: 0 <= k < |others| && others[k] == Some(e.violation)
  {
    match Required(data)
    case Some(v) => [FormError(field, v)]
    case None => Failures(field, others)
  }

  /** One error per failing validator, in chain order. */
  function Failures(field: FormField, checks: seq<Option<Violation>>): (r: seq<FormError>)
    ensures r == [] <==> forall k :: 0 <= k < |checks| ==> checks[k].None?
    ensures forall k :: 0 <= k < |checks| && checks[k].Some? ==> FormError(field, checks[k].value) in r
    ensures forall e :: e in r ==> e.field == field && exists k :: 0 <= k < |checks| && checks[k] == Some(e.violation)
    ensures |r| <= |checks|
  {
    if checks == [] then []
    else
      var rest := Failures(field, checks[1..]);
      assert forall k :: 1 <= k < |checks| ==> checks[k] == checks[1..][k - 1];
      match checks[0]
      case Some(v) => [FormError(field, v)] + rest
      case None => rest
  }

  function AsViolation(message: Option<string>): Option<Violation> {
    match message
    case Some(m) => Some(Custom(m))
    case None => None
  }

  datatype RegistrationForm = RegistrationForm(username: string, email: string, password: string, password2: string)

  /** Every error the registration form reports, field by field in declaration order. */
  function RegistrationErrors(users: seq<User>, f: RegistrationForm): (r: seq<FormError>)
    ensures r == [] <==>
      && HasData(f.username) && (forall u :: u in users ==> u.username != f.username)
      && HasData(f.email) && (forall u :: u in users ==> u.email != f.email)
      && HasData(f.password)
      && HasData(f.password2) && f.password2 == f.password
  {
    var username := FieldErrors(UsernameField, f.username, [AsViolation(ValidateUsername(users, f.username))]);
    var email := FieldErrors(EmailField, f.email, [AsViolation(ValidateEmail(users, f.email))]);
    var password := FieldErrors(PasswordField, f.password, []);
    var password2 := FieldErrors(Password2Field, f.password2,
      [if f.password2 == f.password then None else Some(EqualTo(PasswordField))]);
    username + email + password + password2
  }

  /** A taken username is reported on the username field with the source's message. */
  lemma TakenUsernameReported(users: seq<User>, f: RegistrationForm, u: User)
    requires u in users && u.username == f.username && HasData(f.username)
    ensures FormError(UsernameField, Custom(UsernameTakenMessage)) in RegistrationErrors(users, f)
  {
  }

  /** A taken email address is reported on the email field with the source's message. */
  lemma TakenEmailReported(users: seq<User>, f: RegistrationForm, u: User)
    requires u in users && u.email == f.email && HasData(f.email)
    ensures FormError(EmailField, Custom(EmailTakenMessage)) in RegistrationErrors(users, f)
  {
  }

  /** A repeat password that differs from the password is reported on the repeat field. */
  lemma PasswordMismatchReported(users: seq<User>, f: RegistrationForm)
    requires HasData(f.password2) && f.password2 != f.password
    ensures FormError(Password2Field, EqualTo(PasswordField)) in RegistrationErrors(users, f)
  {
  }

  datatype EditProfileForm = EditProfileForm(username: string, aboutMe: string)

  /** Every error the profile form reports. */
  function EditProfileErrors(f: EditProfileForm): (r: seq<FormError>)
    ensures r == [] <==> HasData(f.username) && HasData(f.aboutMe) && |f.aboutMe| <= AboutMeMax
    ensures HasData(f.aboutMe) && |f.aboutMe| > AboutMeMax ==> FormError(AboutMeField, Length(AboutMeMax)) in r
  {
    var username := FieldErrors(UsernameField, f.username, []);
    var aboutMe := FieldErrors(AboutMeField, f.aboutMe,
      [if |f.aboutMe| <= AboutMeMax then None else Some(Length(AboutMeMax))]);
    username + aboutMe
  }
}
