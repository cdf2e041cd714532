/** What the account forms (signup, register, login, profile) share: the
    field names, the form-data and errors objects keyed by them, the error
    messages, the email and password rules, and the way typing into a field
    blanks that field's error. */
module Forms {
  import opened Wrappers
  import opened Text

  /** The `name` attribute of an account form's inputs. */
  datatype Field = Username | Email | Password | ConfirmPassword

  /** `formData`: one string per input of the form. */
  type FormData = map<Field, string>

  /** `formErrors`: a message per failing field. Typing may leave a key whose
      message is the empty string. */
  type Errors = map<Field, string>

  const UsernameRequired: string := "Username is required"
  const EmailRequired: string := "Email is required"
  const EmailInvalid: string := "Email is invalid"
  const PasswordRequired: string := "Password is required"
  const PasswordTooShort: string := "Password must be at least 6 characters"
  const PasswordsDiffer: string := "Passwords do not match"

  /** The shortest password the signup and register forms accept. */
  const MinPasswordLength: nat := 6

  /** `errors.f = msg` when `failed`. */
  function Flag(e: Errors, f: Field, failed: bool, msg: string): Errors {
    if failed then e[f := msg] else e
  }

  /** `errors.f = msg` when there is a message. */
  function FlagOpt(e: Errors, f: Field, msg: Option<string>): Errors {
    if msg.Some? then e[f := msg.value] else e
  }

  /** The errors object of a four-field form, built from one optional message
      per field in the order username, email, password, confirmation. */
  function FourFieldErrors(user: Option<string>, email: Option<string>, password: Option<string>,
                           confirm: Option<string>): (e: Errors)
    requires user.Some? ==> user.value != ""
    requires email.Some? ==> email.value != ""
    requires password.Some? ==> password.value != ""
    requires confirm.Some? ==> confirm.value != ""
    ensures AllSet(e)
    ensures e.Keys <= {Username, Email, Password, ConfirmPassword}
    ensures (Username in e <==> user.Some?) && (Username in e ==> e[Username] == user.value)
    ensures (Email in e <==> email.Some?) && (Email in e ==> e[Email] == email.value)
    ensures (Password in e <==> password.Some?) && (Password in e ==> e[Password] == password.value)
    ensures (ConfirmPassword in e <==> confirm.Some?) && (ConfirmPassword in e ==> e[ConfirmPassword] == confirm.value)
  {
    FlagOpt(FlagOpt(FlagOpt(FlagOpt(map[], Username, user), Email, email), Password, password), ConfirmPassword, confirm)
  }

  /** The email rule: "required" when `missing`, else "invalid" unless some
      substring of the raw email matches `\S+@\S+\.\S+`. The forms differ only
      in what counts as missing (the empty string, or blank after trimming). */
  function EmailRule(missing: bool, email: string): (msg: Option<string>)
    ensures msg.None? <==> !missing && MatchesEmail(email)
    ensures missing ==> msg == Some(EmailRequired)
    ensures !missing && !MatchesEmail(email) ==> msg == Some(EmailInvalid)
  {
    if missing then Some(EmailRequired)
    else if !MatchesEmail(email) then Some(EmailInvalid)
    else None
  }

  /** The password rule of the signup and register forms: "required" when
      empty, else too short under six characters. */
  function PasswordRule(password: string): (msg: Option<string>)
    ensures msg.None? <==> |password| >= MinPasswordLength
    ensures password == "" ==> msg == Some(PasswordRequired)
    ensures password != "" && |password| < MinPasswordLength ==> msg == Some(PasswordTooShort)
  {
    if password == "" then Some(PasswordRequired)
    else if |password| < MinPasswordLength then Some(PasswordTooShort)
    else None
  }

  /** Typing into field `f` of a form that clears errors: a set message for
      `f` becomes the empty string; an absent or already empty one stays as
      it is; every other field's message is kept. */
  function ClearError(e: Errors, f: Field): (r: Errors)
    ensures r.Keys == e.Keys
    ensures forall g :: g in e && g != f ==> r[g] == e[g]
    ensures f in e ==> r[f] == ""
  {
    if f in e && e[f] != "" then e[f := ""] else e
  }

  /** `Object.keys(errors).length === 0`. */
  predicate NoErrors(e: Errors) {
    e == map[]
  }

  /** Every message a validator writes is non-empty, so each key it sets
      shows an error. */
  predicate AllSet(e: Errors) {
    forall f :: f in e ==> e[f] != ""
  }
}
