/** The signup page: four inputs, a validator that checks them untrimmed, and
    error clearing on typing. */
module Signup {
  import opened Wrappers
  import opened Text
  import opened Forms

  const Fields: set<Field> := {Username, Email, Password, ConfirmPassword}

  /** What `signup` receives: the confirmation is not part of it. */
  datatype SignupRequest = SignupRequest(username: string, email: string, password: string)

  /** `validate`'s errors object for the current form data. */
  function SignupErrors(d: FormData): (e: Errors)
    requires Fields <= d.Keys
    ensures e.Keys <= Fields && AllSet(e)
    ensures Username in e <==> d[Username] == ""
    ensures Username in e ==> e[Username] == UsernameRequired
    ensures Email in e <==> EmailRule(d[Email] == "", d[Email]).Some?
    ensures Email in e ==> Some(e[Email]) == EmailRule(d[Email] == "", d[Email])
    ensures Password in e <==> |d[Password]| < MinPasswordLength
    ensures Password in e ==> Some(e[Password]) == PasswordRule(d[Password])
    ensures ConfirmPassword in e <==> d[Password] != d[ConfirmPassword]
    ensures ConfirmPassword in e ==> e[ConfirmPassword] == PasswordsDiffer
  {
    FourFieldErrors(
      if d[Username] == "" then Some(UsernameRequired) else None,
      EmailRule(d[Email] == "", d[Email]),
      PasswordRule(d[Password]),
      if d[Password] != d[ConfirmPassword] then Some(PasswordsDiffer) else None)
  }

  /** The form is valid exactly when the username is non-empty, the email
      contains a match of the pattern, the password has at least six
      characters and the confirmation equals it. */
  lemma SignupValidIff(d: FormData)
    requires Fields <= d.Keys
    ensures NoErrors(SignupErrors(d)) <==>
      && d[Username] != ""
      && d[Email] != "" && MatchesEmail(d[Email])
      && |d[Password]| >= MinPasswordLength
      && d[Password] == d[ConfirmPassword]
  {
    var e := SignupErrors(d);
    if !NoErrors(e) {
      var f :| f in e;
    }
  }

  /** A blank but non-empty username passes: the check is not trimmed. */
  lemma SignupUsernameUntrimmed()
    ensures var d := map[Username := " ", Email := "a@b.c", Password := "secret", ConfirmPassword := "secret"];
      NoErrors(SignupErrors(d))
  {
    var d := map[Username := " ", Email := "a@b.c", Password := "secret", ConfirmPassword := "secret"];
    EmailExample();
    SignupValidIff(d);
  }

  class SignupPage {
    var formData: FormData
    var formErrors: Errors

    ghost predicate Valid()
      reads this
    {
      formData.Keys == Fields
    }

    constructor ()
      ensures Valid()
      ensures formData == map[Username := "", Email := "", Password := "", ConfirmPassword := ""]
      ensures formErrors == map[]
    {
      formData := map[Username := "", Email := "", Password := "", ConfirmPassword := ""];
      formErrors := map[];
    }

    /** `handleChange`: the named field takes the typed value and only that
        field's error is blanked, if it was set. */
    method HandleChange(name: Field, value: string)
      requires Valid()
      modifies this
      ensures Valid()
      ensures formData == old(formData)[name := value]
      ensures formErrors == ClearError(old(formErrors), name)
    {
      formData := formData[name := value];
      formErrors := ClearError(formErrors, name);
    }

    /** `validate`: replaces the errors and reports whether there are none. */
    method Validate() returns (ok: bool)
      requires Valid()
      modifies this
      ensures Valid() && formData == old(formData)
      ensures formErrors == SignupErrors(formData)
      ensures ok <==> NoErrors(formErrors)
    {
      formErrors := SignupErrors(formData);
      ok := formErrors == map[];
    }

    /** `handleSubmit`: `signup` is called, with username, email and password,
        exactly when the form validates. */
    method HandleSubmit() returns (request: Option<SignupRequest>)
      requires Valid()
      modifies this
      ensures Valid() && formData == old(formData)
      ensures formErrors == SignupErrors(formData)
      ensures request.Some? <==> NoErrors(formErrors)
      ensures request.Some? ==>
        request.value == SignupRequest(formData[Username], formData[Email], formData[Password])
    {
      var ok := Validate();
      if ok {
        request := Some(SignupRequest(formData[Username], formData[Email], formData[Password]));
      } else {
        request := None;
      }
    }
  }
}
