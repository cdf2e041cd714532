/** The register page: the same four inputs as signup, a validator that trims
    the username and the emptiness test of the email, and a change handler
    that never touches the errors. */
module Register {
  import opened Wrappers
  import opened Text
  import opened Forms

  const Fields: set<Field> := {Username, Email, Password, ConfirmPassword}

  /** The arguments `register(username, email, password)` receives. */
  datatype RegisterCall = RegisterCall(username: string, email: string, password: string)

  /** `validate`'s errors object: username and email are missing when blank
      after trimming, but the pattern is applied to the raw email. */
  function RegisterErrors(d: FormData): (e: Errors)
    requires Fields <= d.Keys
    ensures e.Keys <= Fields && AllSet(e)
    ensures Username in e <==> IsBlank(d[Username])
    ensures Username in e ==> e[Username] == UsernameRequired
    ensures Email in e <==> EmailRule(IsBlank(d[Email]), d[Email]).Some?
    ensures Email in e ==> Some(e[Email]) == EmailRule(IsBlank(d[Email]), d[Email])
    ensures Password in e <==> |d[Password]| < MinPasswordLength
    ensures Password in e ==> Some(e[Password]) == PasswordRule(d[Password])
    ensures ConfirmPassword in e <==> d[Password] != d[ConfirmPassword]
    ensures ConfirmPassword in e ==> e[ConfirmPassword] == PasswordsDiffer
  {
    FourFieldErrors(
      if IsBlank(d[Username]) then Some(UsernameRequired) else None,
      EmailRule(IsBlank(d[Email]), d[Email]),
      PasswordRule(d[Password]),
      if d[Password] != d[ConfirmPassword] then Some(PasswordsDiffer) else None)
  }

  /** Valid exactly when username and email are non-blank, the raw email
      contains a match of the pattern, the password has at least six
      characters and the confirmation equals it. */
  lemma RegisterValidIff(d: FormData)
    requires Fields <= d.Keys
    ensures NoErrors(RegisterErrors(d)) <==>
      && !IsBlank(d[Username])
      && !IsBlank(d[Email]) && MatchesEmail(d[Email])
      && |d[Password]| >= MinPasswordLength
      && d[Password] == d[ConfirmPassword]
  {
    var e := RegisterErrors(d);
    if !NoErrors(e) {
      var f :| f in e;
    }
  }

  /** Surrounding spaces do not make an email invalid: the pattern is
      unanchored, so " a@b.c " passes. */
  lemma RegisterEmailPadded()
    ensures var d := map[Username := "ann", Email := " a@b.c ", Password := "secret", ConfirmPassword := "secret"];
      Email !in RegisterErrors(d)
  {
    EmailExample();
    BlankNotEmail(" a@b.c ");
  }

  class RegisterPage {
    var formData: FormData
    var formErrors: Errors

    ghost predicate Valid()
      reads this
    {
      formData.Keys == Fields
    }

    constructor ()
      ensures Valid()
      ensures formData == map[Username := "", Email := "", Password := "", ConfirmPassword := ""]
      ensures formErrors == map[]
    {
      formData := map[Username := "", Email := "", Password := "", ConfirmPassword := ""];
      formErrors := map[];
    }

    /** `handleChange`: exactly one field is replaced; the errors stay as
        they are. */
    method HandleChange(name: Field, value: string)
      requires Valid()
      modifies this
      ensures Valid()
      ensures formData == old(formData)[name := value]
      ensures formErrors == old(formErrors)
    {
      formData := formData[name := value];
    }

    /** `validate`: replaces the errors and reports whether there are none. */
    method Validate() returns (ok: bool)
      requires Valid()
      modifies this
      ensures Valid() && formData == old(formData)
      ensures formErrors == RegisterErrors(formData)
      ensures ok <==> NoErrors(formErrors)
    {
      formErrors := RegisterErrors(formData);
      ok := formErrors == map[];
    }

    /** `handleSubmit`: `register` is called exactly when the form validates,
        with the raw username, email and password. */
    method HandleSubmit() returns (call: Option<RegisterCall>)
      requires Valid()
      modifies this
      ensures Valid() && formData == old(formData)
      ensures formErrors == RegisterErrors(formData)
      ensures call.Some? <==> NoErrors(formErrors)
      ensures call.Some? ==>
        call.value == RegisterCall(formData[Username], formData[Email], formData[Password])
    {
      var ok := Validate();
      if ok {
        call := Some(RegisterCall(formData[Username], formData[Email], formData[Password]));
      } else {
        call := None;
      }
    }
  }
}
