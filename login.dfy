/** The login page: email and password inputs, a validator with no length
    rule, and error clearing on typing. */
module Login {
  import opened Wrappers
  import opened Text
  import opened Forms

  const Fields: set<Field> := {Email, Password}

  /** The arguments `login(email, password)` receives. */
  datatype Credentials = Credentials(email: string, password: string)

  /** `validate`'s errors object. */
  function LoginErrors(d: FormData): (e: Errors)
    requires Fields <= d.Keys
    ensures e.Keys <= Fields && AllSet(e)
    ensures Email in e <==> EmailRule(d[Email] == "", d[Email]).Some?
    ensures Email in e ==> Some(e[Email]) == EmailRule(d[Email] == "", d[Email])
    ensures Password in e <==> d[Password] == ""
    ensures Password in e ==> e[Password] == PasswordRequired
  {
    var e := FlagOpt(map[], Email, EmailRule(d[Email] == "", d[Email]));
    Flag(e, Password, d[Password] == "", PasswordRequired)
  }

  /** Valid exactly when the email contains a match of the pattern and the
      password is non-empty; a one-character password passes. */
  lemma LoginValidIff(d: FormData)
    requires Fields <= d.Keys
    ensures NoErrors(LoginErrors(d)) <==> MatchesEmail(d[Email]) && d[Password] != ""
  {
    var e := LoginErrors(d);
    if MatchesEmail(d[Email]) {
      EmailShape(d[Email]);
    }
    if !NoErrors(e) {
      var f :| f in e;
    }
  }

  class LoginPage {
    var formData: FormData
    var formErrors: Errors

    ghost predicate Valid()
      reads this
    {
      formData.Keys == Fields
    }

    constructor ()
      ensures Valid()
      ensures formData == map[Email := "", Password := ""]
      ensures formErrors == map[]
    {
      formData := map[Email := "", Password := ""];
      formErrors := map[];
    }

    /** `handleChange`: the named field takes the typed value and only that
        field's error is blanked, if it was set. */
    method HandleChange(name: Field, value: string)
      requires Valid() && name in Fields
      modifies this
      ensures Valid()
      ensures formData == old(formData)[name := value]
      ensures formErrors == ClearError(old(formErrors), name)
    {
      formData := formData[name := value];
      formErrors := ClearError(formErrors, name);
    }

    /** `validate`: replaces the errors and reports whether there are none. */
    method Validate() returns (ok: bool)
      requires Valid()
      modifies this
      ensures Valid() && formData == old(formData)
      ensures formErrors == LoginErrors(formData)
      ensures ok <==> NoErrors(formErrors)
    {
      formErrors := LoginErrors(formData);
      ok := formErrors == map[];
    }

    /** `handleSubmit`: `login` is attempted exactly when the form validates. */
    method HandleSubmit() returns (attempt: Option<Credentials>)
      requires Valid()
      modifies this
      ensures Valid() && formData == old(formData)
      ensures formErrors == LoginErrors(formData)
      ensures attempt.Some? <==> NoErrors(formErrors)
      ensures attempt.Some? ==> attempt.value == Credentials(formData[Email], formData[Password])
    {
      var ok := Validate();
      if ok {
        attempt := Some(Credentials(formData[Email], formData[Password]));
      } else {
        attempt := None;
      }
    }
  }
}
