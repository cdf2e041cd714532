/** The profile page's edit form: username and email inputs loaded from the
    signed-in user, a validator, error clearing on typing, a cancel that
    reloads the user's values, and a submit that leaves edit mode only when
    the update reports success. */
module Profile {
  import opened Wrappers
  import opened Text
  import opened Forms

  const Fields: set<Field> := {Username, Email}

  /** The signed-in user as the page sees it; either field may be missing. */
  datatype SessionUser = SessionUser(username: Option<string>, email: Option<string>)

  /** `{ username: user.username || "", email: user.email || "" }`. */
  function FormFor(user: SessionUser): (d: FormData)
    ensures d.Keys == Fields
    ensures d[Username] == user.username.GetOr("") && d[Email] == user.email.GetOr("")
  {
    map[Username := user.username.GetOr(""), Email := user.email.GetOr("")]
  }

  /** `validate`'s errors object. */
  function ProfileErrors(d: FormData): (e: Errors)
    requires Fields <= d.Keys
    ensures e.Keys <= Fields && AllSet(e)
    ensures Username in e <==> d[Username] == ""
    ensures Username in e ==> e[Username] == UsernameRequired
    ensures Email in e <==> EmailRule(d[Email] == "", d[Email]).Some?
    ensures Email in e ==> Some(e[Email]) == EmailRule(d[Email] == "", d[Email])
  {
    var e := Flag(map[], Username, d[Username] == "", UsernameRequired);
    FlagOpt(e, Email, EmailRule(d[Email] == "", d[Email]))
  }

  /** Valid exactly when the username is non-empty and the email contains a
      match of the pattern. */
  lemma ProfileValidIff(d: FormData)
    requires Fields <= d.Keys
    ensures NoErrors(ProfileErrors(d)) <==> d[Username] != "" && MatchesEmail(d[Email])
  {
    var e := ProfileErrors(d);
    if MatchesEmail(d[Email]) {
      EmailShape(d[Email]);
    }
    if !NoErrors(e) {
      var f :| f in e;
    }
  }

  class ProfilePage {
    var editing: bool
    var formData: FormData
    var formErrors: Errors

    ghost predicate Valid()
      reads this
    {
      formData.Keys == Fields
    }

    constructor ()
      ensures Valid() && !editing
      ensures formData == map[Username := "", Email := ""] && formErrors == map[]
    {
      editing := false;
      formData := map[Username := "", Email := ""];
      formErrors := map[];
    }

    /** The effect run when the signed-in user becomes known: the form takes
        the user's values; nothing else changes. */
    method LoadUser(user: SessionUser)
      requires Valid()
      modifies this
      ensures Valid()
      ensures formData == FormFor(user)
      ensures editing == old(editing) && formErrors == old(formErrors)
    {
      formData := FormFor(user);
    }

    /** The "Edit Profile" button. */
    method StartEditing()
      requires Valid()
      modifies this
      ensures Valid() && editing
      ensures formData == old(formData) && formErrors == old(formErrors)
    {
      editing := true;
    }

    /** `handleChange`: the named field takes the typed value and only that
        field's error is blanked, if it was set. */
    method HandleChange(name: Field, value: string)
      requires Valid() && name in Fields
      modifies this
      ensures Valid() && editing == old(editing)
      ensures formData == old(formData)[name := value]
      ensures formErrors == ClearError(old(formErrors), name)
    {
      formData := formData[name := value];
      formErrors := ClearError(formErrors, name);
    }

    /** `validate`: replaces the errors and reports whether there are none. */
    method Validate() returns (ok: bool)
      requires Valid()
      modifies this
      ensures Valid() && formData == old(formData) && editing == old(editing)
      ensures formErrors == ProfileErrors(formData)
      ensures ok <==> NoErrors(formErrors)
    {
      formErrors := ProfileErrors(formData);
      ok := formErrors == map[];
    }

    /** `handleSubmit`: `updateProfile(formData)` is called exactly when the
        form validates, and `success` is what it reports; edit mode ends only
        on success. */
    method HandleSubmit(success: bool) returns (called: bool)
      requires Valid()
      modifies this
      ensures Valid() && formData == old(formData)
      ensures formErrors == ProfileErrors(formData)
      ensures called <==> NoErrors(formErrors)
      ensures editing == (old(editing) && !(called && success))
    {
      called := Validate();
      if called && success {
        editing := false;
      }
    }

    /** The Cancel button: edit mode ends, the form goes back to the user's
        current values and every error is dropped. */
    method Cancel(user: SessionUser)
      requires Valid()
      modifies this
      ensures Valid() && !editing
      ensures formData == FormFor(user) && formErrors == map[]
    {
      editing := false;
      formData := FormFor(user);
      formErrors := map[];
    }
  }
}
