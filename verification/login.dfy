/** The login form (src/pages/Login.js): the ordered chain of checks run on
    submit and what the form stores or shows after the backend answers. */
module LoginForm {
  import opened Optional
  import Email
  import opened Auth
  import SignupForm
  import Text

  /** The two inputs of the form. */
  datatype Fields = Fields(email: string, password: string)

  const BothRequired := "Please enter both email and password"
  const BadEmail := "Please enter a valid email address"
  const PasswordTooShort := "Password must be at least 6 characters"
  const LoginFailed := "Login failed. Please try again."

  /** The shortest password the login form lets through (sign-up asks for 8). */
  const MinPassword := 6

  /** The checks of `handleLogin`, in order; the message of the first one
      that fails, or `None` when the form may be sent. */
  function Validate(f: Fields): (r: Option<string>)
    ensures r == Some(BothRequired) <==> f.email == "" || f.password == ""
    ensures r == Some(BadEmail) <==> f.email != "" && f.password != "" && !Email.IsValid(f.email)
    ensures r == Some(PasswordTooShort) <==>
              f.email != "" && f.password != "" && Email.IsValid(f.email) && |f.password| < MinPassword
    ensures r.None? <==> Email.IsValid(f.email) && |f.password| >= MinPassword
  {
    if f.email == "" || f.password == "" then Some(BothRequired)
    else if !Email.IsValid(f.email) then Some(BadEmail)
    else if |f.password| < MinPassword then Some(PasswordTooShort)
    else None
  }

  /** What the form leaves in browser storage under the session key: nothing
      new, or `data.user` as the backend sent it (possibly absent). */
  datatype Stored = Untouched | Wrote(user: Option<User>)

  /** The form after a submit: the request sent (if any), the error banner
      (`""` when none), the success banner and the stored session. */
  datatype Outcome = Outcome(request: Option<Fields>, error: string, success: bool, stored: Stored)

  /** `handleLogin` with the round trip's result as a parameter. `storeThrows`
      says whether writing the session after a 2xx answer throws: reading
      `data.user` off a `null` body, or a storage write the browser refuses.
      The success banner is already set by then, so the catch block adds the
      connection message beside it and nothing is stored. */
  function HandleLogin(f: Fields, reply: Exchange, storeThrows: bool): (r: Outcome)
    ensures r.request.Some? <==> Validate(f).None?
    ensures r.request.Some? ==> r.request.value == f
    ensures Validate(f).Some? ==> r.error == Validate(f).value && !r.success && r.stored == Untouched
    ensures r.success <==> Validate(f).None? && reply.Answered? && IsOk(reply.status)
    ensures r.success && !storeThrows ==> r.error == "" && r.stored == Wrote(reply.body.user)
    ensures r.success && storeThrows ==> r.error == ConnectionError && r.stored == Untouched
    ensures r.stored.Wrote? <==> r.success && !storeThrows
    ensures Validate(f).None? && reply.Threw? ==> r.error == ConnectionError
    ensures Validate(f).None? && reply.Answered? && !IsOk(reply.status) ==>
              r.error == MessageOr(reply.body, LoginFailed)
    ensures r.error == "" <==> r.success && !storeThrows
  {
    match Validate(f)
    case Some(msg) => Outcome(None, msg, false, Untouched)
    case None =>
      match reply
      case Threw => Outcome(Some(f), ConnectionError, false, Untouched)
      case Answered(status, body) =>
        if !IsOk(status) then Outcome(Some(f), MessageOr(body, LoginFailed), false, Untouched)
        else if storeThrows then Outcome(Some(f), ConnectionError, true, Untouched)
        else Outcome(Some(f), "", true, Wrote(body.user))
  }

  /** Credentials the sign-up form accepts always pass the login checks. */
  lemma SignupAcceptedPassesLogin(s: SignupForm.Fields)
    requires SignupForm.Validate(s).None?
    ensures Validate(Fields(s.email, s.password)).None?
  {
  }

  /** A concrete address the e-mail check accepts. */
  lemma ExampleAddressValid()
    ensures Email.IsValid("a@b.co")
  {
    var e := "a@b.co";
    assert e[1] == '@' && e[..1] == "a" && e[2..] == "b.co";
    assert "b.co"[1] == '.';
  }

  /** A concrete name the sign-up form accepts. */
  lemma ExampleNameValid()
    ensures SignupForm.ValidName("Al")
  {
    assert Text.TrimStart("Al") == "Al";
    assert Text.TrimEnd("Al") == "Al";
  }

  /** The two thresholds differ: a six-character password is accepted here ... */
  lemma SixCharactersLogIn()
    ensures Validate(Fields("a@b.co", "secret")).None?
  {
    ExampleAddressValid();
  }

  /** ... and rejected by the sign-up form. */
  lemma SixCharactersDoNotSignUp()
    ensures SignupForm.Validate(SignupForm.Fields("Al", "a@b.co", "secret", "secret"))
         == Some(SignupForm.PasswordTooShort)
  {
    var f := SignupForm.Fields("Al", "a@b.co", "secret", "secret");
    assert SignupForm.AllFilled(f);
    ExampleNameValid();
    assert SignupForm.ValidName(f.name);
    ExampleAddressValid();
    assert Email.IsValid(f.email);
    assert !SignupForm.ValidPassword(f.password);
  }
}
