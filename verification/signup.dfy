/** The sign-up form (src/pages/Signup.js): three field validators, the
    ordered chain of checks run on submit, and what the form shows after the
    backend answers. */
module SignupForm {
  import opened Optional
  import opened Text
  import Email
  import opened Auth

  /** The four inputs of the form. */
  datatype Fields = Fields(name: string, email: string, password: string, confirmPassword: string)

  /** The body posted to the sign-up endpoint. */
  datatype Credentials = Credentials(name: string, email: string, password: string)

  const FillAll := "Please fill in all fields"
  const NameTooShort := "Full name must be at least 2 characters"
  const BadEmail := "Please enter a valid email address"
  const PasswordTooShort := "Password must be at least 8 characters"
  const Mismatch := "Passwords do not match"
  const SignupFailed := "Signup failed. Please try again."

  /** The status the sign-up endpoint answers with when an account was made. */
  const Created := 201

  /** `validatePassword`: at least eight characters. */
  predicate ValidPassword(p: string) {
    |p| >= 8
  }

  /** `validateName`: at least two characters once white space is trimmed. */
  predicate ValidName(n: string) {
    |Trim(n)| >= 2
  }

  /** A name is long enough exactly when it has two characters that are not
      white space: trimming keeps everything from the first such character
      to the last. */
  lemma ValidNameIffTwoVisible(n: string)
    ensures ValidName(n) <==> exists i, j :: 0 <= i < j < |n| && !IsSpace(n[i]) && !IsSpace(n[j])
  {
    var r := Trim(n);
    var a, b :| 0 <= a <= b <= |n| && r == n[a..b] && AllSpace(n[..a]) && AllSpace(n[b..]);
    TwoVisibleInSlice(n, r, a, b);
  }

  /** For a slice `r == n[a..b]` between blank ends whose own ends are not
      blank, `r` has two characters exactly when `n` has two non-blank ones. */
  lemma TwoVisibleInSlice(n: string, r: string, a: int, b: int)
    requires 0 <= a <= b <= |n| && r == n[a..b] && AllSpace(n[..a]) && AllSpace(n[b..])
    requires r == [] || (!IsSpace(r[0]) && !IsSpace(r[|r| - 1]))
    ensures |r| >= 2 <==> exists i, j :: 0 <= i < j < |n| && !IsSpace(n[i]) && !IsSpace(n[j])
  {
    if |r| >= 2 {
      assert n[a] == r[0] && n[b - 1] == r[|r| - 1];
    }
    if exists i, j :: 0 <= i < j < |n| && !IsSpace(n[i]) && !IsSpace(n[j]) {
      var i, j :| 0 <= i < j < |n| && !IsSpace(n[i]) && !IsSpace(n[j]);
      assert a <= i && j < b;
    }
  }

  /** No field is empty (the chain's first test, which does not trim). */
  predicate AllFilled(f: Fields) {
    f.name != "" && f.email != "" && f.password != "" && f.confirmPassword != ""
  }

  /** The checks of `handleSignup`, in order; the message of the first one
      that fails, or `None` when the form may be sent. */
  function Validate(f: Fields): (r: Option<string>)
    ensures r == Some(FillAll) <==> !AllFilled(f)
    ensures r == Some(NameTooShort) <==> AllFilled(f) && !ValidName(f.name)
    ensures r == Some(BadEmail) <==> AllFilled(f) && ValidName(f.name) && !Email.IsValid(f.email)
    ensures r == Some(PasswordTooShort) <==>
              AllFilled(f) && ValidName(f.name) && Email.IsValid(f.email) && !ValidPassword(f.password)
    ensures r == Some(Mismatch) <==>
              AllFilled(f) && ValidName(f.name) && Email.IsValid(f.email) && ValidPassword(f.password)
              && f.password != f.confirmPassword
    ensures r.None? <==>
              AllFilled(f) && ValidName(f.name) && Email.IsValid(f.email) && ValidPassword(f.password)
              && f.password == f.confirmPassword
  {
    if !AllFilled(f) then Some(FillAll)
    else if !ValidName(f.name) then Some(NameTooShort)
    else if !Email.IsValid(f.email) then Some(BadEmail)
    else if !ValidPassword(f.password) then Some(PasswordTooShort)
    else if f.password != f.confirmPassword then Some(Mismatch)
    else None
  }

  /** The form after a submit: the request sent (if any), the error banner
      (`""` when none), the success banner, and the four inputs. */
  datatype Outcome = Outcome(request: Option<Credentials>, error: string, success: bool, fields: Fields)

  /** `handleSignup` with the round trip's result as a parameter. The inputs
      are cleared only when the backend answers 201. */
  function HandleSignup(f: Fields, reply: Exchange): (r: Outcome)
    ensures r.request.Some? <==> Validate(f).None?
    ensures r.request.Some? ==> r.request.value == Credentials(f.name, f.email, f.password)
    ensures Validate(f).Some? ==> r.error == Validate(f).value && !r.success && r.fields == f
    ensures r.success <==> Validate(f).None? && reply.Answered? && reply.status == Created
    ensures r.success ==> r.error == "" && r.fields == Fields("", "", "", "")
    ensures Validate(f).None? && reply.Threw? ==> r.error == ConnectionError && r.fields == f
    ensures Validate(f).None? && reply.Answered? && reply.status != Created ==>
              r.error == MessageOr(reply.body, SignupFailed) && r.fields == f
    ensures r.error == "" <==> r.success
  {
    match Validate(f)
    case Some(msg) => Outcome(None, msg, false, f)
    case None =>
      var sent := Some(Credentials(f.name, f.email, f.password));
      match reply
      case Threw => Outcome(sent, ConnectionError, false, f)
      case Answered(status, body) =>
        if status == Created then Outcome(sent, "", true, Fields("", "", "", ""))
        else Outcome(sent, MessageOr(body, SignupFailed), false, f)
  }

  /** A name of white space only is not empty, so it gets past the first
      check and is stopped by the name check. */
  lemma BlankNameStoppedByNameCheck(f: Fields)
    requires AllFilled(f) && forall k :: 0 <= k < |f.name| ==> IsSpace(f.name[k])
    ensures Validate(f) == Some(NameTooShort)
  {
    assert Trim(f.name) == "";
  }

  /** Mismatched but otherwise valid passwords: the mismatch message and no request. */
  lemma MismatchSendsNothing(f: Fields, reply: Exchange)
    requires AllFilled(f) && ValidName(f.name) && Email.IsValid(f.email) && ValidPassword(f.password)
    requires f.password != f.confirmPassword
    ensures HandleSignup(f, reply) == Outcome(None, Mismatch, false, f)
  {
  }
}
