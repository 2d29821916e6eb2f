/** The signup page: the submit handler's validation chain, the email
    pattern it tests, and the redirect for browsers that signed up before. */
module SignupPage {
  import opened Wrappers
  import opened Text
  import Auth

  // ---------------------------------------------------------------------
  // The email pattern  ^[A-Z0-9._%+-]+@[A-Z0-9.-]+\.[A-Z]{2,}$  with the `i` flag

  /** A character of the part before the `@`. */
  predicate LocalChar(c: char) {
    IsAsciiLetter(c) || IsAsciiDigit(c) || c == '.' || c == '_' || c == '%' || c == '+' || c == '-'
  }

  /** A character of the domain name before its final dot. */
  predicate DomainChar(c: char) {
    IsAsciiLetter(c) || IsAsciiDigit(c) || c == '.' || c == '-'
  }

  predicate AllLocal(s: string) { forall i :: 0 <= i < |s| ==> LocalChar(s[i]) }

  predicate AllDomain(s: string) { forall i :: 0 <= i < |s| ==> DomainChar(s[i]) }

  predicate AllLetters(s: string) { forall i :: 0 <= i < |s| ==> IsAsciiLetter(s[i]) }

  /** `e` reads as local part, `@` at `a`, domain name, `.` at `k`, and a
      top-level label of two or more letters. */
  ghost predicate EmailSplit(e: string, a: int, k: int) {
    0 < a && a + 1 < k && k + 2 < |e|
    && e[a] == '@' && e[k] == '.'
    && AllLocal(e[..a]) && AllDomain(e[a + 1..k]) && AllLetters(e[k + 1..])
  }

  /** The language of the pattern: some way to split `e` as above. */
  ghost predicate MatchesEmailPattern(e: string) {
    exists a, k :: EmailSplit(e, a, k)
  }

  /** The position of the first `c` in `s`. */
  function IndexOfChar(s: string, c: char): (r: Option<nat>)
    ensures r.Some? ==> r.value < |s| && s[r.value] == c && forall j :: 0 <= j < r.value ==> s[j] != c
    ensures r.None? ==> forall j :: 0 <= j < |s| ==> s[j] != c
  {
    if |s| == 0 then None
    else if s[0] == c then Some(0)
    else
      match IndexOfChar(s[1..], c)
      case None => None
      case Some(k) => Some(k + 1)
  }

  /** The position of the last `c` in `s`. */
  function LastIndexOfChar(s: string, c: char): (r: Option<nat>)
    ensures r.Some? ==> r.value < |s| && s[r.value] == c && forall j :: r.value < j < |s| ==> s[j] != c
    ensures r.None? ==> forall j :: 0 <= j < |s| ==> s[j] != c
  {
    if |s| == 0 then None
    else if s[|s| - 1] == c then Some(|s| - 1)
    else LastIndexOfChar(s[..|s| - 1], c)
  }

  /** The domain after the `@`: a non-empty name, the last dot, two or more letters. */
  function DomainOk(d: string): bool {
    match LastIndexOfChar(d, '.')
    case None => false
    case Some(k) => 0 < k && k + 2 < |d| && AllDomain(d[..k]) && AllLetters(d[k + 1..])
  }

  /** A deterministic recogniser for the pattern: split at the first `@`,
      then split the rest at its last dot. */
  function IsValidEmail(e: string): bool {
    match IndexOfChar(e, '@')
    case None => false
    case Some(a) => 0 < a && AllLocal(e[..a]) && DomainOk(e[a + 1..])
  }

  /** Every string the recogniser accepts is in the language of the pattern. */
  lemma EmailRecogniserSound(e: string)
    requires IsValidEmail(e)
    ensures MatchesEmailPattern(e)
  {
    var a := IndexOfChar(e, '@').value;
    var d := e[a + 1..];
    var k' := LastIndexOfChar(d, '.').value;
    var k := a + 1 + k';
    assert e[a + 1..k] == d[..k'];
    assert e[k + 1..] == d[k' + 1..];
    assert EmailSplit(e, a, k);
  }

  /** In a split, the `@` is the only one and the dot at `k` is the last dot. */
  lemma SplitPositions(e: string, a: int, k: int)
    requires EmailSplit(e, a, k)
    ensures forall j :: 0 <= j < |e| && j != a ==> e[j] != '@'
    ensures forall j :: k < j < |e| ==> e[j] != '.'
  {
    forall j | 0 <= j < a ensures e[j] != '@' {
      assert e[..a][j] == e[j];
    }
    forall j | a < j < k ensures e[j] != '@' {
      assert e[a + 1..k][j - a - 1] == e[j];
    }
    forall j | k < j < |e| ensures e[j] != '@' && e[j] != '.' {
      assert e[k + 1..][j - k - 1] == e[j];
    }
  }

  /** Every string in the language of the pattern is accepted by the recogniser. */
  lemma EmailRecogniserComplete(e: string)
    requires MatchesEmailPattern(e)
    ensures IsValidEmail(e)
  {
    var a, k :| EmailSplit(e, a, k);
    SplitPositions(e, a, k);
    assert IndexOfChar(e, '@') == Some(a);
    var d := e[a + 1..];
    var k' := k - a - 1;
    assert d[k'] == '.';
    assert forall j :: k' < j < |d| ==> d[j] == e[j + a + 1];
    assert LastIndexOfChar(d, '.') == Some(k');
    assert d[..k'] == e[a + 1..k];
    assert d[k' + 1..] == e[k + 1..];
  }

  /** The recogniser accepts exactly the language of the pattern. */
  lemma EmailRecogniserCorrect(e: string)
    ensures IsValidEmail(e) <==> MatchesEmailPattern(e)
  {
    if IsValidEmail(e) { EmailRecogniserSound(e); }
    if MatchesEmailPattern(e) { EmailRecogniserComplete(e); }
  }

  /** An accepted email holds exactly one `@`. */
  lemma AcceptedEmailHasOneAt(e: string)
    requires MatchesEmailPattern(e)
    ensures exists a :: 0 <= a < |e| && e[a] == '@' && forall i :: 0 <= i < |e| && e[i] == '@' ==> i == a
  {
    var a, k :| EmailSplit(e, a, k);
    SplitPositions(e, a, k);
  }

  // ---------------------------------------------------------------------
  // The submit handler

  const MinPasswordLength := 8
  const LoginPath := "/login"

  /** The three messages the handler can show, in the order it checks them. */
  datatype SignupError = EmptyField | PasswordTooShort | InvalidEmail

  /** The validation chain: all fields non-empty, then the password length,
      then the email pattern; the first failing check decides the error. On
      success the user passed on is made of the name and email only. */
  function ValidateSignup(name: string, email: string, password: string): (r: Result<Auth.User, SignupError>)
    ensures r == Failure(EmptyField) <==> name == "" || email == "" || password == ""
    ensures r == Failure(PasswordTooShort)
            <==> name != "" && email != "" && password != "" && |password| < MinPasswordLength
    ensures r == Failure(InvalidEmail)
            <==> name != "" && email != "" && |password| >= MinPasswordLength && !MatchesEmailPattern(email)
    ensures r.Success? <==> name != "" && |password| >= MinPasswordLength && MatchesEmailPattern(email)
    ensures r.Success? ==> r.value == Auth.User(name, email)
  {
    EmailRecogniserCorrect(email);
    if name == "" || email == "" || password == "" then Failure(EmptyField)
    else if |password| < MinPasswordLength then Failure(PasswordTooShort)
    else if !IsValidEmail(email) then Failure(InvalidEmail)
    else Success(Auth.User(name, email))
  }

  /** What a submission leaves behind: the auth session, the error shown if
      any, and the page navigated to if any. */
  datatype SignupOutcome = SignupOutcome(session: Auth.Session, error: Option<SignupError>, navigateTo: Option<string>)

  /** `handleSubmit`: on a failed check the session is untouched and nothing
      navigates; otherwise `signup` runs with `{name, email}` and the page
      navigates to the login page. */
  function SubmitSignup(sess: Auth.Session, name: string, email: string, password: string): (r: SignupOutcome)
    ensures r.error.Some? <==> ValidateSignup(name, email, password).Failure?
    ensures r.error.Some? ==> r.error.value == ValidateSignup(name, email, password).error
                              && r.session == sess && r.navigateTo == None
    ensures r.error.None? ==> r.session == Auth.Signup(sess, Auth.User(name, email))
                              && r.navigateTo == Some(LoginPath)
  {
    match ValidateSignup(name, email, password)
    case Failure(e) => SignupOutcome(sess, Some(e), None)
    case Success(u) => SignupOutcome(Auth.Signup(sess, u), None, Some(LoginPath))
  }

  /** The page's own redirect: a browser that signed up before goes to the login page. */
  function SignupRedirect(hasSignedUpBefore: bool): (r: Option<string>)
    ensures r.Some? <==> hasSignedUpBefore
    ensures r.Some? ==> r.value == LoginPath
  {
    if hasSignedUpBefore then Some(LoginPath) else None
  }

  /** After an accepted submission the page would redirect to the login page
      on its next render, and the stored flag is raised. */
  lemma AcceptedSignupRaisesFlag(sess: Auth.Session, name: string, email: string, password: string)
    requires SubmitSignup(sess, name, email, password).error.None?
    ensures SignupRedirect(SubmitSignup(sess, name, email, password).session.state.hasSignedUpBefore) == Some(LoginPath)
    ensures Auth.StoredFlag(SubmitSignup(sess, name, email, password).session.storage)
  {
  }

  /** A password of seven characters is too short; one of exactly eight passes
      the length check and a well-formed email then passes the whole chain. */
  lemma PasswordLengthBoundary()
    ensures ValidateSignup("Ann", "ann@mail.io", "1234567") == Failure(PasswordTooShort)
    ensures ValidateSignup("Ann", "ann@mail.io", "12345678") == Success(Auth.User("Ann", "ann@mail.io"))
  {
    assert EmailSplit("ann@mail.io", 3, 8);
  }
}
