/** The login page: the submit handler's check, the email it derives from the
    username, and the redirect for a user who is already logged in. */
module LoginPage {
  import opened Wrappers
  import opened Text
  import Auth

  const EmailSuffix := "@example.com"
  const DashboardPath := "/dashboard"

  // ---------------------------------------------------------------------
  // replace(/\s+/g, '.')

  /** Replaces each maximal run of whitespace by one dot, scanning left to
      right; `inRun` says whether the character before `s` was whitespace. */
  function CollapseFrom(s: string, inRun: bool): string
    decreases |s|
  {
    if |s| == 0 then []
    else if IsSpace(s[0]) then (if inRun then [] else ['.']) + CollapseFrom(s[1..], true)
    else [s[0]] + CollapseFrom(s[1..], false)
  }

  /** Every maximal whitespace run of `s` replaced by a single `.`. */
  function CollapseWhitespace(s: string): (r: string)
    ensures NoSpace(r)
    ensures NoSpace(s) ==> r == s
  {
    CollapseHasNoSpace(s, false);
    if NoSpace(s) then
      CollapseKeepsWords(s, false);
      CollapseFrom(s, false)
    else
      CollapseFrom(s, false)
  }

  predicate NoSpace(s: string) { forall i :: 0 <= i < |s| ==> !IsSpace(s[i]) }

  predicate AllSpace(s: string) { forall i :: 0 <= i < |s| ==> IsSpace(s[i]) }

  /** Whether the scan is inside a run after reading `a`. */
  function EndsInRun(a: string, inRun: bool): bool {
    if |a| == 0 then inRun else IsSpace(a[|a| - 1])
  }

  /** The scan of `a + b` is the scan of `a` followed by the scan of `b` in
      the state `a` leaves behind. */
  lemma {:induction false} CollapseAppend(a: string, b: string, inRun: bool)
    ensures CollapseFrom(a + b, inRun) == CollapseFrom(a, inRun) + CollapseFrom(b, EndsInRun(a, inRun))
    decreases |a|
  {
    if |a| == 0 {
      assert a + b == b;
    } else {
      var run := IsSpace(a[0]);
      var head := if run then (if inRun then [] else ['.']) else [a[0]];
      var x, y := CollapseFrom(a[1..], run), CollapseFrom(b, EndsInRun(a[1..], run));
      assert (a + b)[0] == a[0] && (a + b)[1..] == a[1..] + b;
      assert CollapseFrom(a + b, inRun) == head + CollapseFrom(a[1..] + b, run);
      assert CollapseFrom(a, inRun) == head + x;
      CollapseAppend(a[1..], b, run);
      assert head + (x + y) == (head + x) + y;
      assert EndsInRun(a[1..], run) == EndsInRun(a, inRun);
    }
  }

  /** A non-empty run of whitespace becomes one dot outside a run, nothing inside one. */
  lemma {:induction false} CollapseRunAlone(w: string, inRun: bool)
    requires AllSpace(w) && |w| > 0
    ensures CollapseFrom(w, inRun) == if inRun then "" else "."
    decreases |w|
  {
    if |w| > 1 {
      CollapseRunAlone(w[1..], true);
    }
  }

  /** Text without whitespace is copied unchanged. */
  lemma {:induction false} CollapseKeepsWords(s: string, inRun: bool)
    requires NoSpace(s)
    ensures CollapseFrom(s, inRun) == s
    decreases |s|
  {
    if |s| > 0 {
      CollapseKeepsWords(s[1..], false);
    }
  }

  /** The output never holds whitespace. */
  lemma {:induction false} CollapseHasNoSpace(s: string, inRun: bool)
    ensures NoSpace(CollapseFrom(s, inRun))
    decreases |s|
  {
    if |s| > 0 {
      CollapseHasNoSpace(s[1..], IsSpace(s[0]));
    }
  }

  /** A maximal run between two pieces becomes exactly one dot between their images. */
  lemma CollapseRun(a: string, w: string, b: string)
    requires |a| == 0 || !IsSpace(a[|a| - 1])
    requires AllSpace(w) && |w| > 0
    requires |b| == 0 || !IsSpace(b[0])
    ensures CollapseWhitespace(a + w + b) == CollapseWhitespace(a) + "." + CollapseWhitespace(b)
  {
    CollapseAppend(a + w, b, false);
    CollapseAppend(a, w, false);
    CollapseRunAlone(w, false);
    assert EndsInRun(a + w, false);
  }

  // ---------------------------------------------------------------------
  // The submit handler

  /** The email handed to `login`: the lowered username with whitespace runs
      collapsed to dots, followed by "@example.com". */
  function DeriveEmail(username: string): (r: string)
    ensures r == CollapseWhitespace(Lower(username)) + EmailSuffix
    ensures |r| >= |EmailSuffix| && r[|r| - |EmailSuffix|..] == EmailSuffix
    ensures NoSpace(r)
    ensures forall i :: 0 <= i < |r| ==> !IsUpperAscii(r[i])
  {
    var local := CollapseWhitespace(Lower(username));
    CollapseHasNoSpace(Lower(username), false);
    LowerStaysLower(Lower(username), false);
    local + EmailSuffix
  }

  /** Lowering is taken character by character, so it splits over concatenation. */
  lemma LowerAppend(a: string, b: string)
    ensures Lower(a + b) == Lower(a) + Lower(b)
  {
    assert forall i :: 0 <= i < |a + b| ==> Lower(a + b)[i] == (Lower(a) + Lower(b))[i];
  }

  /** Lowering keeps whether each character is whitespace. */
  lemma LowerKeepsSpaces(s: string)
    ensures NoSpace(s) ==> NoSpace(Lower(s))
    ensures AllSpace(s) ==> AllSpace(Lower(s))
  {
  }

  /** A username made of two words around a whitespace run logs in as the
      lowered words joined by one dot, in front of "@example.com". */
  lemma DeriveEmailRun(a: string, w: string, b: string)
    requires NoSpace(a) && NoSpace(b)
    requires AllSpace(w) && |w| > 0
    ensures DeriveEmail(a + w + b) == Lower(a) + "." + Lower(b) + EmailSuffix
  {
    LowerAppend(a + w, b);
    LowerAppend(a, w);
    LowerKeepsSpaces(a);
    LowerKeepsSpaces(w);
    LowerKeepsSpaces(b);
    var la, lw, lb := Lower(a), Lower(w), Lower(b);
    CollapseRun(la, lw, lb);
    CollapseKeepsWords(la, false);
    CollapseKeepsWords(lb, false);
  }

  /** Collapsing introduces no upper-case letter. */
  lemma {:induction false} LowerStaysLower(s: string, inRun: bool)
    requires forall i :: 0 <= i < |s| ==> !IsUpperAscii(s[i])
    ensures forall i :: 0 <= i < |CollapseFrom(s, inRun)| ==> !IsUpperAscii(CollapseFrom(s, inRun)[i])
    decreases |s|
  {
    if |s| > 0 {
      LowerStaysLower(s[1..], IsSpace(s[0]));
    }
  }

  /** The one message of the handler. */
  datatype LoginError = MissingCredentials

  /** What a submission leaves behind: the auth session, the error shown if
      any, whether the exit animation runs, and the page it navigates to
      once the animation delay is over. */
  datatype LoginOutcome = LoginOutcome(session: Auth.Session, error: Option<LoginError>, showAnimation: bool, navigateTo: Option<string>)

  /** `handleSubmit`: with an empty username or password the session is
      untouched; otherwise `login` runs with the raw username as name and the
      derived email, the animation starts and the dashboard is navigated to. */
  function SubmitLogin(sess: Auth.Session, username: string, password: string, showAnimation: bool): (r: LoginOutcome)
    ensures r.error.Some? <==> username == "" || password == ""
    ensures r.error.Some? ==> r.session == sess && r.showAnimation == showAnimation && r.navigateTo == None
    ensures r.error.None? ==> r.session == Auth.Login(sess, Auth.User(username, DeriveEmail(username)))
                              && r.showAnimation && r.navigateTo == Some(DashboardPath)
  {
    if username == "" || password == "" then
      LoginOutcome(sess, Some(MissingCredentials), showAnimation, None)
    else
      LoginOutcome(Auth.Login(sess, Auth.User(username, DeriveEmail(username))), None, true, Some(DashboardPath))
  }

  /** The page's own redirect: a logged-in user goes to the dashboard unless
      the exit animation has started. */
  function LoginRedirect(user: Option<Auth.User>, showAnimation: bool): (r: Option<string>)
    ensures r.Some? <==> user.Some? && !showAnimation
    ensures r.Some? ==> r.value == DashboardPath
  {
    if user.Some? && !showAnimation then Some(DashboardPath) else None
  }

  /** Right after an accepted submission the page does not redirect at once:
      the delayed navigation is the only way on. */
  lemma AcceptedLoginWaitsForAnimation(sess: Auth.Session, username: string, password: string, anim: bool)
    requires username != "" && password != ""
    ensures var r := SubmitLogin(sess, username, password, anim);
            r.session.state.user.Some? && LoginRedirect(r.session.state.user, r.showAnimation) == None
  {
  }

  /** "Jane  Doe" logs in as "jane.doe@example.com". */
  lemma DeriveEmailExample()
    ensures DeriveEmail("Jane  Doe") == "jane.doe@example.com"
  {
    var a, w, b := "Jane", "  ", "Doe";
    assert NoSpace(a) && NoSpace(b) && AllSpace(w);
    DeriveEmailRun(a, w, b);
    assert a + w + b == "Jane  Doe";
    assert Lower(a) == "jane" by {
      assert Lower(a)[0] == LowerChar('J') == 'j';
    }
    assert Lower(b) == "doe" by {
      assert Lower(b)[0] == LowerChar('D') == 'd';
    }
    assert "jane" + "." + "doe" + EmailSuffix == "jane.doe@example.com";
  }
}
