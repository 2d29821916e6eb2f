/** The route table of the application and the redirects decided by the
    route guard, the root route and the login and signup pages. */
module Routes {
  import opened Wrappers
  import Auth
  import LoginPage
  import SignupPage

  /** The element each route renders. */
  datatype Element =
    | RootElement | LoginElement | SignupElement
    | DashboardElement | TasksElement | CalendarElement | SettingsElement
    | NotFoundElement

  /** The route table: exact paths, and a catch-all for everything else. */
  function RouteFor(path: string): (e: Element)
    ensures e == RootElement <==> path == "/"
    ensures e == LoginElement <==> path == "/login"
    ensures e == SignupElement <==> path == "/signup"
    ensures e == DashboardElement <==> path == "/dashboard"
    ensures e == TasksElement <==> path == "/tasks"
    ensures e == CalendarElement <==> path == "/calendar"
    ensures e == SettingsElement <==> path == "/settings"
    ensures e == NotFoundElement <==> path !in {"/", "/login", "/signup", "/dashboard", "/tasks", "/calendar", "/settings"}
  {
    if path == "/" then RootElement
    else if path == "/login" then LoginElement
    else if path == "/signup" then SignupElement
    else if path == "/dashboard" then DashboardElement
    else if path == "/tasks" then TasksElement
    else if path == "/calendar" then CalendarElement
    else if path == "/settings" then SettingsElement
    else NotFoundElement
  }

  /** The routes nested under the protected layout. */
  predicate IsProtected(e: Element) {
    e.DashboardElement? || e.TasksElement? || e.CalendarElement? || e.SettingsElement?
  }

  /** What the router shows for a path: a rendered element or a redirect. */
  datatype View = Render(element: Element) | Redirect(to: string)

  /** `ProtectedRoute`: the child when there is a user, the login page otherwise. */
  function ProtectedRoute(e: Element, st: Auth.AuthState): (v: View)
    ensures v == Render(e) <==> st.user.Some?
    ensures st.user.None? ==> v == Redirect("/login")
  {
    if st.user.None? then Redirect("/login") else Render(e)
  }

  /** `Root`: the login page for a browser that signed up before, the signup page otherwise. */
  function RootRedirect(st: Auth.AuthState): (v: View)
    ensures v == Redirect("/login") <==> st.hasSignedUpBefore
    ensures v == Redirect("/signup") <==> !st.hasSignedUpBefore
  {
    Redirect(if st.hasSignedUpBefore then "/login" else "/signup")
  }

  /** The view of `path` for a freshly mounted page (the login page's
      animation has not started). */
  function Resolve(path: string, st: Auth.AuthState): (v: View)
    ensures path == "/" ==> v == Redirect(if st.hasSignedUpBefore then "/login" else "/signup")
    ensures path == "/login" ==> v == if st.user.Some? then Redirect("/dashboard") else Render(LoginElement)
    ensures path == "/signup" ==> v == if st.hasSignedUpBefore then Redirect("/login") else Render(SignupElement)
    ensures v.Render? ==> v.element == RouteFor(path)
    ensures v.Redirect? ==> v.to in {"/login", "/signup", "/dashboard"}
  {
    var e := RouteFor(path);
    if e == RootElement then RootRedirect(st)
    else if IsProtected(e) then ProtectedRoute(e, st)
    else if e == LoginElement then
      match LoginPage.LoginRedirect(st.user, false)
      case Some(to) => Redirect(to)
      case None => Render(LoginElement)
    else if e == SignupElement then
      match SignupPage.SignupRedirect(st.hasSignedUpBefore)
      case Some(to) => Redirect(to)
      case None => Render(SignupElement)
    else Render(e)
  }

  /** The four guarded paths render exactly for a logged-in user; the login
      and signup pages are not behind the guard; anything else is not found. */
  lemma GuardedPaths(path: string, st: Auth.AuthState)
    ensures path in {"/dashboard", "/tasks", "/calendar", "/settings"} ==>
              (Resolve(path, st).Render? <==> st.user.Some?)
              && (st.user.None? ==> Resolve(path, st) == Redirect("/login"))
    ensures path == "/" ==> Resolve(path, st) == RootRedirect(st)
    ensures st.user.None? ==> Resolve("/login", st) == Render(LoginElement)
    ensures !st.hasSignedUpBefore ==> Resolve("/signup", st) == Render(SignupElement)
    ensures path !in {"/", "/login", "/signup", "/dashboard", "/tasks", "/calendar", "/settings"} ==>
              Resolve(path, st) == Render(NotFoundElement)
  {
  }

  /** Follows at most `hops` redirects from `path`. */
  function Follow(path: string, st: Auth.AuthState, hops: nat): View
    decreases hops
  {
    match Resolve(path, st)
    case Render(e) => Render(e)
    case Redirect(to) => if hops == 0 then Redirect(to) else Follow(to, st, hops - 1)
  }

  /** No path loops: two redirects always reach a rendered page. A logged-in
      user reaches the dashboard from the login page, and from the root and
      signup routes once the browser has signed up; a user who only logged in
      is sent from the root to the signup form. */
  lemma RedirectsSettle(path: string, st: Auth.AuthState)
    ensures Follow(path, st, 2).Render?
    ensures st.user.Some? && path == "/login" ==> Follow(path, st, 2) == Render(DashboardElement)
    ensures st.user.Some? && st.hasSignedUpBefore && path in {"/", "/signup"} ==>
              Follow(path, st, 2) == Render(DashboardElement)
    ensures !st.hasSignedUpBefore ==> Follow("/", st, 2) == Render(SignupElement)
  {
  }

  /** After a successful signup the user is logged in, so the login page the
      handler navigates to sends them on to the dashboard. */
  lemma SignupLandsOnDashboard(sess: Auth.Session, name: string, email: string, password: string)
    requires SignupPage.SubmitSignup(sess, name, email, password).error.None?
    ensures var r := SignupPage.SubmitSignup(sess, name, email, password);
            Follow(r.navigateTo.value, r.session.state, 2) == Render(DashboardElement)
  {
  }

  // ---------------------------------------------------------------------
  // Reloading the page

  /** A reload as the code runs it. The provider starts from `Auth.Initial`
      and reads the storage only in its mount effect, which runs after the
      effects of the routes below it; so the first render decides on the
      empty state, and a redirect it issues has already moved the address
      when the loaded state renders. */
  function ReloadAsWritten(path: string, storage: Auth.Storage): (v: View)
    ensures v.Render?
  {
    var landed := match Resolve(path, Auth.Initial)
                  case Redirect(to) => to
                  case Render(_) => path;
    RedirectsSettle(landed, Auth.Mount(storage).state);
    Follow(landed, Auth.Mount(storage).state, 2)
  }

  /** A reload as the root route's comment intends it: routing decides only
      once the stored state has been loaded. */
  function ReloadIntended(path: string, storage: Auth.Storage): (v: View)
    ensures v.Render?
  {
    RedirectsSettle(path, Auth.Mount(storage).state);
    Follow(path, Auth.Mount(storage).state, 2)
  }

  /** As written, reloading any guarded page with a stored user ends on the
      dashboard: the empty first state sends it to the login page, which then
      forwards the loaded user. */
  lemma ReloadAsWrittenLosesPage(path: string, storage: Auth.Storage)
    requires path in {"/dashboard", "/tasks", "/calendar", "/settings"}
    requires Auth.StoredUser(storage).Some?
    ensures ReloadAsWritten(path, storage) == Render(DashboardElement)
  {
    assert Resolve(path, Auth.Initial) == Redirect("/login");
    assert Auth.Mount(storage).state.user.Some?;
  }

  /** With the state loaded first, reloading a guarded page with a stored user
      stays on that page. */
  lemma ReloadIntendedKeepsPage(path: string, storage: Auth.Storage)
    requires path in {"/dashboard", "/tasks", "/calendar", "/settings"}
    requires Auth.StoredUser(storage).Some?
    ensures ReloadIntended(path, storage) == Render(RouteFor(path))
  {
    assert Auth.Mount(storage).state.user.Some?;
  }

  /** The two disagree on a reload of the task page by a stored user. */
  lemma ReloadTasksDiffers(u: Auth.User)
    ensures ReloadAsWritten("/tasks", map[Auth.UserKey := Auth.UserJson(u)]) == Render(DashboardElement)
    ensures ReloadIntended("/tasks", map[Auth.UserKey := Auth.UserJson(u)]) == Render(TasksElement)
  {
    var storage := map[Auth.UserKey := Auth.UserJson(u)];
    assert Auth.StoredUser(storage) == Some(u);
    ReloadAsWrittenLosesPage("/tasks", storage);
    ReloadIntendedKeepsPage("/tasks", storage);
  }
}
