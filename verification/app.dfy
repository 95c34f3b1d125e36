/**
 * frontend/src/App.jsx: the route table and the redirect rule at `/`. The
 * guarded routes render through the ProtectedRoute wrapper; following the
 * redirects from any path reaches a page.
 */
module App {
  import opened Common
  import opened AuthStore
  import opened ProtectedRoute

  /** The pages the table can end on. */
  datatype Page = LoginPage | RegisterPage | AdminDashboard | UserDashboard | LoadingPlaceholder

  /** What a path renders: a page or a redirect. */
  datatype Outcome = Show(page: Page) | Go(path: string)

  /** The element at `/`: /admin for an authenticated admin, /dashboard for any other authenticated state (a null user included), else /login. */
  function RootRedirect(isAuthenticated: bool, user: Option<SessionUser>): (path: string)
    ensures path == "/login" <==> !isAuthenticated
    ensures path == "/admin" <==> isAuthenticated && user.Some? && user.value.role == "admin"
    ensures path == "/dashboard" <==> isAuthenticated && !(user.Some? && user.value.role == "admin")
  {
    if isAuthenticated then
      if user.Some? && user.value.role == "admin" then "/admin" else "/dashboard"
    else "/login"
  }

  /** The admin route pattern: /admin itself or anything below it. */
  predicate UnderAdmin(path: string)
  {
    path == "/admin" || (|path| >= 7 && path[..7] == "/admin/")
  }

  /** A guarded page: the wrapper's decision, with the page as its children. */
  function Guarded(page: Page, requiredRole: string, loading: bool, isAuthenticated: bool, user: Option<SessionUser>): Outcome
  {
    match Render(loading, isAuthenticated, user, Some(requiredRole))
    case Placeholder => Show(LoadingPlaceholder)
    case RedirectTo(p) => Go(p)
    case Children => Show(page)
  }

  /** The route table, first match wins: /login, /register, the admin pattern (role admin), /dashboard (role user), the root, then everything else to the root. */
  function Route(path: string, loading: bool, isAuthenticated: bool, user: Option<SessionUser>): (o: Outcome)
    ensures UnderAdmin(path) && !loading ==>
              (o == Show(AdminDashboard) <==> isAuthenticated && user.Some? && user.value.role == "admin")
    ensures path == "/dashboard" && !loading ==>
              (o == Show(UserDashboard) <==> isAuthenticated && user.Some? && user.value.role == "user")
    ensures path !in {"/login", "/register", "/dashboard", "/"} && !UnderAdmin(path) ==> o == Go("/")
  {
    assert "/login"[1] != 'a' && "/register"[1] != 'a' && "/dashboard"[1] != 'a';
    assert !UnderAdmin("/login") && !UnderAdmin("/register") && !UnderAdmin("/dashboard") && !UnderAdmin("/");
    if path == "/login" then Show(LoginPage)
    else if path == "/register" then Show(RegisterPage)
    else if UnderAdmin(path) then Guarded(AdminDashboard, "admin", loading, isAuthenticated, user)
    else if path == "/dashboard" then Guarded(UserDashboard, "user", loading, isAuthenticated, user)
    else if path == "/" then Go(RootRedirect(isAuthenticated, user))
    else Go("/")
  }

  /** Follows at most `hops` redirects from `path`; None when a redirect is still pending. */
  function Follow(path: string, loading: bool, isAuthenticated: bool, user: Option<SessionUser>, hops: nat): Option<Page>
    decreases hops
  {
    match Route(path, loading, isAuthenticated, user)
    case Show(p) => Some(p)
    case Go(next) => if hops == 0 then None else Follow(next, loading, isAuthenticated, user, hops - 1)
  }

  /** The roles the server issues. */
  predicate KnownRole(user: Option<SessionUser>)
  {
    user.None? || user.value.role == "admin" || user.value.role == "user"
  }

  /**
   * With a role the server issues, every path settles within three
   * redirects: admins on the admin dashboard, users on the user dashboard,
   * and an unauthenticated visitor or an authenticated state without a user
   * object on the login page (except on /register).
   */
  lemma EveryPathSettles(path: string, isAuthenticated: bool, user: Option<SessionUser>)
    requires KnownRole(user)
    ensures var p := Follow(path, false, isAuthenticated, user, 3);
            && p.Some?
            && (path != "/login" && path != "/register" ==>
                  p.value == (if !isAuthenticated || user.None? then LoginPage
                              else if user.value.role == "admin" then AdminDashboard
                              else UserDashboard))
  {
    var f0 := Route(path, false, isAuthenticated, user);
    if f0.Go? {
      var f1 := Route(f0.path, false, isAuthenticated, user);
      if f1.Go? {
        var f2 := Route(f1.path, false, isAuthenticated, user);
        if f2.Go? {
          assert Route(f2.path, false, isAuthenticated, user).Show?;
        }
      }
    }
  }

  /** With a role that is neither admin nor user (the empty role included), `/` and `/dashboard` redirect to each other forever. */
  lemma UnknownRoleLoops(user: SessionUser, hops: nat)
    requires user.role != "admin" && user.role != "user"
    ensures Follow("/", false, true, Some(user), hops) == None
  {
    var n := hops;
    var path := "/";
    while n > 0
      invariant path == "/" || path == "/dashboard"
      invariant Follow("/", false, true, Some(user), hops) == Follow(path, false, true, Some(user), n)
    {
      path := if path == "/" then "/dashboard" else "/";
      n := n - 1;
    }
  }
}
