/**
 * frontend/src/components/ProtectedRoute.jsx: a route wrapper that checks
 * the stored token with the server once (the `verifyAuth` effect), then
 * renders a placeholder, a redirect or its children.
 */
module ProtectedRoute {
  import opened Common
  import opened AuthStore

  /** What the wrapper renders. */
  datatype View = Placeholder | RedirectTo(path: string) | Children

  /**
   * The render decision: a placeholder while loading; /login without
   * authentication or without a user; / when a required role is set (truthy)
   * and the user's role differs; otherwise the children.
   */
  function Render(loading: bool, isAuthenticated: bool, user: Option<SessionUser>, requiredRole: Option<string>): (v: View)
    ensures v == Placeholder <==> loading
    ensures v == RedirectTo("/login") <==> !loading && (!isAuthenticated || user.None?)
    ensures v == RedirectTo("/") <==> !loading && isAuthenticated && user.Some? && Truthy(requiredRole) && user.value.role != requiredRole.value
    ensures v == Children <==> !loading && isAuthenticated && user.Some? && (!Truthy(requiredRole) || user.value.role == requiredRole.value)
  {
    if loading then Placeholder
    else if !isAuthenticated || user.None? then RedirectTo("/login")
    else if Truthy(requiredRole) && user.value.role != requiredRole.value then RedirectTo("/")
    else Children
  }

  /** Without a required role every authenticated user with a user object passes, whatever the role. */
  lemma NoRoleAdmitsAnyUser(user: SessionUser)
    ensures Render(false, true, Some(user), None) == Children
    ensures Render(false, true, Some(user), Some("")) == Children
  {
  }

  /** The answer of `authAPI.validateToken()`: the `valid` field, or a thrown error. */
  datatype Reply = Valid(valid: bool) | Threw

  class Guard {
    /** `useState(true)`: the wrapper starts out loading. */
    var loading: bool

    constructor ()
      ensures loading
    {
      loading := true;
    }

    /**
     * verifyAuth: without a truthy token no call is made; otherwise the
     * token is checked and an invalid verdict or a failed call logs the
     * store out. Either way loading ends. Returns whether the call was made.
     */
    method VerifyAuth(store: Store, reply: Reply) returns (called: bool)
      requires store.Valid()
      modifies this, store
      ensures store.Valid() && !loading
      ensures called <==> Truthy(old(store.token))
      ensures !called || reply == Valid(true) ==>
                store.isAuthenticated == old(store.isAuthenticated) && store.user == old(store.user)
                && store.token == old(store.token) && store.stored == old(store.stored)
      ensures called && reply != Valid(true) ==>
                !store.isAuthenticated && store.user.None? && store.token.None? && store.stored.None?
                && forall role :: Render(loading, store.isAuthenticated, store.user, role) == RedirectTo("/login")
    {
      var token := store.token;
      if !Truthy(token) {
        loading := false;
        return false;
      }
      called := true;
      match reply {
        case Valid(valid) =>
          if !valid {
            store.Logout();
          }
        case Threw =>
          store.Logout();
      }
      loading := false;
    }
  }
}
