/**
 * frontend/src/stores/authStore.js: the client's session state. `set()`
 * overwrites the named fields; the stored token stands for
 * `localStorage.getItem('token')`.
 */
module AuthStore {
  import opened Common

  /** The user object the login response carries, as the client keeps it. */
  datatype SessionUser = SessionUser(id: int, email: string, firstName: string, lastName: string, role: string, status: string)

  /** JavaScript truthiness of a string that may be null: present and non-empty. */
  predicate Truthy(s: Option<string>)
  {
    s.Some? && s.value != ""
  }

  class Store {
    var isAuthenticated: bool
    var user: Option<SessionUser>
    var token: Option<string>
    /** The 'token' entry of localStorage. */
    var stored: Option<string>

    /** Whenever the store says authenticated, it holds a token and storage holds the same one. */
    ghost predicate Valid()
      reads this
    {
      isAuthenticated ==> token.Some? && stored == token
    }

    /** The initial state: not authenticated, no user, no token; storage as the browser has it. */
    constructor (stored: Option<string>)
      ensures Valid()
      ensures !isAuthenticated && user.None? && token.None? && this.stored == stored
    {
      isAuthenticated := false;
      user := None;
      token := None;
      this.stored := stored;
    }

    /** setAuth(token, user): authenticated with both, and the token written to storage. */
    method SetAuth(token: string, user: Option<SessionUser>)
      modifies this
      ensures Valid()
      ensures isAuthenticated && this.token == Some(token) && this.user == user && stored == Some(token)
    {
      isAuthenticated, this.token, this.user := true, Some(token), user;
      stored := Some(token);
    }

    /** logout(): everything cleared, storage included. */
    method Logout()
      modifies this
      ensures Valid()
      ensures !isAuthenticated && user.None? && token.None? && stored.None?
    {
      isAuthenticated, user, token := false, None, None;
      stored := None;
    }

    /** loadFromStorage(): a truthy stored token becomes the token and authenticates; the user is left as it was. */
    method LoadFromStorage()
      requires Valid()
      modifies this
      ensures Valid()
      ensures stored == old(stored) && user == old(user)
      ensures Truthy(stored) ==> isAuthenticated && token == stored
      ensures !Truthy(stored) ==> isAuthenticated == old(isAuthenticated) && token == old(token)
    {
      var t := stored;
      if Truthy(t) {
        token, isAuthenticated := t, true;
      }
    }

    /** partialize: the only part of the state that is persisted. */
    function Persisted(): (p: Option<string>)
      reads this
      ensures Valid() && isAuthenticated ==> p == stored
    {
      token
    }
  }

  /** A login followed by a page load authenticates again from storage, but the user is gone (null) after a reload. */
  method ReloadAfterLogin(token: string, user: SessionUser) returns (authenticated: bool, keptUser: Option<SessionUser>)
    requires token != ""
    ensures authenticated && keptUser == None
  {
    var before := new Store(None);
    before.SetAuth(token, Some(user));
    var after := new Store(before.stored);
    after.LoadFromStorage();
    authenticated, keptUser := after.isAuthenticated, after.user;
  }

  /** After a logout, loading from storage does not authenticate again. */
  method LogoutThenLoad(s: Store) returns (authenticated: bool)
    requires s.Valid()
    modifies s
    ensures !authenticated
  {
    s.Logout();
    s.LoadFromStorage();
    authenticated := s.isAuthenticated;
  }
}
