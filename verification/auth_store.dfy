/** The auth store: who is signed in and with which token. */
module AuthStore {
  import opened Wrappers

  /** A user object, shallow: field name to value. */
  type User = map<string, string>

  datatype AuthState = AuthState(user: Option<User>, token: Option<string>, isAuthenticated: bool)

  /** The state the store is created with, and the one `logout` returns to. */
  const InitialAuth: AuthState := AuthState(None, None, false)

  /** The storage key the persist layer writes this store under. */
  const AuthStorageKey: string := "auth-storage"

  /**
   * Signed out means no identity is held. `login` and `logout` keep this;
   * `updateUser` does not (see `UpdateUserWhileSignedOutBreaksConsistency`).
   */
  predicate Consistent(s: AuthState) {
    !s.isAuthenticated ==> s.user.None? && s.token.None?
  }

  /**
   * The synchronous part of `setAuth`: the identity is taken as given, and
   * the store is authenticated whatever it held before and whatever the
   * arguments are, `null` included.
   */
  function Login(s: AuthState, user: Option<User>, token: Option<string>): (r: AuthState)
    ensures r.isAuthenticated
    ensures r.user == user && r.token == token
    ensures Consistent(r)
  {
    AuthState(user, token, true)
  }

  /** `logout`: back to the initial state from any state. */
  function Logout(s: AuthState): (r: AuthState)
    ensures !r.isAuthenticated && r.user.None? && r.token.None?
    ensures Consistent(r)
  {
    InitialAuth
  }

  /** `{ ...a, ...b }` on shallow objects: `b`'s fields win. */
  function Spread(a: User, b: User): (r: User)
    ensures forall k :: k in r <==> k in a || k in b
    ensures forall k :: k in b ==> r[k] == b[k]
    ensures forall k :: k in a && k !in b ==> r[k] == a[k]
  {
    a + b
  }

  /**
   * `updateUser`: a shallow merge of `userData` into the current user, where
   * a `null` on either side spreads as an empty object. There is no guard:
   * a signed-out store gets a user too.
   */
  function UpdateUser(s: AuthState, userData: Option<User>): (r: AuthState)
    ensures r.user.Some?
    ensures forall k :: k in userData.GetOr(map[]) ==>
              k in r.user.value && r.user.value[k] == userData.value[k]
    ensures forall k :: k !in userData.GetOr(map[]) ==>
              (k in r.user.value <==> k in s.user.GetOr(map[]))
              && (k in s.user.GetOr(map[]) ==> r.user.value[k] == s.user.value[k])
    ensures r.token == s.token && r.isAuthenticated == s.isAuthenticated
  {
    s.(user := Some(Spread(s.user.GetOr(map[]), userData.GetOr(map[]))))
  }

  /** Logging out twice is logging out once. */
  lemma LogoutIdempotent(s: AuthState)
    ensures Logout(Logout(s)) == Logout(s)
  {
  }

  /** The new identity does not depend on what the store held before. */
  lemma LoginForgetsPreviousIdentity(s1: AuthState, s2: AuthState, user: Option<User>, token: Option<string>)
    ensures Login(s1, user, token) == Login(s2, user, token)
  {
  }

  /** Merging the same data twice gives the same user as merging it once. */
  lemma UpdateUserIdempotent(s: AuthState, userData: Option<User>)
    ensures UpdateUser(UpdateUser(s, userData), userData) == UpdateUser(s, userData)
  {
    var once := UpdateUser(s, userData).user.value;
    assert Spread(once, userData.GetOr(map[])) == once;
  }

  /** Merging nothing keeps every field of a present user. */
  lemma UpdateUserWithNothing(s: AuthState)
    requires s.user.Some?
    ensures UpdateUser(s, None) == s
    ensures UpdateUser(s, Some(map[])) == s
  {
    assert Spread(s.user.value, map[]) == s.user.value;
  }

  /**
   * After `logout`, an `updateUser` call installs a user on a store that is
   * not authenticated: the merge has no guard, so `Consistent` does not
   * survive it.
   */
  lemma UpdateUserWhileSignedOutBreaksConsistency(s: AuthState, userData: Option<User>)
    ensures !Consistent(UpdateUser(Logout(s), userData))
  {
  }

  /** While authenticated, `updateUser` keeps the store consistent. */
  lemma UpdateUserKeepsConsistencyWhenSignedIn(s: AuthState, userData: Option<User>)
    requires s.isAuthenticated
    ensures Consistent(UpdateUser(s, userData))
  {
  }
}
