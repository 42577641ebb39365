/**
 * The stores together, with the calls that cross between them: `setAuth`
 * and `logout` write the news store's favourites, and the API client's 401
 * handler writes browser storage.
 */
module Session {
  import opened Wrappers
  import opened Articles
  import opened Browser
  import opened Http
  import opened AuthStore
  import opened NewsStore
  import opened ThemeStore
  import opened ApiClient

  datatype App = App(auth: AuthState, news: NewsState, theme: ThemeState, env: Env)

  /** How the favourites request started by `setAuth` settled. */
  datatype FetchOutcome =
    | FetchOk(favorites: Option<seq<Article>>)   // `response.data?.data?.favorites`
    | FetchFailed

  /** `response.data?.data?.favorites || []` on success, `[]` on failure. */
  function FetchedFavorites(o: FetchOutcome): (r: seq<Article>)
    ensures o.FetchOk? && o.favorites.Some? ==> r == o.favorites.value
    ensures o.FetchFailed? || o.favorites.None? ==> r == []
  {
    match o
    case FetchOk(favs) => favs.GetOr([])
    case FetchFailed => []
  }

  /** The first half of `setAuth`: the identity is set before any request is made. */
  function SetAuth(app: App, user: Option<User>, token: Option<string>): (r: App)
    ensures r.auth == Login(app.auth, user, token)
    ensures r.news == app.news && r.theme == app.theme && r.env == app.env
  {
    app.(auth := Login(app.auth, user, token))
  }

  /**
   * The second half of `setAuth`: whenever the request settles, the
   * favourites are replaced wholesale. Nothing checks whether the session
   * that asked is still current, and the auth fields are never rolled back.
   */
  function FavoritesFetched(app: App, o: FetchOutcome): (r: App)
    ensures r.news.favorites == FetchedFavorites(o)
    ensures r.news.selectedCategory == app.news.selectedCategory && r.news.searchQuery == app.news.searchQuery
    ensures r.auth == app.auth && r.theme == app.theme && r.env == app.env
  {
    app.(news := SetFavorites(app.news, FetchedFavorites(o)))
  }

  /** `logout`: the identity is cleared and so are the favourites. */
  function SignOut(app: App): (r: App)
    ensures r.auth == InitialAuth && r.news.favorites == []
    ensures r.news.selectedCategory == app.news.selectedCategory && r.news.searchQuery == app.news.searchQuery
    ensures r.theme == app.theme && r.env == app.env
  {
    app.(auth := Logout(app.auth), news := SetFavorites(app.news, []))
  }

  /** A failed request, through the response interceptor; the stores are untouched. */
  function RequestFailed(app: App, e: ApiError): (r: App)
    ensures r.env == OnResponseError(app.env, e).env
    ensures r.auth == app.auth && r.news == app.news && r.theme == app.theme
  {
    app.(env := OnResponseError(app.env, e).env)
  }

  /** Signing out twice is signing out once. */
  lemma SignOutIdempotent(app: App)
    ensures SignOut(SignOut(app)) == SignOut(app)
  {
  }

  /**
   * A sign-in whose favourites request fails still stands: the user is
   * authenticated with the given identity and an empty list.
   */
  lemma SignInSurvivesFailedFetch(app: App, user: Option<User>, token: Option<string>)
    ensures var r := FavoritesFetched(SetAuth(app, user, token), FetchFailed);
            r.auth.isAuthenticated && r.auth.user == user && r.auth.token == token
            && r.news.favorites == []
  {
  }

  /** A successful fetch after sign-in shows exactly the fetched list. */
  lemma SignInShowsFetchedList(app: App, user: Option<User>, token: Option<string>, favs: seq<Article>)
    ensures var r := FavoritesFetched(SetAuth(app, user, token), FetchOk(Some(favs)));
            r.auth.isAuthenticated && r.news.favorites == favs
  {
  }

  /**
   * Last write wins: a fetch that settles after `logout` puts the previous
   * user's favourites back into a signed-out session.
   */
  lemma LateFetchAfterSignOutRepopulates(app: App, user: Option<User>, token: Option<string>, favs: seq<Article>)
    requires favs != []
    ensures var r := FavoritesFetched(SignOut(SetAuth(app, user, token)), FetchOk(Some(favs)));
            !r.auth.isAuthenticated && r.news.favorites == favs && r.news.favorites != []
  {
  }

  /**
   * A 401 purges the `token` and `user` storage keys only: the auth store
   * stays signed in and its persisted `auth-storage` entry is kept.
   */
  lemma UnauthorizedLeavesAuthStore(app: App, e: ApiError)
    requires IsUnauthorized(e)
    ensures var r := RequestFailed(app, e);
            r.auth == app.auth
            && GetItem(r.env.storage, AuthStorageKey) == GetItem(app.env.storage, AuthStorageKey)
            && GetItem(r.env.storage, TokenKey) == None
  {
    assert AuthStorageKey !in {TokenKey, UserKey};
  }
}
