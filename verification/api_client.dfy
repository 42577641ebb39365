/**
 * The two interceptors of the shared API client: one attaches the stored
 * token to every request, the other ends the session on a 401 answer.
 */
module ApiClient {
  import opened Wrappers
  import opened JsString
  import opened Browser
  import opened Http

  /** The storage key the token is read from and purged under. */
  const TokenKey: string := "token"
  /** The storage key purged alongside the token. */
  const UserKey: string := "user"
  /** Where a 401 sends the page. */
  const LoginPath: string := "/auth/login"
  const AuthorizationHeader: string := "Authorization"
  const BearerPrefix: string := "Bearer "
  const Unauthorized: int := 401

  /**
   * The request interceptor: the token is read from storage on this very
   * call; a truthy one becomes `Authorization: Bearer <token>`, anything
   * else leaves the request as it was.
   */
  function OnRequest(storage: Storage, config: RequestConfig): (r: RequestConfig)
    ensures r.url == config.url
    ensures Truthy(GetItem(storage, TokenKey)) ==>
              AuthorizationHeader in r.headers
              && r.headers[AuthorizationHeader] == BearerPrefix + storage[TokenKey]
              && forall h :: h != AuthorizationHeader ==>
                   (h in r.headers <==> h in config.headers)
                   && (h in config.headers ==> r.headers[h] == config.headers[h])
    ensures !Truthy(GetItem(storage, TokenKey)) ==> r == config
  {
    var token := GetItem(storage, TokenKey);
    if Truthy(token) then
      config.(headers := config.headers[AuthorizationHeader := BearerPrefix + token.value])
    else
      config
  }

  /** The request depends on storage only through the `token` entry. */
  lemma RequestDependsOnlyOnToken(s1: Storage, s2: Storage, config: RequestConfig)
    requires GetItem(s1, TokenKey) == GetItem(s2, TokenKey)
    ensures OnRequest(s1, config) == OnRequest(s2, config)
  {
  }

  /**
   * The token is never cached: after storage changes to a new token the next
   * request carries the new one, and after it is removed the next request is
   * sent as the caller built it.
   */
  lemma NextRequestSeesStorageChange(s: Storage, token: string, config: RequestConfig)
    requires token != ""
    ensures OnRequest(SetItem(s, TokenKey, token), config).headers[AuthorizationHeader] == BearerPrefix + token
    ensures OnRequest(RemoveItem(s, TokenKey), config) == config
  {
    assert GetItem(SetItem(s, TokenKey, token), TokenKey) == Some(token);
  }

  /** Whether the error carries an HTTP 401 answer. */
  predicate IsUnauthorized(e: ApiError) {
    StatusOf(e) == Some(Unauthorized)
  }

  /** What the error interceptor leaves behind: the environment and the error it rejects with. */
  datatype Interception = Interception(env: Env, rejected: ApiError)

  /**
   * The response error interceptor. A 401 removes `token` and `user` from
   * storage and, when a window exists, sends the page to the login path;
   * any other error, including one without a response, changes nothing.
   * The error is rejected again unchanged in every case.
   */
  function OnResponseError(env: Env, e: ApiError): (r: Interception)
    ensures r.rejected == e
    ensures r.env.hasWindow == env.hasWindow && r.env.classes == env.classes
    ensures IsUnauthorized(e) ==>
              GetItem(r.env.storage, TokenKey) == None
              && GetItem(r.env.storage, UserKey) == None
              && SameOutside(r.env.storage, env.storage, {TokenKey, UserKey})
    ensures IsUnauthorized(e) && env.hasWindow ==> r.env.location == Some(LoginPath)
    ensures IsUnauthorized(e) && !env.hasWindow ==> r.env.location == env.location
    ensures !IsUnauthorized(e) ==> r.env == env
  {
    if IsUnauthorized(e) then
      var storage := RemoveItem(RemoveItem(env.storage, TokenKey), UserKey);
      var location := if env.hasWindow then Some(LoginPath) else env.location;
      Interception(env.(storage := storage, location := location), e)
    else
      Interception(env, e)
  }

  /** The settled result of a request, seen by the response interceptor. */
  datatype Settled = Fulfilled(response: Response) | Failed(error: ApiError)

  /**
   * The response interceptor pair: a successful response passes through and
   * touches nothing; a failure goes to `OnResponseError` and stays a failure.
   */
  function OnResponse(env: Env, s: Settled): (r: (Env, Settled))
    ensures s.Fulfilled? ==> r == (env, s)
    ensures s.Failed? ==> r.1 == s && r.0 == OnResponseError(env, s.error).env
  {
    match s
    case Fulfilled(_) => (env, s)
    case Failed(e) =>
      var i := OnResponseError(env, e);
      (i.env, Failed(i.rejected))
  }

  /** A second 401 finds nothing more to do. */
  lemma UnauthorizedIsIdempotent(env: Env, e: ApiError)
    ensures OnResponseError(OnResponseError(env, e).env, e) == OnResponseError(env, e)
  {
    if IsUnauthorized(e) {
      var once := OnResponseError(env, e).env;
      assert once.storage - {TokenKey} - {UserKey} == once.storage;
    }
  }

  /** After a 401 the next request goes out without a bearer token. */
  lemma NoTokenAfterUnauthorized(env: Env, e: ApiError, config: RequestConfig)
    requires IsUnauthorized(e)
    ensures OnRequest(OnResponseError(env, e).env.storage, config) == config
  {
  }

  /**
   * The purge does not touch the auth store's persisted entry
   * (`auth-storage`), so a 401 does not log the auth store out.
   */
  lemma UnauthorizedKeepsAuthStorage(env: Env, e: ApiError, persistKey: string)
    requires persistKey != TokenKey && persistKey != UserKey
    ensures GetItem(OnResponseError(env, e).env.storage, persistKey) == GetItem(env.storage, persistKey)
  {
  }
}
