/** The token cache of the API client: the module-level `accessToken` and `tokenExpiry`,
    refreshed by `getAccessToken` and read by `ensureToken` and `getAuthHeaders`. */
module Auth {
  import opened JsValues

  /** `tokenExpiry`: null before the first refresh, a time in milliseconds, or NaN when
      the token response had no `expires_in`. */
  datatype Expiry = NoExpiry | At(ms: int) | NotANumber

  /** The body of the token endpoint's response. */
  datatype TokenBody = TokenBody(accessToken: Value, expiresIn: Option<int>)

  /** `now >= tokenExpiry`: null converts to 0, and every comparison with NaN is false. */
  predicate Reached(now: int, e: Expiry) {
    match e
    case NoExpiry => now >= 0
    case At(ms) => now >= ms
    case NotANumber => false
  }

  /** `now + expires_in * 1000` */
  function ExpiryAfter(now: int, expiresIn: Option<int>): Expiry {
    if expiresIn.Some? then At(now + expiresIn.value * 1000) else NotANumber
  }

  /** The refresh condition of `ensureToken`: no token held, or the expiry time reached. */
  predicate NeedsRefresh(token: Value, expiry: Expiry, now: int) {
    !Truthy(token) || Reached(now, expiry)
  }

  /** A token obtained at `now` with a lifetime of `e` seconds is used until `now + e*1000`
      and refreshed from then on. */
  lemma RefreshedTokenLifetime(body: TokenBody, now: int, later: int)
    requires Truthy(body.accessToken) && body.expiresIn.Some?
    ensures NeedsRefresh(body.accessToken, ExpiryAfter(now, body.expiresIn), later)
        <==> later >= now + body.expiresIn.value * 1000
  {
  }

  /** A response without `expires_in` makes the token permanent: it is never refreshed. */
  lemma MissingLifetimeNeverExpires(body: TokenBody, now: int, later: int)
    requires Truthy(body.accessToken) && body.expiresIn.None?
    ensures !NeedsRefresh(body.accessToken, ExpiryAfter(now, body.expiresIn), later)
  {
  }

  class TokenCache {
    var accessToken: Value
    var tokenExpiry: Expiry

    constructor ()
      ensures accessToken == Null && tokenExpiry == NoExpiry
    {
      accessToken := Null;
      tokenExpiry := NoExpiry;
    }

    /** `getAccessToken`: `reply` is the token endpoint's answer, `None` when the request
        failed; the failure is rethrown and the cache keeps its old contents. */
    method GetAccessToken(now: int, reply: Option<TokenBody>) returns (r: Result<Value>)
      modifies this
      ensures reply.None? ==> r.Thrown? && accessToken == old(accessToken) && tokenExpiry == old(tokenExpiry)
      ensures reply.Some? ==>
        && accessToken == reply.value.accessToken
        && tokenExpiry == ExpiryAfter(now, reply.value.expiresIn)
        && r == Ok(accessToken)
    {
      if reply.None? {
        return Thrown;
      }
      accessToken := reply.value.accessToken;
      tokenExpiry := ExpiryAfter(now, reply.value.expiresIn);
      r := Ok(accessToken);
    }

    /** `ensureToken`: refreshes exactly when no token is held or it has expired, and
        returns the cached token otherwise. `refreshed` tells whether the token endpoint
        was called. */
    method EnsureToken(now: int, reply: Option<TokenBody>) returns (r: Result<Value>, refreshed: bool)
      modifies this
      ensures refreshed == NeedsRefresh(old(accessToken), old(tokenExpiry), now)
      ensures !refreshed ==> r == Ok(accessToken) && accessToken == old(accessToken) && tokenExpiry == old(tokenExpiry)
      ensures refreshed && reply.None? ==>
        r.Thrown? && accessToken == old(accessToken) && tokenExpiry == old(tokenExpiry)
      ensures refreshed && reply.Some? ==>
        && r == Ok(reply.value.accessToken)
        && accessToken == reply.value.accessToken
        && tokenExpiry == ExpiryAfter(now, reply.value.expiresIn)
    {
      refreshed := NeedsRefresh(accessToken, tokenExpiry, now);
      if refreshed {
        var got := GetAccessToken(now, reply);
        if got.Thrown? {
          return Thrown, refreshed;
        }
      }
      r := Ok(accessToken);
    }

    /** `getAuthHeaders`: reads the cached token without refreshing it. */
    function AuthHeaders(): (h: map<string, string>)
      reads this
      ensures "Content-Type" in h && h["Content-Type"] == "application/json"
      ensures "Authorization" in h && h["Authorization"] == "Bearer " + ToJsString(accessToken)
      ensures |h| == 2
    {
      map["Authorization" := "Bearer " + ToJsString(accessToken), "Content-Type" := "application/json"]
    }
  }
}
