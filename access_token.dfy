/**
 * `TwitchAccessToken`: the token record the API returns.  Its
 * `accessToken` property reads the `access_token` field and falls back
 * to `token`; writing it replaces only the `access_token` field.  The
 * record is a value type, so the setter is a record update.
 */
module TwitchAccessTokens {
  import opened Wrappers

  /** The stored fields; `storedAccessToken` is the private `_accessToken`. */
  datatype TwitchAccessToken = TwitchAccessToken(
    storedAccessToken: Option<string>,
    token: Option<string>,
    refreshToken: Option<string>,
    expiresIn: Option<int>,
    scope: Option<string>,
    complete: Option<bool>,
    message: Option<string>)
  {
    /** The `accessToken` getter. */
    function AccessToken(): (r: Option<string>)
      ensures storedAccessToken.Some? ==> r == storedAccessToken
      ensures storedAccessToken.None? ==> r == token
      ensures r.None? <==> storedAccessToken.None? && token.None?
    {
      if storedAccessToken.Some? then storedAccessToken
      else if token.Some? then token
      else None
    }

    /** The `accessToken` setter: `_accessToken = newValue`, every other field kept. */
    function WithAccessToken(newValue: Option<string>): (r: TwitchAccessToken)
      ensures r.storedAccessToken == newValue
      ensures r.token == token && r.refreshToken == refreshToken && r.expiresIn == expiresIn
      ensures r.scope == scope && r.complete == complete && r.message == message
    {
      this.(storedAccessToken := newValue)
    }
  }

  /** Reading after writing a token gives that token back. */
  lemma SetThenGet(t: TwitchAccessToken, v: string)
    ensures t.WithAccessToken(Some(v)).AccessToken() == Some(v)
  {
  }

  /** Writing nil uncovers the `token` field. */
  lemma SetNilFallsBack(t: TwitchAccessToken)
    ensures t.WithAccessToken(None).AccessToken() == t.token
  {
  }

  /** Writing back what was read changes nothing the getter shows, and a second write wins over the first. */
  lemma SetGetStable(t: TwitchAccessToken, a: Option<string>, b: Option<string>)
    ensures t.WithAccessToken(t.AccessToken()).AccessToken() == t.AccessToken()
    ensures t.WithAccessToken(a).WithAccessToken(b) == t.WithAccessToken(b)
  {
  }
}
