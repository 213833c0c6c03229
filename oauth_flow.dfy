/** What the OAuth handshake (`login`, `oauth_callback`) does to the
    session. The calls to the authorization server are not modelled: the
    request token returned by `initiate` and the access token returned by
    `complete` are inputs. */
module OAuthFlow {
  import opened Wrappers
  import opened Errors
  import opened SessionStore

  /** mwoauth's RequestToken / AccessToken: a named tuple (key, secret). */
  datatype OAuthToken = OAuthToken(key: string, secret: string)

  /** `dict(zip(token._fields, token))` */
  function TokenToDict(t: OAuthToken): (d: map<string, string>)
    ensures d.Keys == {"key", "secret"}
  {
    map["key" := t.key, "secret" := t.secret]
  }

  /** `Token(**d)`: a TypeError unless `d` has exactly the fields key and
      secret. */
  function DictToToken(d: map<string, string>): (r: Option<OAuthToken>)
    ensures r.Some? <==> d.Keys == {"key", "secret"}
  {
    if d.Keys == {"key", "secret"} then Some(OAuthToken(d["key"], d["secret"])) else None
  }

  /** A token stored in the session reads back as the same token. */
  lemma TokenDictRoundTrip(t: OAuthToken)
    ensures DictToToken(TokenToDict(t)) == Some(t)
  {
  }

  /** `Token(**session[key])`: KeyError when the slot is empty, TypeError
      when it does not hold a {key, secret} dict. */
  function ReadToken(s: SessionMap, key: string): (r: Result<OAuthToken, PyError>)
    ensures r.Err? && key !in s ==> r.error == KeyError(key)
    ensures r.Ok? <==> key in s && s[key].Fields? && s[key].m.Keys == {"key", "secret"}
    ensures r.Ok? ==> s[key] == Fields(TokenToDict(r.value))
  {
    if key !in s then Err(KeyError(key))
    else match s[key]
      case Text(_) => Err(TypeError)
      case Fields(d) =>
        match DictToToken(d)
        case Some(t) => Ok(t)
        case None => Err(TypeError)
  }

  /** `login`: stores the request token `initiate` returned. */
  function Login(s: SessionMap, requestToken: OAuthToken): (r: SessionMap)
    ensures ReadToken(r, RequestTokenKey) == Ok(requestToken)
    ensures SameExcept(s, r, RequestTokenKey)
  {
    s[RequestTokenKey := Fields(TokenToDict(requestToken))]
  }

  datatype Completed = Completed(session: SessionMap, requestToken: OAuthToken)

  /** `oauth_callback`: reads the stored request token, hands it to
      `complete`, and stores the access token `complete` returned.
      `exchange` is the outcome of that network exchange: the access token,
      or the exception `complete` raised. The request token is left in the
      session. */
  function Callback(s: SessionMap, exchange: Result<OAuthToken, PyError>): (r: Result<Completed, PyError>)
    ensures r.Err? <==> ReadToken(s, RequestTokenKey).Err? || exchange.Err?
    // The request token is read first: when that fails, `complete` is
    // never reached.
    ensures ReadToken(s, RequestTokenKey).Err? ==> r == Err(ReadToken(s, RequestTokenKey).error)
    ensures ReadToken(s, RequestTokenKey).Ok? && exchange.Err? ==> r == Err(exchange.error)
    ensures r.Ok? ==> ReadToken(s, RequestTokenKey) == Ok(r.value.requestToken)
    ensures r.Ok? ==> ReadToken(r.value.session, AccessTokenKey) == exchange
    ensures r.Ok? ==> SameExcept(s, r.value.session, AccessTokenKey)
  {
    match ReadToken(s, RequestTokenKey)
    case Err(e) => Err(e)
    case Ok(requestToken) =>
      match exchange
      case Err(e) => Err(e)
      case Ok(accessToken) =>
        Ok(Completed(s[AccessTokenKey := Fields(TokenToDict(accessToken))], requestToken))
  }

  /** The three states of the handshake, read off the session. */
  datatype AuthState = Anonymous | Pending | Authenticated

  function StateOf(s: SessionMap): AuthState {
    if AccessTokenKey in s then Authenticated
    else if RequestTokenKey in s then Pending
    else Anonymous
  }

  /** A callback that follows a login, when `complete` returns, succeeds,
      hands `complete` the very request token `initiate` gave, ends
      Authenticated, and keeps the request token. */
  lemma LoginThenCallback(s: SessionMap, requestToken: OAuthToken, accessToken: OAuthToken)
    ensures var r := Callback(Login(s, requestToken), Ok(accessToken));
      && r.Ok?
      && r.value.requestToken == requestToken
      && StateOf(r.value.session) == Authenticated
      && ReadToken(r.value.session, RequestTokenKey) == Ok(requestToken)
  {
  }

  /** When `complete` raises after a login, the callback raises that error
      and stores nothing, so a visitor who was not authenticated stays
      Pending. */
  lemma FailedExchangeStaysPending(s: SessionMap, requestToken: OAuthToken, e: PyError)
    requires AccessTokenKey !in s
    ensures Callback(Login(s, requestToken), Err(e)) == Err(e)
    ensures StateOf(Login(s, requestToken)) == Pending
  {
  }

  /** A callback without a stored request token (the session was lost)
      raises KeyError before `complete` is reached, whatever it would have
      returned. */
  lemma CallbackWithoutLoginFails(s: SessionMap, exchange: Result<OAuthToken, PyError>)
    requires RequestTokenKey !in s
    ensures Callback(s, exchange) == Err(KeyError(RequestTokenKey))
  {
  }
}
