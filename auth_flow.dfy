/**
 * `ensureLogin`: the three-legged OAuth 1.0a handshake (request token, user
 * authorization in a window, access token), skipped when the store already
 * holds a complete token, and persisted only when every step succeeded.
 *
 * The token endpoint and the authorization window are parameters: only
 * their outcomes enter the model.  The request-token request draws its nonce
 * and clock from `entropy(0)`, the access-token request from `entropy(1)`.
 */
module AuthFlow {
  import opened Results
  import opened JsValues
  import opened PercentEncoding
  import opened Signer
  import opened OAuth
  import opened Protocol
  import opened TokenStore

  /** A query of `params` plus the `oauth_signature` computed over them. */
  function SignedQuery(creds: Credentials, hmac: Hmac, url: string, params: Entries, tokenSecret: string): Query {
    QueryOf(Spread(params, [("oauth_signature", Str(Sign(hmac, "GET", url, params, creds.apiSecret, tokenSecret)))]))
  }

  /** Step 1: the request-token request, with the callback and no token secret. */
  function RequestTokenParams(creds: Credentials, f: Fresh): Entries {
    OauthParams(creds, f, [("oauth_callback", Str(CALLBACK_SCHEME))])
  }

  function RequestTokenRequest(creds: Credentials, hmac: Hmac, f: Fresh): Request {
    Request(REQUEST_TOKEN_URL, SignedQuery(creds, hmac, REQUEST_TOKEN_URL, RequestTokenParams(creds, f), ""))
  }

  /** Step 2: the page the window opens, asking for read permission. */
  function AuthorizeRequest(requestToken: string): Request {
    Request(AUTHORIZE_URL, QueryOf([("oauth_token", Str(requestToken)), ("perms", Str("read"))]))
  }

  /** Step 3: the access-token request, signed with the request-token secret. */
  function AccessTokenParams(creds: Credentials, f: Fresh, requestToken: string, verifier: string): Entries {
    OauthParams(creds, f, [("oauth_token", Str(requestToken)), ("oauth_verifier", Str(verifier))])
  }

  function AccessTokenRequest(creds: Credentials, hmac: Hmac, f: Fresh,
                              requestToken: string, requestSecret: string, verifier: string): Request {
    Request(ACCESS_TOKEN_URL,
            SignedQuery(creds, hmac, ACCESS_TOKEN_URL, AccessTokenParams(creds, f, requestToken, verifier), requestSecret))
  }

  /** The token record built from the access-token reply. */
  function AccessToken(body: Query): StoredToken {
    StoredToken(BodyField(body, "oauth_token"), BodyField(body, "oauth_token_secret"),
                BodyField(body, "user_nsid"), BodyField(body, "username"), BodyField(body, "fullname"))
  }

  /** A handshake's outcome and what it did to the outside world, in order. */
  datatype Login = Login(outcome: Result<StoredToken, Error>, trace: seq<Effect>)

  /** Both fields of the request-token reply present and non-empty. */
  predicate HasRequestToken(body: Query) {
    Truthy(OptValue(BodyField(body, "oauth_token"))) && Truthy(OptValue(BodyField(body, "oauth_token_secret")))
  }

  /** Step 3 onwards: exchange the verified request token for an access token. */
  function AccessLeg(creds: Credentials, hmac: Hmac, f: Fresh, token: string, secret: string, verifier: string,
                     tokenEndpoint: Request -> TokenReply): (r: Login)
    ensures r.trace == [Fetch(AccessTokenRequest(creds, hmac, f, token, secret, verifier))]
    ensures r.outcome.Ok? <==>
      tokenEndpoint(r.trace[0].request).TokenBody? && Complete(AccessToken(tokenEndpoint(r.trace[0].request).pairs))
    ensures r.outcome.Ok? ==> r.outcome.value == AccessToken(tokenEndpoint(r.trace[0].request).pairs)
  {
    var acc := AccessTokenRequest(creds, hmac, f, token, secret, verifier);
    match tokenEndpoint(acc)
    case TokenFetchFailed => Login(Err(NetworkError), [Fetch(acc)])
    case TokenBody(body) =>
      var t := AccessToken(body);
      if !Complete(t) then Login(Err(NoAccessToken), [Fetch(acc)]) else Login(Ok(t), [Fetch(acc)])
  }

  /**
   * Step 2 onwards: open the authorization window and, given a non-empty
   * verifier, go on to the access token.  Closing the window or a callback
   * without a verifier stops the login before any further request.
   */
  function WindowLeg(creds: Credentials, hmac: Hmac, f: Fresh, token: string, secret: string,
                     tokenEndpoint: Request -> TokenReply, window: Request -> WindowOutcome): (r: Login)
    ensures 1 <= |r.trace| <= 2 && r.trace[0] == OpenWindow(AuthorizeRequest(token))
    ensures window(AuthorizeRequest(token)) == LoadFailed ==> r == Login(Err(WindowLoadFailed), r.trace[..1])
    ensures window(AuthorizeRequest(token)) == ClosedByUser ==> r == Login(Err(AuthWindowClosed), r.trace[..1])
    ensures window(AuthorizeRequest(token)) in {Callback(None), Callback(Some(""))} ==>
      r == Login(Err(NoVerifier), r.trace[..1])
    ensures |r.trace| == 2 <==> window(AuthorizeRequest(token)).Callback? && window(AuthorizeRequest(token)).verifier.GetOr("") != ""
    ensures r.outcome.Ok? ==> |r.trace| == 2 && Complete(r.outcome.value)
    ensures |r.trace| == 2 ==>
      r == Login(AccessLeg(creds, hmac, f, token, secret, window(AuthorizeRequest(token)).verifier.value, tokenEndpoint).outcome,
                 r.trace[..1] + AccessLeg(creds, hmac, f, token, secret, window(AuthorizeRequest(token)).verifier.value, tokenEndpoint).trace)
  {
    var auth := AuthorizeRequest(token);
    match window(auth)
    case LoadFailed => Login(Err(WindowLoadFailed), [OpenWindow(auth)])
    case ClosedByUser => Login(Err(AuthWindowClosed), [OpenWindow(auth)])
    case Callback(v) =>
      var verifier := v.GetOr("");
      if verifier == "" then Login(Err(NoVerifier), [OpenWindow(auth)])
      else
        var rest := AccessLeg(creds, hmac, f, token, secret, verifier, tokenEndpoint);
        Login(rest.outcome, [OpenWindow(auth)] + rest.trace)
  }

  /** The request-token step succeeded: a reply with both fields non-empty. */
  predicate RequestTokenGranted(reply: TokenReply) {
    reply.TokenBody? && HasRequestToken(reply.pairs)
  }

  /**
   * The whole handshake.  A failed or incomplete request-token reply stops it
   * before any window opens, and only a complete token is ever a success.
   */
  function Handshake(creds: Credentials, hmac: Hmac, entropy: nat -> Fresh,
                     tokenEndpoint: Request -> TokenReply, window: Request -> WindowOutcome): (r: Login)
    ensures 1 <= |r.trace| <= 3 && r.trace[0] == Fetch(RequestTokenRequest(creds, hmac, entropy(0)))
    ensures |r.trace| == 1 <==> !RequestTokenGranted(tokenEndpoint(RequestTokenRequest(creds, hmac, entropy(0))))
    ensures |r.trace| == 1 ==> r.outcome.Err?
    ensures |r.trace| >= 2 ==> r.trace[1].OpenWindow? && r.trace[1].request.url == AUTHORIZE_URL
    ensures |r.trace| == 3 ==> r.trace[2].Fetch? && r.trace[2].request.url == ACCESS_TOKEN_URL
    ensures r.outcome.Ok? ==> Complete(r.outcome.value) && |r.trace| == 3
  {
    var req := RequestTokenRequest(creds, hmac, entropy(0));
    match tokenEndpoint(req)
    case TokenFetchFailed => Login(Err(NetworkError), [Fetch(req)])
    case TokenBody(pairs) =>
      if !HasRequestToken(pairs) then Login(Err(NoRequestToken), [Fetch(req)])
      else
        var token, secret := BodyField(pairs, "oauth_token").value, BodyField(pairs, "oauth_token_secret").value;
        var rest := WindowLeg(creds, hmac, entropy(1), token, secret, tokenEndpoint, window);
        Login(rest.outcome, [Fetch(req)] + rest.trace)
  }

  /** A request-token reply missing either field fails the login before any window opens. */
  lemma IncompleteRequestTokenFails(creds: Credentials, hmac: Hmac, entropy: nat -> Fresh,
                                    tokenEndpoint: Request -> TokenReply, window: Request -> WindowOutcome)
    requires tokenEndpoint(RequestTokenRequest(creds, hmac, entropy(0))).TokenBody?
    requires !HasRequestToken(tokenEndpoint(RequestTokenRequest(creds, hmac, entropy(0))).pairs)
    ensures Handshake(creds, hmac, entropy, tokenEndpoint, window).outcome == Err(NoRequestToken)
    ensures |Handshake(creds, hmac, entropy, tokenEndpoint, window).trace| == 1
  {
  }

  /**
   * The request-token request is signed with the consumer secret alone: its
   * key is the encoded secret followed by `&`.
   */
  lemma RequestTokenSignedWithoutSecret(creds: Credentials, hmac: Hmac, f: Fresh)
    ensures ("oauth_signature",
             hmac(Percent(creds.apiSecret) + "&", BaseString("GET", REQUEST_TOKEN_URL, RequestTokenParams(creds, f))))
            in RequestTokenRequest(creds, hmac, f).query
  {
    RequestTokenKey(creds.apiSecret);
    SignatureInQuery(RequestTokenParams(creds, f), "oauth_signature",
                     Sign(hmac, "GET", REQUEST_TOKEN_URL, RequestTokenParams(creds, f), creds.apiSecret, ""));
  }

  /** The access-token request carries the request token and the verifier. */
  lemma AccessTokenParamsCarry(creds: Credentials, f: Fresh, token: string, verifier: string)
    ensures Lookup(AccessTokenParams(creds, f, token, verifier), "oauth_token") == Some(Str(token))
    ensures Lookup(AccessTokenParams(creds, f, token, verifier), "oauth_verifier") == Some(Str(verifier))
    ensures DistinctKeys(AccessTokenParams(creds, f, token, verifier))
  {
    var extra: Entries := [("oauth_token", Str(token)), ("oauth_verifier", Str(verifier))];
    assert Keys(extra) == ["oauth_token", "oauth_verifier"];
    OauthParamsLookup(creds, f, extra, "oauth_token");
    OauthParamsLookup(creds, f, extra, "oauth_verifier");
  }

  /**
   * The access-token request is signed with the consumer secret and the
   * request-token secret, over its own parameters.
   */
  lemma AccessTokenRequestSigned(creds: Credentials, hmac: Hmac, f: Fresh, token: string, secret: string, verifier: string)
    ensures var ps := AccessTokenParams(creds, f, token, verifier);
      ("oauth_signature", Sign(hmac, "GET", ACCESS_TOKEN_URL, ps, creds.apiSecret, secret))
        in AccessTokenRequest(creds, hmac, f, token, secret, verifier).query
  {
    var ps := AccessTokenParams(creds, f, token, verifier);
    var sig := Sign(hmac, "GET", ACCESS_TOKEN_URL, ps, creds.apiSecret, secret);
    assert AccessTokenRequest(creds, hmac, f, token, secret, verifier).query
        == QueryOf(Spread(ps, [("oauth_signature", Str(sig))]));
    SignatureInQuery(ps, "oauth_signature", sig);
  }

  /** `ensureLogin(parent)` over the token store. */
  method EnsureLogin(store: Store, creds: Credentials, hmac: Hmac, entropy: nat -> Fresh,
                     tokenEndpoint: Request -> TokenReply, window: Request -> WindowOutcome)
    returns (r: Result<StoredToken, Error>, trace: seq<Effect>)
    modifies store
    ensures old(store.file).Some? && Complete(old(store.file).value) ==>
      r == Ok(old(store.file).value) && trace == [] && store.file == old(store.file) && store.writes == old(store.writes)
    ensures !(old(store.file).Some? && Complete(old(store.file).value)) ==>
      Login(r, trace) == Handshake(creds, hmac, entropy, tokenEndpoint, window)
    ensures r.Err? ==> store.file == old(store.file) && store.writes == old(store.writes)
    ensures r.Ok? ==> Complete(r.value) && store.file == Some(r.value)
    ensures r.Ok? && !(old(store.file).Some? && Complete(old(store.file).value)) ==>
      store.writes == old(store.writes) + [r.value]
  {
    var existing := store.Read();
    if existing.Some? && Complete(existing.value) {
      return Ok(existing.value), [];
    }
    var login := Handshake(creds, hmac, entropy, tokenEndpoint, window);
    if login.outcome.Ok? {
      store.Write(login.outcome.value);
    }
    r, trace := login.outcome, login.trace;
  }
}
