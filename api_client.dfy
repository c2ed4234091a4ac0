/**
 * `flickr(method, params)`: one signed GET against the REST endpoint, with
 * the stored access token, and the check of the envelope's `stat`.
 */
module ApiClient {
  import opened Results
  import opened JsValues
  import opened Signer
  import opened OAuth
  import opened Protocol
  import opened TokenStore

  const ENVELOPE_KEYS: seq<string> := ["method", "api_key", "format", "nojsoncallback"]

  /** The caller's parameters with every value converted by `String(v)`. */
  function Stringify(params: Entries): (r: Entries)
    ensures Keys(r) == Keys(params)
  {
    if params == [] then []
    else [(params[0].0, Str(ToJsString(params[0].1)))] + Stringify(params[1..])
  }

  lemma {:induction false} StringifyLast(params: Entries, k: string)
    requires k in Keys(params)
    ensures LastValue(Stringify(params), k) == Some(Str(ToJsString(LastValue(params, k).value)))
  {
    if params != [] && k in Keys(params[1..]) {
      StringifyLast(params[1..], k);
    }
  }

  /** The fixed envelope parameters. */
  function Fixed(creds: Credentials, apiMethod: string): Entries {
    [("method", Str(apiMethod)), ("api_key", Str(creds.apiKey)),
     ("format", Str("json")), ("nojsoncallback", Str("1"))]
  }

  /** The envelope parameters, each once. */
  lemma FixedShape(creds: Credentials, apiMethod: string)
    ensures Keys(Fixed(creds, apiMethod)) == ENVELOPE_KEYS
    ensures DistinctKeys(Fixed(creds, apiMethod))
  {
    var d := Fixed(creds, apiMethod);
    assert Keys(d) == ENVELOPE_KEYS by {
      forall i | 0 <= i < |d| ensures Keys(d)[i] == ENVELOPE_KEYS[i] {
      }
    }
    forall i, j | 0 <= i < j < |d| ensures d[i].0 != d[j].0 {
      assert d[i].0[0] != d[j].0[0];
    }
  }

  /** `baseParams`: the envelope parameters, then the caller's parameters as strings. */
  function BaseParams(creds: Credentials, apiMethod: string, params: Entries): Entries {
    Spread(Fixed(creds, apiMethod), Stringify(params))
  }

  /** `all`: the OAuth parameters with the stored `oauth_token`, then `baseParams` over them. */
  function RestParams(creds: Credentials, f: Fresh, t: StoredToken, apiMethod: string, params: Entries): Entries {
    Spread(OauthParams(creds, f, [("oauth_token", OptValue(t.token))]), BaseParams(creds, apiMethod, params))
  }

  /** The `tokenSecret` argument: an absent secret falls back to the default `""`. */
  function SecretArg(t: StoredToken): string {
    t.tokenSecret.GetOr("")
  }

  /** The signed GET that `flickr` sends. */
  function RestRequest(creds: Credentials, hmac: Hmac, f: Fresh, t: StoredToken,
                       apiMethod: string, params: Entries): Request {
    var all := RestParams(creds, f, t, apiMethod, params);
    var sig := Sign(hmac, "GET", REST, all, creds.apiSecret, SecretArg(t));
    Request(REST, QueryOf(Spread(all, [("oauth_signature", Str(sig))])))
  }

  /** The fallback text when the envelope's `message` is falsy. */
  const API_ERROR_FALLBACK: string := "Flickr API error"

  /** Reading the envelope: anything but `stat === "ok"` is an error carrying `message`. */
  function EnvelopeOutcome<P>(env: Envelope<P>): (r: Result<P, Error>)
    ensures r.Ok? <==> env.Json? && env.stat == Str("ok")
    ensures r.Ok? ==> r.value == env.payload
    ensures env.Json? && env.stat != Str("ok") ==>
      r == Err(ApiError(if Truthy(env.message) then ToJsString(env.message) else API_ERROR_FALLBACK))
    ensures env.FetchFailed? ==> r == Err(NetworkError)
  {
    match env
    case FetchFailed => Err(NetworkError)
    case Json(stat, message, payload) =>
      if stat == Str("ok") then Ok(payload)
      else Err(ApiError(if Truthy(message) then ToJsString(message) else API_ERROR_FALLBACK))
  }

  /** What one call made: its outcome and the requests that went out. */
  datatype Reply<P> = Reply(outcome: Result<P, Error>, sent: seq<Request>)

  /**
   * `flickr(apiMethod, params)` with the token the store holds, the fresh
   * nonce and clock `f`, and the remote `respond`.
   */
  function Call<P>(token: Option<StoredToken>, creds: Credentials, hmac: Hmac, f: Fresh,
                   respond: Request -> Envelope<P>, apiMethod: string, params: Entries): (r: Reply<P>)
    ensures token.None? ==> r.outcome == Err(NotAuthenticated) && r.sent == []
    ensures token.Some? ==> |r.sent| == 1 && r.sent[0].url == REST
    ensures r.outcome.Ok? <==>
      token.Some? && respond(r.sent[0]).Json? && respond(r.sent[0]).stat == Str("ok")
    ensures token.Some? ==> r.outcome == EnvelopeOutcome(respond(r.sent[0]))
  {
    match token
    case None => Reply(Err(NotAuthenticated), [])
    case Some(t) =>
      var req := RestRequest(creds, hmac, f, t, apiMethod, params);
      Reply(EnvelopeOutcome(respond(req)), [req])
  }

  /**
   * Merge precedence in `flickr`: a caller parameter (as a string) wins, then
   * an envelope parameter, then the OAuth parameters with the stored token.
   */
  lemma RestParamsPrecedence(creds: Credentials, f: Fresh, t: StoredToken, apiMethod: string,
                             params: Entries, k: string)
    ensures Lookup(RestParams(creds, f, t, apiMethod, params), k) ==
      if k in Keys(params) then Some(Str(ToJsString(LastValue(params, k).value)))
      else if k in ENVELOPE_KEYS then Lookup(Fixed(creds, apiMethod), k)
      else Lookup(OauthParams(creds, f, [("oauth_token", OptValue(t.token))]), k)
  {
    var oa := OauthParams(creds, f, [("oauth_token", OptValue(t.token))]);
    var fx, st := Fixed(creds, apiMethod), Stringify(params);
    var base := Spread(fx, st);
    FixedShape(creds, apiMethod);
    assert RestParams(creds, f, t, apiMethod, params) == Spread(oa, base);
    SpreadLookup(oa, base, k);
    SpreadKeysPrefix(fx, st);
    if k in Keys(base) {
      SpreadDistinct(fx, st);
      LastValueDistinct(base, k);
      SpreadLookup(fx, st, k);
      if k in Keys(params) {
        StringifyLast(params, k);
      }
    }
  }

  /** Unless the caller overrides it, the stored `oauth_token` goes out with the request parameters. */
  lemma RestParamsCarryToken(creds: Credentials, f: Fresh, t: StoredToken, apiMethod: string, params: Entries)
    requires "oauth_token" !in Keys(params)
    ensures Lookup(RestParams(creds, f, t, apiMethod, params), "oauth_token") == Some(OptValue(t.token))
  {
    RestParamsPrecedence(creds, f, t, apiMethod, params, "oauth_token");
    OauthParamsLookup(creds, f, [("oauth_token", OptValue(t.token))], "oauth_token");
  }

  /**
   * The request carries the signature made with the consumer secret and the
   * stored token secret over the merged parameters.
   */
  lemma RestRequestSigned(creds: Credentials, hmac: Hmac, f: Fresh, t: StoredToken,
                          apiMethod: string, params: Entries)
    ensures var all := RestParams(creds, f, t, apiMethod, params);
      ("oauth_signature", hmac(SigningKey(creds.apiSecret, SecretArg(t)), BaseString("GET", REST, all)))
        in RestRequest(creds, hmac, f, t, apiMethod, params).query
  {
    var all := RestParams(creds, f, t, apiMethod, params);
    var sig := Sign(hmac, "GET", REST, all, creds.apiSecret, SecretArg(t));
    assert RestRequest(creds, hmac, f, t, apiMethod, params).query
        == QueryOf(Spread(all, [("oauth_signature", Str(sig))]));
    SignatureInQuery(all, "oauth_signature", sig);
  }
}
