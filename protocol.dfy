/**
 * The endpoints, the requests the client sends, what comes back and the
 * errors the client raises.
 */
module Protocol {
  import opened Results
  import opened JsValues
  import opened OAuth

  const CALLBACK_SCHEME: string := "bulkflick://auth"
  const FLICKR_BASE: string := "https://www.flickr.com/services"
  const API_HOST: string := "https://api.flickr.com"
  const REST: string := API_HOST + "/services/rest/"
  const REQUEST_TOKEN_URL: string := FLICKR_BASE + "/oauth/request_token"
  const AUTHORIZE_URL: string := FLICKR_BASE + "/oauth/authorize"
  const ACCESS_TOKEN_URL: string := FLICKR_BASE + "/oauth/access_token"

  /** An outgoing GET: the URL before the `?` and the pairs of its query. */
  datatype Request = Request(url: string, query: Query)

  /** Something the client did to the outside world. */
  datatype Effect = Fetch(request: Request) | OpenWindow(request: Request)

  /** The errors the core throws. */
  datatype Error =
    | NetworkError       // `fetch`, reading the body or parsing JSON rejected
    | NoRequestToken     // "Failed to obtain request token"
    | WindowLoadFailed   // `popup.loadURL` rejected
    | AuthWindowClosed   // "Auth window closed"
    | NoVerifier         // "No oauth_verifier returned"
    | NoAccessToken      // "Failed to obtain access token"
    | NotAuthenticated   // "Not authenticated"
    | ApiError(message: string)
    | TypeError          // a property read on `null`

  /** The reply of a token endpoint: its URL-encoded body as name/value pairs. */
  datatype TokenReply = TokenFetchFailed | TokenBody(pairs: Query)

  /** How the authorization window ends. */
  datatype WindowOutcome =
    | LoadFailed
    | ClosedByUser
    | Callback(verifier: Option<string>)   // navigation to the callback scheme, with its `oauth_verifier`

  /** A REST reply: the JSON envelope, with `stat`, `message` and the method's payload. */
  datatype Envelope<P> = FetchFailed | Json(stat: Value, message: Value, payload: P)

  /** The pairs of a URL-encoded body as an object (`Object.fromEntries`). */
  function BodyObject(pairs: Query): Entries {
    FromEntries(seq(|pairs|, i requires 0 <= i < |pairs| => (pairs[i].0, Str(pairs[i].1))))
  }

  /** A string field of a URL-encoded body: the value of its last occurrence. */
  function BodyField(pairs: Query, name: string): Option<string> {
    match Lookup(BodyObject(pairs), name)
    case Some(Str(s)) => Some(s)
    case _ => None
  }
}
