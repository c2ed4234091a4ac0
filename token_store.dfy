/** The persisted access token and the store that holds it. */
module TokenStore {
  import opened Results
  import opened JsValues

  /**
   * The record in the token file: `oauth_token`, `oauth_token_secret`,
   * `user_nsid`, `username`, `fullname`; a missing field is `None`.
   */
  datatype StoredToken = StoredToken(
    token: Option<string>,
    tokenSecret: Option<string>,
    userNsid: Option<string>,
    username: Option<string>,
    fullname: Option<string>)

  /** Both token fields present and non-empty. */
  predicate Complete(t: StoredToken) {
    Truthy(OptValue(t.token)) && Truthy(OptValue(t.tokenSecret))
  }

  /**
   * The token file.  `file` is what `readToken` returns (`None` for a missing
   * or unreadable file); `writes` records every `writeToken` call.
   */
  class Store {
    var file: Option<StoredToken>
    ghost var writes: seq<StoredToken>

    constructor (initial: Option<StoredToken>)
      ensures file == initial && writes == []
    {
      file := initial;
      writes := [];
    }

    /** `readToken()`. */
    method Read() returns (t: Option<StoredToken>)
      ensures t == file
    {
      t := file;
    }

    /** `writeToken(t)`: later reads return `t`. */
    method Write(t: StoredToken)
      modifies this
      ensures file == Some(t)
      ensures writes == old(writes) + [t]
    {
      file := Some(t);
      writes := writes + [t];
    }

    /** `clearToken()`: later reads return nothing. */
    method Clear()
      modifies this
      ensures file == None
      ensures writes == old(writes)
    {
      file := None;
    }
  }
}
