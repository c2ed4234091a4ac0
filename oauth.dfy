/**
 * The `oauth_*` protocol parameters every signed request carries, and the
 * query string a parameter object turns into.
 */
module OAuth {
  import opened Results
  import opened JsValues
  import opened PercentEncoding

  /** The application's consumer key and secret. */
  datatype Credentials = Credentials(apiKey: string, apiSecret: string)

  /**
   * What a signed request draws from outside: the 16 random bytes of
   * `crypto.randomBytes(16)` and the clock reading `Date.now()` in milliseconds.
   */
  datatype Fresh = Fresh(random: seq<Byte>, nowMillis: nat)

  /** `crypto.randomBytes(16).toString("hex")`. */
  function Nonce(f: Fresh): string {
    HexLower(f.random)
  }

  /** `Math.floor(Date.now() / 1000).toString()`: whole seconds. */
  function Timestamp(f: Fresh): string {
    NaturalDecimal(f.nowMillis / 1000)
  }

  const OAUTH_KEYS: seq<string> :=
    ["oauth_consumer_key", "oauth_nonce", "oauth_signature_method", "oauth_timestamp", "oauth_version"]

  /** The five protocol parameters, in the order the source writes them. */
  function Defaults(creds: Credentials, f: Fresh): Entries {
    [ ("oauth_consumer_key", Str(creds.apiKey)),
      ("oauth_nonce", Str(Nonce(f))),
      ("oauth_signature_method", Str("HMAC-SHA1")),
      ("oauth_timestamp", Str(Timestamp(f))),
      ("oauth_version", Str("1.0")) ]
  }

  /** The defaults are the five protocol parameters, each once. */
  lemma DefaultsShape(creds: Credentials, f: Fresh)
    ensures Keys(Defaults(creds, f)) == OAUTH_KEYS
    ensures DistinctKeys(Defaults(creds, f))
  {
    var d := Defaults(creds, f);
    assert Keys(d) == OAUTH_KEYS by {
      forall i | 0 <= i < |d| ensures Keys(d)[i] == OAUTH_KEYS[i] {
      }
    }
    forall i, j | 0 <= i < j < |d| ensures d[i].0 != d[j].0 {
      assert |d[i].0| != |d[j].0|;
    }
  }

  /** `oauthParams(extra)`: the defaults, then `extra` spread over them. */
  function OauthParams(creds: Credentials, f: Fresh, extra: Entries): Entries {
    Spread(Defaults(creds, f), extra)
  }

  /**
   * `extra` wins: each of its properties overrides a default, and every
   * default it does not name is present with its default value, the five
   * defaults leading in their own order.
   */
  lemma OauthParamsLookup(creds: Credentials, f: Fresh, extra: Entries, k: string)
    ensures Lookup(OauthParams(creds, f, extra), k)
         == if k in Keys(extra) then LastValue(extra, k) else Lookup(Defaults(creds, f), k)
    ensures OAUTH_KEYS <= Keys(OauthParams(creds, f, extra))
    ensures DistinctKeys(OauthParams(creds, f, extra))
  {
    DefaultsShape(creds, f);
    SpreadLookup(Defaults(creds, f), extra, k);
    SpreadKeysPrefix(Defaults(creds, f), extra);
    SpreadDistinct(Defaults(creds, f), extra);
  }

  /** A default that `extra` does not name keeps its default value. */
  lemma OauthParamsDefault(creds: Credentials, f: Fresh, extra: Entries, i: nat)
    requires i < |OAUTH_KEYS| && OAUTH_KEYS[i] !in Keys(extra)
    ensures Lookup(OauthParams(creds, f, extra), OAUTH_KEYS[i]) == Some(Defaults(creds, f)[i].1)
  {
    OauthParamsLookup(creds, f, extra, OAUTH_KEYS[i]);
    DefaultsShape(creds, f);
    LookupAt(Defaults(creds, f), i);
  }

  // ---------------------------------------------------------- query

  /** A query string as its name/value pairs, before form encoding. */
  type Query = seq<(string, string)>

  /**
   * The pairs `toQuery(obj)` appends: every property whose value is not
   * `undefined`, in order, its value converted with `String(v)`.
   */
  function QueryOf(o: Entries): (q: Query)
    ensures |q| <= |o|
  {
    if o == [] then []
    else (if o[0].1 == Undefined then [] else [(o[0].0, ToJsString(o[0].1))]) + QueryOf(o[1..])
  }

  /** `toQuery` keeps order: the query of a concatenation is the concatenation of the queries. */
  lemma {:induction false} QueryOfAppend(a: Entries, b: Entries)
    ensures QueryOf(a + b) == QueryOf(a) + QueryOf(b)
  {
    if a != [] {
      assert (a + b)[0] == a[0] && (a + b)[1..] == a[1..] + b;
      QueryOfAppend(a[1..], b);
    } else {
      assert a + b == b;
    }
  }

  /** A pair is in the query exactly when a defined property produced it. */
  lemma {:induction false} QueryOfMember(o: Entries, k: string, s: string)
    ensures (k, s) in QueryOf(o)
        <==> exists i :: 0 <= i < |o| && o[i].0 == k && o[i].1 != Undefined && ToJsString(o[i].1) == s
  {
    if o != [] {
      QueryOfMember(o[1..], k, s);
      if (k, s) in QueryOf(o[1..]) {
        var i :| 0 <= i < |o[1..]| && o[1..][i].0 == k && o[1..][i].1 != Undefined && ToJsString(o[1..][i].1) == s;
        assert o[i + 1] == o[1..][i];
      }
      if exists i :: 0 <= i < |o| && o[i].0 == k && o[i].1 != Undefined && ToJsString(o[i].1) == s {
        var i :| 0 <= i < |o| && o[i].0 == k && o[i].1 != Undefined && ToJsString(o[i].1) == s;
        if i > 0 {
          assert o[1..][i - 1] == o[i];
        }
      }
    }
  }

  /** `toQuery(obj)`: appends each defined property in turn. */
  method ToQuery(o: Entries) returns (q: Query)
    ensures q == QueryOf(o)
  {
    q := [];
    for i := 0 to |o|
      invariant q == QueryOf(o[..i])
    {
      var (k, v) := o[i];
      if v != Undefined {
        q := q + [(k, ToJsString(v))];
      }
      QueryOfAppend(o[..i], [o[i]]);
      assert o[..i + 1] == o[..i] + [o[i]];
    }
    assert o[..|o|] == o;
  }

  /** A string property spread last always reaches the query. */
  lemma SignatureInQuery(o: Entries, k: string, s: string)
    ensures (k, s) in QueryOf(Spread(o, [(k, Str(s))]))
  {
    var extra: Entries := [(k, Str(s))];
    var r := Spread(o, extra);
    SpreadLookup(o, extra, k);
    assert Keys(extra) == [k];
    assert LastValue(extra, k) == Some(Str(s));
    var i := LookupIndex(r, k);
    QueryOfMember(r, k, s);
  }

  /** Where a property is found. */
  lemma {:induction false} LookupIndex(o: Entries, k: string) returns (i: nat)
    requires Lookup(o, k).Some?
    ensures i < |o| && o[i] == (k, Lookup(o, k).value)
  {
    if o[0].0 == k {
      i := 0;
    } else {
      var j := LookupIndex(o[1..], k);
      i := j + 1;
    }
  }
}
