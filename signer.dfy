/**
 * OAuth 1.0a request signing (RFC 5849): the signature base string of
 * section 3.4.1, the HMAC-SHA1 key of section 3.4.2, the default `oauth_*`
 * parameters and the query a signed request carries.
 *
 * HMAC-SHA1 with base64 output is not modelled: it is the parameter `hmac`,
 * applied to (key, text).  The nonce bytes and the clock are inputs too.
 */
module Signer {
  import opened Results
  import opened JsValues
  import opened PercentEncoding

  /** HMAC-SHA1 of (key, text), base64-encoded. */
  type Hmac = (string, string) -> string

  // ------------------------------------------------------ key ordering

  /**
   * The rank of a character in the default order of `Array.prototype.sort`,
   * which compares UTF-16 code units: characters below U+D800 come first,
   * then every supplementary character (its lead surrogate is D800-DBFF),
   * then U+E000 to U+FFFF.  Within each group the order is the code point order.
   */
  function CodeUnitRank(c: char): int {
    var n := c as int;
    if n < 0xD800 then n
    else if n < 0x1_0000 then n + 0x10_0000
    else n - 0x1_0000 + 0xD800
  }

  /** The default string order of `Array.prototype.sort`. */
  predicate KeyLess(a: string, b: string) {
    if a == [] then b != []
    else if b == [] then false
    else if a[0] == b[0] then KeyLess(a[1..], b[1..])
    else CodeUnitRank(a[0]) < CodeUnitRank(b[0])
  }

  lemma RankInjective(c: char, d: char)
    requires c != d
    ensures CodeUnitRank(c) != CodeUnitRank(d)
  {
  }

  lemma {:induction false} KeyLessIrreflexive(a: string)
    ensures !KeyLess(a, a)
  {
    if a != [] {
      KeyLessIrreflexive(a[1..]);
    }
  }

  lemma {:induction false} KeyLessAsymmetric(a: string, b: string)
    requires KeyLess(a, b)
    ensures !KeyLess(b, a)
  {
    if a != [] && b != [] && a[0] == b[0] {
      KeyLessAsymmetric(a[1..], b[1..]);
    }
  }

  lemma {:induction false} KeyLessTransitive(a: string, b: string, c: string)
    requires KeyLess(a, b) && KeyLess(b, c)
    ensures KeyLess(a, c)
  {
    if a != [] && b != [] && c != [] && a[0] == b[0] && b[0] == c[0] {
      KeyLessTransitive(a[1..], b[1..], c[1..]);
    }
  }

  lemma {:induction false} KeyLessTotal(a: string, b: string)
    requires a != b
    ensures KeyLess(a, b) || KeyLess(b, a)
  {
    if a != [] && b != [] {
      if a[0] == b[0] {
        assert a == [a[0]] + a[1..] && b == [b[0]] + b[1..];
        KeyLessTotal(a[1..], b[1..]);
      } else {
        RankInjective(a[0], b[0]);
      }
    }
  }

  /** Strictly ascending in the sort order. */
  predicate Sorted(s: seq<string>) {
    forall i, j :: 0 <= i < j < |s| ==> KeyLess(s[i], s[j])
  }

  /** Inserts one key into an ascending sequence. */
  function Insert(x: string, s: seq<string>): seq<string> {
    if s == [] || !KeyLess(s[0], x) then [x] + s
    else [s[0]] + Insert(x, s[1..])
  }

  /** `keys.sort()`. */
  function Sort(s: seq<string>): seq<string> {
    if s == [] then [] else Insert(s[0], Sort(s[1..]))
  }

  /** Inserting adds exactly the one key. */
  lemma {:induction false} InsertPermutes(x: string, s: seq<string>)
    ensures multiset(Insert(x, s)) == multiset(s) + multiset{x}
  {
    if s != [] && KeyLess(s[0], x) {
      InsertPermutes(x, s[1..]);
      assert s == [s[0]] + s[1..];
    }
  }

  /** Sorting is a permutation. */
  lemma {:induction false} SortPermutes(s: seq<string>)
    ensures multiset(Sort(s)) == multiset(s)
  {
    if s != [] {
      SortPermutes(s[1..]);
      InsertPermutes(s[0], Sort(s[1..]));
      assert s == [s[0]] + s[1..];
    }
  }

  lemma {:induction false} InsertSorted(x: string, s: seq<string>)
    requires Sorted(s) && x !in s
    ensures Sorted(Insert(x, s))
  {
    if s != [] && KeyLess(s[0], x) {
      assert Sorted(s[1..]);
      InsertSorted(x, s[1..]);
      InsertPermutes(x, s[1..]);
      var r := Insert(x, s);
      forall j | 0 < j < |r| ensures KeyLess(r[0], r[j]) {
        assert r[j] in multiset(Insert(x, s[1..]));
        if r[j] != x {
          var k :| 0 <= k < |s[1..]| && s[1..][k] == r[j];
          assert KeyLess(s[0], s[k + 1]);
        }
      }
    } else if s != [] {
      KeyLessTotal(x, s[0]);
      forall j | 0 < j < |s| ensures KeyLess(x, s[j]) {
        KeyLessTransitive(x, s[0], s[j]);
      }
    }
  }

  /** Sorting distinct keys yields them in strictly ascending order. */
  lemma {:induction false} SortSorted(s: seq<string>)
    requires forall i, j :: 0 <= i < j < |s| ==> s[i] != s[j]
    ensures Sorted(Sort(s))
  {
    if s != [] {
      SortSorted(s[1..]);
      SortPermutes(s[1..]);
      assert s[0] !in multiset(s[1..]);
      InsertSorted(s[0], Sort(s[1..]));
    }
  }

  /** Two ascending sequences with the same elements are the same sequence. */
  lemma {:induction false} SortedUnique(a: seq<string>, b: seq<string>)
    requires Sorted(a) && Sorted(b)
    requires forall x :: x in a <==> x in b
    ensures a == b
  {
    assert a != [] ==> a[0] in b;
    assert b != [] ==> b[0] in a;
    if a != [] && b != [] {
      assert a[0] == b[0] by {
        assert b[0] in a && a[0] in b;
        var i :| 0 <= i < |a| && a[i] == b[0];
        var j :| 0 <= j < |b| && b[j] == a[0];
        if i != 0 && j != 0 {
          KeyLessAsymmetric(a[0], a[i]);
        }
      }
      forall x ensures x in a[1..] <==> x in b[1..] {
        KeyLessIrreflexive(a[0]);
        if x in a[1..] {
          var i :| 0 < i < |a| && a[i] == x;
          assert x != a[0];
          assert x in b;
        }
        if x in b[1..] {
          var i :| 0 < i < |b| && b[i] == x;
          assert x != b[0];
          assert x in a;
        }
      }
      SortedUnique(a[1..], b[1..]);
      assert a == [a[0]] + a[1..] && b == [b[0]] + b[1..];
    }
  }

  // --------------------------------------------------- the base string

  /** `parts.join(sep)`. */
  function Join(parts: seq<string>, sep: string): string {
    if parts == [] then ""
    else if |parts| == 1 then parts[0]
    else parts[0] + sep + Join(parts[1..], sep)
  }

  /** The `k=v` pairs of the sorted keys, each side percent-encoded. */
  function Pairs(params: Entries, keys: seq<string>): (r: seq<string>)
    ensures |r| == |keys|
  {
    if keys == [] then []
    else [Percent(keys[0]) + "=" + Percent(ToJsString(Get(params, keys[0])))] + Pairs(params, keys[1..])
  }

  /** The normalized parameter string of section 3.4.1.3.2 of RFC 5849. */
  function Normalized(params: Entries): string {
    Join(Pairs(params, Sort(Keys(params))), "&")
  }

  /** ASCII upper-casing, `toUpperCase` on an HTTP method name. */
  function UpperChar(c: char): char {
    if 'a' <= c <= 'z' then (c as int - 32) as char else c
  }

  function Upper(s: string): (r: string)
    ensures |r| == |s|
  {
    seq(|s|, i requires 0 <= i < |s| => UpperChar(s[i]))
  }

  /** `baseString(method, url, params)`: section 3.4.1 of RFC 5849. */
  function BaseString(httpMethod: string, url: string, params: Entries): string {
    Upper(httpMethod) + "&" + Percent(url) + "&" + Percent(Normalized(params))
  }

  /** The signing key of section 3.4.2 of RFC 5849. */
  function SigningKey(consumerSecret: string, tokenSecret: string): string {
    Percent(consumerSecret) + "&" + Percent(tokenSecret)
  }

  /** `sign(method, url, params, consumerSecret, tokenSecret)`. */
  function Sign(hmac: Hmac, httpMethod: string, url: string, params: Entries,
                consumerSecret: string, tokenSecret: string): string {
    hmac(SigningKey(consumerSecret, tokenSecret), BaseString(httpMethod, url, params))
  }

  /** The number of times `c` occurs in `s`. */
  function Count(s: string, c: char): nat {
    if s == [] then 0 else (if s[0] == c then 1 else 0) + Count(s[1..], c)
  }

  lemma {:induction false} CountAppend(a: string, b: string, c: char)
    ensures Count(a + b, c) == Count(a, c) + Count(b, c)
  {
    if a != [] {
      assert (a + b)[0] == a[0] && (a + b)[1..] == a[1..] + b;
      CountAppend(a[1..], b, c);
    } else {
      assert a + b == b;
    }
  }

  lemma {:induction false} CountAbsent(s: string, c: char)
    requires c !in s
    ensures Count(s, c) == 0
  {
    if s != [] {
      CountAbsent(s[1..], c);
    }
  }

  /**
   * The base string is three segments joined by `&`: the upper-cased method
   * first; the encoded URL and parameter string carry no `&` of their own,
   * so the base string holds exactly two.
   */
  lemma BaseStringSegments(httpMethod: string, url: string, params: Entries)
    requires '&' !in httpMethod
    ensures var b := BaseString(httpMethod, url, params);
      && Count(b, '&') == 2
      && b[..|httpMethod|] == Upper(httpMethod)
      && b[|httpMethod|] == '&'
  {
    var u, e, n := Upper(httpMethod), Percent(url), Percent(Normalized(params));
    PercentChars(url);
    PercentChars(Normalized(params));
    assert '&' !in u by {
      forall i | 0 <= i < |u| ensures u[i] != '&' {
        assert httpMethod[i] != '&';
      }
    }
    CountAbsent(u, '&');
    CountAbsent(e, '&');
    CountAbsent(n, '&');
    CountAppend(u, "&", '&');
    CountAppend(u + "&", e, '&');
    CountAppend(u + "&" + e, "&", '&');
    CountAppend(u + "&" + e + "&", n, '&');
  }

  lemma {:induction false} PairsAgree(p: Entries, q: Entries, keys: seq<string>)
    requires forall k :: k in keys ==> Get(p, k) == Get(q, k)
    ensures Pairs(p, keys) == Pairs(q, keys)
  {
    if keys != [] {
      PairsAgree(p, q, keys[1..]);
    }
  }

  /** Objects with the same properties have the same keys. */
  lemma KeysTransfer(p: Entries, q: Entries)
    requires multiset(p) == multiset(q)
    ensures forall k :: k in Keys(p) ==> k in Keys(q)
  {
    forall k | k in Keys(p) ensures k in Keys(q) {
      var i :| 0 <= i < |p| && p[i].0 == k;
      assert p[i] in multiset(q);
      var j :| 0 <= j < |q| && q[j] == p[i];
      assert Keys(q)[j] == k;
    }
  }

  /** Sorting keeps exactly the elements. */
  lemma SortMembers(s: seq<string>)
    ensures forall x :: x in Sort(s) <==> x in s
  {
    SortPermutes(s);
    forall x ensures x in Sort(s) <==> x in s {
      assert x in multiset(Sort(s)) <==> x in multiset(s);
    }
  }

  /** Objects with the same properties sort their keys the same way. */
  lemma SortedKeysAgree(p: Entries, q: Entries)
    requires DistinctKeys(p) && DistinctKeys(q)
    requires multiset(p) == multiset(q)
    ensures Sort(Keys(p)) == Sort(Keys(q))
  {
    KeysTransfer(p, q);
    KeysTransfer(q, p);
    SortSorted(Keys(p));
    SortSorted(Keys(q));
    SortMembers(Keys(p));
    SortMembers(Keys(q));
    SortedUnique(Sort(Keys(p)), Sort(Keys(q)));
  }

  /**
   * Normalization ignores insertion order: two objects with the same
   * properties give the same base string, and hence the same signature.
   */
  lemma BaseStringOrderIndependent(httpMethod: string, url: string, p: Entries, q: Entries)
    requires DistinctKeys(p) && DistinctKeys(q)
    requires multiset(p) == multiset(q)
    ensures BaseString(httpMethod, url, p) == BaseString(httpMethod, url, q)
  {
    SortedKeysAgree(p, q);
    var keys := Sort(Keys(p));
    SortPermutes(Keys(p));
    forall k | k in keys ensures Get(p, k) == Get(q, k) {
      assert k in multiset(Keys(p));
      var i :| 0 <= i < |p| && p[i].0 == k;
      assert p[i] in multiset(q);
      var j :| 0 <= j < |q| && q[j] == p[i];
      LookupAt(p, i);
      LookupAt(q, j);
      assert Get(p, k) == p[i].1 && Get(q, k) == q[j].1;
    }
    PairsAgree(p, q, keys);
  }

  /** The key has one `&`, after the encoded consumer secret. */
  lemma SigningKeyShape(consumerSecret: string, tokenSecret: string)
    ensures var k := SigningKey(consumerSecret, tokenSecret);
      && Count(k, '&') == 1
      && k[..|Percent(consumerSecret)|] == Percent(consumerSecret)
  {
    PercentChars(consumerSecret);
    PercentChars(tokenSecret);
    CountAbsent(Percent(consumerSecret), '&');
    CountAbsent(Percent(tokenSecret), '&');
    CountAppend(Percent(consumerSecret), "&", '&');
    CountAppend(Percent(consumerSecret) + "&", Percent(tokenSecret), '&');
  }

  /** Without a token secret (the request-token step) the key ends in `&`. */
  lemma RequestTokenKey(consumerSecret: string)
    ensures SigningKey(consumerSecret, "") == Percent(consumerSecret) + "&"
  {
    assert EncodeUriComponent("") == "";
  }

  /** Splitting at the first `&` recovers both sides when the left one holds none. */
  lemma SplitAtAmpersand(x: string, y: string, x2: string, y2: string)
    requires x + "&" + y == x2 + "&" + y2
    requires '&' !in x && '&' !in x2
    ensures x == x2 && y == y2
  {
    var k := x + "&" + y;
    var k2 := x2 + "&" + y2;
    assert k[|x|] == '&' && k2[|x2|] == '&';
    assert |x| == |x2|;
    assert x == k[..|x|] == x2;
    assert y == k[|x| + 1..] == y2;
  }

  /** Different secrets never give the same key. */
  lemma SigningKeyInjective(c1: string, t1: string, c2: string, t2: string)
    requires SigningKey(c1, t1) == SigningKey(c2, t2)
    ensures c1 == c2 && t1 == t2
  {
    PercentChars(c1);
    PercentChars(c2);
    SplitAtAmpersand(Percent(c1), Percent(t1), Percent(c2), Percent(t2));
    PercentInjective(c1, c2);
    PercentInjective(t1, t2);
  }

  /** Same properties in any order, same signature. */
  lemma SignOrderIndependent(hmac: Hmac, httpMethod: string, url: string, p: Entries, q: Entries,
                             consumerSecret: string, tokenSecret: string)
    requires DistinctKeys(p) && DistinctKeys(q)
    requires multiset(p) == multiset(q)
    ensures Sign(hmac, httpMethod, url, p, consumerSecret, tokenSecret)
         == Sign(hmac, httpMethod, url, q, consumerSecret, tokenSecret)
  {
    BaseStringOrderIndependent(httpMethod, url, p, q);
  }
}
