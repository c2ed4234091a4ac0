# BulkFlick Flickr client core, in Dafny

BulkFlick is a desktop app that downloads whole Flickr albums. This project
models the core of its main process, `dist/app/flickr.main.js`, together with
the token file of `dist/app/secure-store.js`:

- **OAuth 1.0a signing:** `percent`, `baseString`, `sign`, `oauthParams` and
  `toQuery`.
- **Login:** the three-legged handshake of `ensureLogin`. It fetches a request
  token, opens the authorization window, reads the verifier from the callback
  and exchanges it for an access token, which it stores.
- **Signed REST calls:** `flickr`, and the two listings built on it:
  - `getAlbums` lists the user's photosets, with a thumbnail for each;
  - `getAlbumPhotos` pages through an album, choosing each photo's URL with
    `pickBestUrl`.

The model is organised as follows:

- **Values and objects:** JavaScript values are `Value`. A plain object is its
  list of properties in insertion order (`Entries`), and object spread and
  `Object.fromEntries` are `Spread`.
- **Tokens:** the token file is the class `TokenStore.Store`, whose methods
  update the file in place.
- **Effects:** the network and the login window are functions from the
  request to its reply. Each operation returns the requests it sent, in order,
  and the handshake returns its trace of fetches and opened windows.
- **Randomness and time:** the nonce bytes and the clock are supplied as
  `Fresh` values drawn from `entropy: nat -> Fresh`. Each operation fixes its
  own indexing: the handshake's two signed requests draw `entropy(0)` and `entropy(1)`, the
  request for page `p` of `getAlbumPhotos` draws `entropy(p)`, and `getAlbums`
  draws `entropy(0)` for the listing and `entropy(1 + 2i)` and `entropy(2 + 2i)`
  for album `i`'s two calls.
- **HMAC:** the HMAC-SHA1/base64 primitive is the parameter `hmac`.
- **Loops:** the loops of `toQuery`, `pickBestUrl`, `getAlbums` and
  `getAlbumPhotos` are methods with loop invariants, each proved against a
  specification function.

Section 3.4.1.3.2 of RFC 5849 sorts the parameters by their encoded names.
`baseString` sorts the raw keys (`dist/app/flickr.main.js:19-20`) and encodes
them afterwards, so `Signer.Normalized` sorts raw keys. For the keys the core
builds (ASCII letters and `_`) the two orders agree.

## Model

| member | source | states |
|---|---|---|
| JsValues.Keys | dist/app/flickr.main.js:19 | `Object.keys`: one key per property, the i-th key being the i-th property's name |
| JsValues.Lookup | dist/app/flickr.main.js:21 | a property is found exactly when its key is among the object's keys |
| JsValues.LastValue | dist/app/flickr.main.js:128 | `Object.fromEntries` keeps a value exactly for the keys that occur |
| JsValues.Put | dist/app/flickr.main.js:30-38 | definition: assigning a property overwrites an existing key in place and appends a new one (properties in `PutLookup`, `PutKeys`, `PutDistinct`) |
| JsValues.Spread | dist/app/flickr.main.js:130-133 | definition: `{...a, ...b}` assigns b's properties onto a, in b's order (properties in `SpreadLookup`, `SpreadKeysPrefix`, `SpreadDistinct`) |
| JsValues.FromEntries | dist/app/flickr.main.js:128 | definition: `Object.fromEntries` assigns the pairs in order onto an empty object, so the last value of a key wins (`SpreadLookup` with an empty first object) |
| JsValues.NaturalDecimal | dist/app/flickr.main.js:35 | `toString()` of a whole number is a non-empty string of decimal digits |
| JsValues.Decimal | dist/app/flickr.main.js:128 | `String(n)` of a number is never empty |
| JsValues.PutLookup | dist/app/flickr.main.js:30-38 | writing property k sets k's value and leaves every other property's value as it was |
| JsValues.PutKeys | dist/app/flickr.main.js:30-38 | writing an existing key keeps the key order; writing a new key appends it |
| JsValues.PutDistinct | dist/app/flickr.main.js:30-38 | writing a property never duplicates a key |
| JsValues.SpreadLookup | dist/app/flickr.main.js:130-133 | in `{...a, ...b}`, b's last value wins for its keys, and a's value stands for the rest |
| JsValues.SpreadKeysPrefix | dist/app/flickr.main.js:130-133 | the keys of `{...a, ...b}` start with a's keys in order, and are exactly the keys of a and b |
| JsValues.SpreadDistinct | dist/app/flickr.main.js:130-133 | spreading into an object with distinct keys keeps the keys distinct |
| JsValues.LastValueDistinct | dist/app/flickr.main.js:128 | with distinct keys, the last value of a key is its only value |
| JsValues.LookupAt | dist/app/flickr.main.js:21 | with distinct keys, the i-th property is found under its own key |
| PercentEncoding.Utf8RoundTrip | dist/app/flickr.main.js:16 | the UTF-8 bytes that `encodeURIComponent` escapes decode back to the string |
| PercentEncoding.HexLower | dist/app/flickr.main.js:33 | the hex nonce has two digits per random byte (32 for 16 bytes) |
| PercentEncoding.Percent | dist/app/flickr.main.js:15-17 | definition: `encodeURIComponent` over the UTF-8 bytes, then `!*()'` replaced by their upper-case escapes (properties in `PercentIsRfc5849`, `PercentRoundTrip`, `PercentInjective`) |
| PercentEncoding.PercentIsRfc5849 | dist/app/flickr.main.js:15-17 | `percent` equals the encoding of section 3.6 of RFC 5849 on every string of Unicode scalar values |
| PercentEncoding.PercentChars | dist/app/flickr.main.js:15-17 | `percent` emits only unreserved characters and `%`; never one of the five marks, `&` or `=` |
| PercentEncoding.PercentMark | dist/app/flickr.main.js:16 | each of `!*()'` becomes `%` and its upper-case hex code |
| PercentEncoding.MarkEscapes | dist/app/flickr.main.js:16 | the five escapes are `%21`, `%2A`, `%28`, `%29` and `%27` |
| PercentEncoding.PercentUnreserved | dist/app/flickr.main.js:15-17 | letters, digits and `-._~` pass through unchanged |
| PercentEncoding.DecodeRfc5849 | dist/app/flickr.main.js:15-17 | percent-decoding the reference encoding gives back the string's UTF-8 bytes |
| PercentEncoding.PercentRoundTrip | dist/app/flickr.main.js:15-17 | decoding `percent(s)` gives back `s` |
| PercentEncoding.PercentInjective | dist/app/flickr.main.js:15-17 | two different strings never have the same `percent` encoding |
| Signer.KeyLessIrreflexive | dist/app/flickr.main.js:20 | the string order of the default `sort()` is irreflexive |
| Signer.KeyLessAsymmetric | dist/app/flickr.main.js:20 | the string order of the default `sort()` is asymmetric |
| Signer.KeyLessTransitive | dist/app/flickr.main.js:20 | the string order of the default `sort()` is transitive |
| Signer.KeyLessTotal | dist/app/flickr.main.js:20 | any two different keys are ordered one way or the other |
| Signer.InsertPermutes | dist/app/flickr.main.js:20 | inserting a key adds exactly that key |
| Signer.SortPermutes | dist/app/flickr.main.js:20 | `sort()` is a permutation of the keys |
| Signer.InsertSorted | dist/app/flickr.main.js:20 | inserting a new key into an ascending list keeps it ascending |
| Signer.SortSorted | dist/app/flickr.main.js:20 | `sort()` of distinct keys is strictly ascending |
| Signer.SortedUnique | dist/app/flickr.main.js:20 | two strictly ascending lists with the same elements are equal, so the sorted order is unique |
| Signer.SortMembers | dist/app/flickr.main.js:20 | sorting keeps exactly the same keys |
| Signer.Normalized | dist/app/flickr.main.js:19-22 | definition: the raw keys sorted by code units, each `percent(k)=percent(v)`, joined by `&` (properties in `SortedKeysAgree`, `PairsAgree`) |
| Signer.Upper | dist/app/flickr.main.js:23 | `toUpperCase` of the method name keeps its length |
| Signer.BaseStringSegments | dist/app/flickr.main.js:18-24 | the base string is the upper-cased method, then `&`, and has exactly two `&` |
| Signer.BaseString | dist/app/flickr.main.js:18-24 | definition: upper-cased method, encoded URL and encoded parameter string joined by `&` (properties in `BaseStringSegments`, `BaseStringOrderIndependent`) |
| Signer.PairsAgree | dist/app/flickr.main.js:21 | the `k=v` pairs depend only on the values of the listed keys |
| Signer.SortedKeysAgree | dist/app/flickr.main.js:19-20 | objects with the same properties sort their keys identically |
| Signer.BaseStringOrderIndependent | dist/app/flickr.main.js:18-24 | the base string does not depend on the order in which properties were inserted |
| Signer.SignOrderIndependent | dist/app/flickr.main.js:25-29 | neither does the signature |
| Signer.SigningKey | dist/app/flickr.main.js:26 | definition: `percent(consumerSecret)&percent(tokenSecret)` (properties in `SigningKeyShape`, `SigningKeyInjective`, `RequestTokenKey`) |
| Signer.Sign | dist/app/flickr.main.js:25-29 | definition: the HMAC primitive applied to the signing key and the base string (`SignOrderIndependent`) |
| Signer.SigningKeyShape | dist/app/flickr.main.js:26 | the signing key has exactly one `&`, preceded by the encoded consumer secret |
| Signer.RequestTokenKey | dist/app/flickr.main.js:25-26 | the default empty token secret gives the key `percent(consumerSecret) + "&"` |
| Signer.SigningKeyInjective | dist/app/flickr.main.js:26 | different secret pairs never give the same signing key |
| OAuth.DefaultsShape | dist/app/flickr.main.js:31-36 | the defaults are the five protocol parameters, in the source's order, each once |
| OAuth.OauthParams | dist/app/flickr.main.js:30-39 | definition: the five defaults with `extra` spread over them (properties in `OauthParamsLookup`, `OauthParamsDefault`) |
| OAuth.OauthParamsLookup | dist/app/flickr.main.js:30-39 | `extra` overrides the defaults; every other default keeps its value; the five defaults lead; keys stay distinct |
| OAuth.OauthParamsDefault | dist/app/flickr.main.js:30-39 | a default that `extra` does not name keeps its default value |
| OAuth.QueryOf | dist/app/flickr.main.js:40-48 | the query never has more pairs than the object has properties |
| OAuth.QueryOfAppend | dist/app/flickr.main.js:42-46 | the query is built property by property |
| OAuth.QueryOfMember | dist/app/flickr.main.js:42-46 | a pair is in the query exactly when some property with that key is not `undefined` and its `String(v)` is that value |
| OAuth.ToQuery | dist/app/flickr.main.js:40-48 | the loop appends exactly the pairs `QueryOf` describes, in order |
| OAuth.SignatureInQuery | dist/app/flickr.main.js:58 | `{...params, oauth_signature: sig}` puts the signature into the query |
| TokenStore.Store.constructor | dist/app/secure-store.js:4 | the store starts with the given file contents and no writes |
| TokenStore.Complete | dist/app/flickr.main.js:52 | definition: `existing?.oauth_token && existing?.oauth_token_secret`, both fields present and non-empty (used by `EnsureLogin`'s fast path) |
| TokenStore.Store.Read | dist/app/secure-store.js:5-13 | `readToken` returns the stored token, or nothing |
| TokenStore.Store.Write | dist/app/secure-store.js:14-17 | after `writeToken(t)` the file holds `t`, and the write is recorded |
| TokenStore.Store.Clear | dist/app/secure-store.js:18-23 | after `clearToken` the file is empty |
| ApiClient.Stringify | dist/app/flickr.main.js:128 | converting the values with `String(v)` keeps the keys and their order |
| ApiClient.StringifyLast | dist/app/flickr.main.js:128 | the value kept for a key is `String` of the caller's last value |
| ApiClient.FixedShape | dist/app/flickr.main.js:123-127 | the envelope parameters are `method`, `api_key`, `format` and `nojsoncallback`, each once |
| ApiClient.EnvelopeOutcome | dist/app/flickr.main.js:136-140 | success exactly when `stat` is `"ok"`, returning the payload; otherwise the envelope's truthy message, or "Flickr API error"; a failed fetch is a network error |
| ApiClient.Call | dist/app/flickr.main.js:119-141 | without a token: "Not authenticated" and nothing sent; with one: exactly one GET to the REST endpoint, whose outcome is the envelope check of its reply; success iff that reply's `stat` is `"ok"` |
| ApiClient.RestParams | dist/app/flickr.main.js:123-133 | definition: the OAuth parameters with the stored `oauth_token`, then the envelope, then the caller's parameters as strings (properties in `RestParamsPrecedence`, `RestParamsCarryToken`) |
| ApiClient.RestRequest | dist/app/flickr.main.js:134-135 | definition: a GET to the REST endpoint whose query is the parameters plus `oauth_signature` (`RestRequestSigned`) |
| ApiClient.RestParamsPrecedence | dist/app/flickr.main.js:123-133 | the caller's parameters (as strings) override the envelope parameters, which override the OAuth parameters |
| ApiClient.RestParamsCarryToken | dist/app/flickr.main.js:131 | the stored `oauth_token` is sent unless the caller overrides it |
| ApiClient.RestRequestSigned | dist/app/flickr.main.js:134-135 | the query carries the HMAC of the base string of all parameters, keyed with both secrets |
| AuthFlow.AccessLeg | dist/app/flickr.main.js:99-116 | one fetch of the signed access-token request; success iff the reply has both token fields, yielding the token built from the reply |
| AuthFlow.AccessToken | dist/app/flickr.main.js:105-112 | definition: the token record from the last value of each of the five fields of the reply body |
| AuthFlow.HasRequestToken | dist/app/flickr.main.js:61-64 | definition: the request-token body has a non-empty `oauth_token` and `oauth_token_secret` (`IncompleteRequestTokenFails`) |
| AuthFlow.WindowLeg | dist/app/flickr.main.js:66-97 | opens the authorize page first; a failed load, a closed window or a missing or empty verifier stops with its error; otherwise the access leg follows |
| AuthFlow.Handshake | dist/app/flickr.main.js:53-116 | fetches the request token first; stops there exactly when the reply lacks a token or secret; then the window, then the access-token fetch; success only with a complete token after three effects |
| Protocol.BodyField | dist/app/flickr.main.js:61-63 | definition: a field of a URL-encoded body after `Object.fromEntries`, the value of its last occurrence |
| AuthFlow.IncompleteRequestTokenFails | dist/app/flickr.main.js:62-65 | a reply without both fields fails with "Failed to obtain request token" and opens no window |
| AuthFlow.RequestTokenSignedWithoutSecret | dist/app/flickr.main.js:55-58 | the request-token request is signed with the key `percent(apiSecret) + "&"` |
| AuthFlow.AccessTokenParamsCarry | dist/app/flickr.main.js:100 | the access-token parameters carry the request token and the verifier, each once |
| AuthFlow.AccessTokenRequestSigned | dist/app/flickr.main.js:99-103 | the access-token request is signed with the request-token secret |
| AuthFlow.EnsureLogin | dist/app/flickr.main.js:50-117 | a complete stored token is returned without side effects; otherwise the result is the handshake's; on success the new token is written once and the store holds it; on failure the store is unchanged |
| Photos.Order | dist/app/flickr.main.js:207-213 | every preference lists five to seven distinct sizes, never the 150-pixel square `url_q` |
| Photos.BestUrl | dist/app/flickr.main.js:205-219 | definition: the URL of the first size in the preference's order that the photo has non-empty (properties in `FirstPresentIsFirst`, `BestUrlIsCandidate`; `PickBestUrl` computes it) |
| Photos.FirstPresentIsFirst | dist/app/flickr.main.js:214-218 | the first listed size the photo has wins; nothing is chosen exactly when it has none of them |
| Photos.BestUrlIsCandidate | dist/app/flickr.main.js:214-216 | a chosen URL is non-empty and belongs to a size in the preference list |
| Photos.PickBestUrl | dist/app/flickr.main.js:205-219 | the loop returns exactly the URL `BestUrl` specifies |
| Photos.PickBestUrlExamples | dist/app/flickr.main.js:207-212 | an original and a medium photo give `url_m` for Small and `url_o` otherwise; no Large size yields nothing; an empty URL is skipped |
| Photos.Resolve | dist/app/flickr.main.js:193-197 | the page's entries all have a non-empty best URL, and there are never more of them than photos |
| Photos.ResolveAppend | dist/app/flickr.main.js:193-197 | the entries of two photo lists are the entries of each, concatenated |
| Photos.ResolveKeepsAll | dist/app/flickr.main.js:193-197 | when every photo has a size, each photo gives its entry, in order |
| Photos.ResolvePage | dist/app/flickr.main.js:193-197 | the inner loop collects exactly the entries `Resolve` specifies |
| Photos.PageCallOk | dist/app/flickr.main.js:186-191 | a page call succeeds iff there is a token and the server answers `ok`; then it sends one request and returns the page |
| Photos.StopsEnds | dist/app/flickr.main.js:198-200 | when the server stops from some page on, so do the calls |
| Photos.FetchPage | dist/app/flickr.main.js:186-191 | with the token the store holds at that moment: without one, "Not authenticated" and no request; with one, exactly one request; success iff the server's reply to that page has `stat` `"ok"`, returning its payload |
| Photos.PhotoRun | dist/app/flickr.main.js:182-203 | definition: from `page` on, each reply's resolved photos, stopping at the first failure or at `page >= pages` (`GetAlbumPhotos` computes it; properties in `ConstantPagesFetchedOnce`, `PhotoRunUrls`) |
| Photos.GetAlbumPhotos | dist/app/flickr.main.js:180-204 | the loop's result and requests are `PhotoRun` from page 1: pages in order, the entries of each, stopping at the first error or at the last page |
| Photos.ConstantPagesFetchedOnce | dist/app/flickr.main.js:198-201 | when every page reports `n` pages, starting at page `p` fetches each remaining page once: `n - p + 1` requests, or one when `p >= n` |
| Photos.PhotoRunUrls | dist/app/flickr.main.js:194-196 | every entry collected over all pages has a non-empty URL |
| Albums.FindSquare | dist/app/flickr.main.js:162 | `find` returns the first 150-pixel square size, or nothing when there is none |
| Albums.ThumbnailIsCandidate | dist/app/flickr.main.js:163 | the thumbnail is empty or the source of one of the sizes |
| Albums.ThumbnailPrefersSquare | dist/app/flickr.main.js:162-163 | the first square with a source is the thumbnail |
| Albums.ThumbnailFallback | dist/app/flickr.main.js:163 | without a square, the first size's source is used, or `""` when there are no sizes |
| Albums.Thumbnail | dist/app/flickr.main.js:162-163 | definition: `q?.source ?? (sizes[0]?.source ?? "")` (properties in `ThumbnailIsCandidate`, `ThumbnailPrefersSquare`, `ThumbnailFallback`) |
| Albums.Item | dist/app/flickr.main.js:164-170 | definition: the set's id, title, photo count and primary photo, with the thumbnail of its primary photo's sizes |
| Albums.CallsSendOne | dist/app/flickr.main.js:157-161 | with a token, each info and sizes call sends exactly one request |
| Albums.AlbumSentLength | dist/app/flickr.main.js:155-171 | listing `n` albums sends `2n` requests |
| Albums.FetchAlbum | dist/app/flickr.main.js:156-170 | one album: the info call, then the sizes call; the first failure is the error; otherwise the album's item with its thumbnail |
| Albums.FetchAlbums | dist/app/flickr.main.js:155-171 | success iff every album's calls succeed, giving one item per set in order and two requests per album; otherwise the first failing album's error and requests |
| Albums.OwnerAsWritten | dist/app/flickr.main.js:144-148 | `token.user_nsid` of the token read before logging in: a `TypeError` exactly when none was stored |
| Albums.StaleOwnerAsWritten | dist/app/flickr.main.js:144-148 | as written, logging in from an empty store throws before listing, and logging in from an incomplete token lists for `user_id` undefined |
| Albums.SettleLogin | dist/app/flickr.main.js:144-146 | no handshake when the token names a user or is complete; otherwise the handshake runs and its token is stored once |
| Albums.ListAlbums | dist/app/flickr.main.js:147-178 | the listing sends `getList` first, for the given `user_id`, signed with the stored token; on success it returns the list's page numbers and the items in order, after `1 + 2n` requests |
| Albums.GetAlbums | dist/app/flickr.main.js:143-179 | the listing happens exactly when the login is settled or the handshake succeeds; it always names the user of the token that signs it |
| Albums.GetAlbumsAsWritten | dist/app/flickr.main.js:143-179 | as written: a settled login leaves the store and trace untouched; otherwise the result, trace and store follow the handshake (its error and an unchanged store on failure, one write on success). From an empty store the call never lists, and after a successful login it fails with a `TypeError`; a listing happens exactly when a token was stored and the login is settled or the handshake succeeds, and then names the user of the token read before the login |

## Left out

- HMAC-SHA1 and base64 are the parameter `hmac`; their internals are not modelled.
- The form encoding of `URLSearchParams` is not modelled. A query is its list of name/value pairs before form encoding, and a token reply is its list of decoded pairs.
- `Object.keys` lists integer-like keys first, in numeric order. No key the core builds is integer-like, so the model keeps plain insertion order.
- Strings are sequences of Unicode scalar values. JavaScript strings may hold lone UTF-16 surrogates, on which `encodeURIComponent` throws a `URIError`; that error path of `percent` is not modelled.
- `toUpperCase` is modelled on ASCII letters only. The core only passes `"GET"`.
- Numbers are modelled as mathematical integers. The `Number(...)` coercions of the replies, `NaN`, and fractions are not modelled, and the replies' numeric fields arrive as integers.
- JSON fields of the wrong type are not modelled. `title._content` arrives as a string.
- `readToken` returning `null` for an unreadable or malformed file is `None` in the store. The file system, `mkdirSync` and JSON serialisation are not modelled.
- The `BrowserWindow` options, the menu removal, the session partition, the `onBeforeRequest` filter and closing the popup are not modelled. The window is a function from the authorize request to how the window ended.
- The API keys that `process.env` supplies are the parameter `creds`.
- Nonces are `HexLower` of supplied random bytes; their uniqueness is not modelled.
- The default arguments `page = 1` and `perPage = 24` of `getAlbums`, and an unknown `sizePref`, are not modelled; `SizePref` holds the four known preferences.
- Photos.GetAlbumPhotos: requires a ghost page `bound` from which every server reply ends the loop. The source loops forever when the server never reports the last page, including a reply without `photoset.pages`, whose `Number(undefined)` is `NaN` so that `page >= pages` never holds (`dist/app/flickr.main.js:198-200`).
- Photos.GetAlbumPhotos: its replies are the ghost function `fetch`, tied to the real calls by `AnswersPages`. This keeps the contract in terms of `PhotoRun`.
- Albums.FetchAlbums: its replies are the ghost functions `info` and `sizes`, tied to the real calls by `AnswersAlbums`. This keeps the contract in terms of the calls' replies.
- Concurrency between overlapping calls, the renderer, the preload bridge and the UI are not part of this model.

## Findings

| source | as written | input that shows it | evidently intended | confidence | as-written member | corrected member |
|---|---|---|---|---|---|---|
| dist/app/flickr.main.js:144-150 | `getAlbums` reads the token before `ensureLogin()` and takes `user_id` from that stale value | an empty token file followed by a successful login: `token` is `null`, so `token.user_nsid` throws a `TypeError`. A stored token holding only `oauth_token`: the login stores a new token, but the listing is sent with `user_id` `"undefined"` | list the albums of the user whose token `ensureLogin` produced | not executed | Albums.GetAlbumsAsWritten, Albums.OwnerAsWritten, Albums.StaleOwnerAsWritten | Albums.GetAlbums |
