/**
 * `pickBestUrl` and `getAlbumPhotos`: every photo of an album, page by page,
 * each with the URL of the size the user prefers (falling back along a
 * fixed list), and photos with none of those sizes skipped.
 */
module Photos {
  import opened Results
  import opened JsValues
  import opened OAuth
  import opened Signer
  import opened Protocol
  import opened TokenStore
  import opened ApiClient

  /** The `url_*` size extras a photo record can carry. */
  datatype SizeKey = UrlO | UrlK | UrlH | UrlL | UrlC | UrlZ | UrlM | UrlQ

  /** The size the user asks for. */
  datatype SizePref = Small | Medium | Large | Original

  /** `orderByPref`: the sizes tried, best first. */
  function Order(pref: SizePref): (r: seq<SizeKey>)
    ensures 5 <= |r| <= 7
    ensures UrlQ !in r
    ensures forall i, j :: 0 <= i < j < |r| ==> r[i] != r[j]
  {
    match pref
    case Small => [UrlM, UrlZ, UrlC, UrlL, UrlO]
    case Medium => [UrlZ, UrlC, UrlL, UrlO, UrlM]
    case Large => [UrlL, UrlH, UrlK, UrlO, UrlC]
    case Original => [UrlO, UrlK, UrlH, UrlL, UrlC, UrlZ, UrlM]
  }

  /** A photo of `flickr.photosets.getPhotos`: its id, title and size URLs. */
  datatype Photo = Photo(id: string, title: string, urls: map<SizeKey, string>)

  /** `p[k]` is truthy: the size is listed with a non-empty URL. */
  predicate Present(p: Photo, k: SizeKey) {
    k in p.urls && p.urls[k] != ""
  }

  /** The URL of the first size of `ks` the photo has. */
  function FirstPresent(p: Photo, ks: seq<SizeKey>): Option<string> {
    if ks == [] then None
    else if Present(p, ks[0]) then Some(p.urls[ks[0]])
    else FirstPresent(p, ks[1..])
  }

  /** The URL `pickBestUrl` chooses, if any. */
  function BestUrl(p: Photo, pref: SizePref): Option<string> {
    FirstPresent(p, Order(pref))
  }

  /**
   * `FirstPresent` picks the earliest size in the list that the photo has,
   * and finds nothing exactly when the photo has none of them.
   */
  lemma {:induction false} FirstPresentIsFirst(p: Photo, ks: seq<SizeKey>)
    ensures FirstPresent(p, ks).None? <==> forall i :: 0 <= i < |ks| ==> !Present(p, ks[i])
    ensures FirstPresent(p, ks).Some? ==>
      exists i :: 0 <= i < |ks| && Present(p, ks[i]) && FirstPresent(p, ks).value == p.urls[ks[i]]
                  && forall j :: 0 <= j < i ==> !Present(p, ks[j])
  {
    if ks != [] && !Present(p, ks[0]) {
      FirstPresentIsFirst(p, ks[1..]);
      if FirstPresent(p, ks).Some? {
        var i :| 0 <= i < |ks| - 1 && Present(p, ks[1..][i]) && FirstPresent(p, ks[1..]).value == p.urls[ks[1..][i]]
                 && forall j :: 0 <= j < i ==> !Present(p, ks[1..][j]);
        assert forall j :: 0 <= j < i + 1 ==> !Present(p, ks[j]) by {
          forall j | 0 <= j < i + 1 ensures !Present(p, ks[j]) {
            if j > 0 { assert ks[j] == ks[1..][j - 1]; }
          }
        }
      } else {
        assert forall i :: 0 <= i < |ks| ==> !Present(p, ks[i]) by {
          forall i | 0 <= i < |ks| ensures !Present(p, ks[i]) {
            if i > 0 { assert ks[i] == ks[1..][i - 1]; }
          }
        }
      }
    }
  }

  /** A chosen URL is non-empty and is the URL of one of the preference's sizes. */
  lemma BestUrlIsCandidate(p: Photo, pref: SizePref)
    requires BestUrl(p, pref).Some?
    ensures BestUrl(p, pref).value != ""
    ensures exists k :: k in Order(pref) && k in p.urls && p.urls[k] == BestUrl(p, pref).value
  {
    FirstPresentIsFirst(p, Order(pref));
  }

  /**
   * `pickBestUrl(p, pref)`: try the preference's sizes in order and return the
   * first URL present.
   */
  method PickBestUrl(p: Photo, pref: SizePref) returns (best: Option<string>)
    ensures best == BestUrl(p, pref)
  {
    var candidates := Order(pref);
    for i := 0 to |candidates|
      invariant FirstPresent(p, candidates[i..]) == BestUrl(p, pref)
    {
      var k := candidates[i];
      if k in p.urls && p.urls[k] != "" {
        return Some(p.urls[k]);
      }
      assert candidates[i..][1..] == candidates[i + 1..];
    }
    return None;
  }

  /** Fallbacks: a photo with only the original and medium sizes. */
  lemma PickBestUrlExamples()
    ensures var p := Photo("1", "t", map[UrlO := "O", UrlM := "M"]);
      BestUrl(p, Small) == Some("M") && BestUrl(p, Medium) == Some("O")
      && BestUrl(p, Large) == Some("O") && BestUrl(p, Original) == Some("O")
    ensures BestUrl(Photo("2", "t", map[UrlM := "M", UrlQ := "Q"]), Large) == None
    ensures BestUrl(Photo("3", "t", map[UrlZ := "", UrlC := "C"]), Medium) == Some("C")
  {
  }

  /** An entry of the result: the photo and the URL chosen for it. */
  datatype PhotoRef = PhotoRef(id: string, title: string, bestUrl: string)

  /** The entries one page contributes, in order: photos without a URL are skipped. */
  function Resolve(photos: seq<Photo>, pref: SizePref): (r: seq<PhotoRef>)
    ensures |r| <= |photos|
    ensures forall i :: 0 <= i < |r| ==> r[i].bestUrl != ""
  {
    if photos == [] then []
    else
      var init := Resolve(photos[..|photos| - 1], pref);
      var p := photos[|photos| - 1];
      match BestUrl(p, pref)
      case None => init
      case Some(u) =>
        BestUrlIsCandidate(p, pref);
        init + [PhotoRef(p.id, p.title, u)]
  }

  /** Resolving is done photo by photo. */
  lemma {:induction false} ResolveAppend(a: seq<Photo>, b: seq<Photo>, pref: SizePref)
    ensures Resolve(a + b, pref) == Resolve(a, pref) + Resolve(b, pref)
    decreases |b|
  {
    if b == [] {
      assert a + b == a;
    } else {
      var b' := b[..|b| - 1];
      assert (a + b)[..|a + b| - 1] == a + b';
      assert (a + b)[|a + b| - 1] == b[|b| - 1];
      ResolveAppend(a, b', pref);
    }
  }

  /** When every photo has one of the sizes, none is skipped and the order is kept. */
  lemma {:induction false} ResolveKeepsAll(photos: seq<Photo>, pref: SizePref)
    requires forall i :: 0 <= i < |photos| ==> BestUrl(photos[i], pref).Some?
    ensures |Resolve(photos, pref)| == |photos|
    ensures forall i :: 0 <= i < |photos| ==>
      Resolve(photos, pref)[i] == PhotoRef(photos[i].id, photos[i].title, BestUrl(photos[i], pref).value)
  {
    if photos != [] {
      var init := photos[..|photos| - 1];
      ResolveKeepsAll(init, pref);
    }
  }

  // ---------------------------------------------------------------- pagination

  const GET_PHOTOS: string := "flickr.photosets.getPhotos"
  const PER_PAGE: int := 500
  const EXTRAS: string := "url_o,url_k,url_h,url_l,url_c,url_z,url_m,url_q"

  /** The payload of `getPhotos` used here: `photoset.photo` and `Number(photoset.pages)`. */
  datatype PhotoPage = PhotoPage(photos: seq<Photo>, pages: int)

  /** The parameters of the request for one page. */
  function PageParams(photosetId: string, page: nat): Entries {
    [("photoset_id", Str(photosetId)), ("page", Num(page)), ("per_page", Num(PER_PAGE)), ("extras", Str(EXTRAS))]
  }

  /** The server, as seen by the request for `page`: `server(p)` is its reply to page `p`. */
  function PageServer(server: nat -> Envelope<PhotoPage>, page: nat): Request -> Envelope<PhotoPage> {
    (req: Request) => server(page)
  }

  /** The REST call for one page; the call for page `page` draws `entropy(page)`. */
  function PageCall(token: Option<StoredToken>, creds: Credentials, hmac: Hmac, entropy: nat -> Fresh,
                    server: nat -> Envelope<PhotoPage>, photosetId: string, page: nat): Reply<PhotoPage>
  {
    Call(token, creds, hmac, entropy(page), PageServer(server, page), GET_PHOTOS, PageParams(photosetId, page))
  }

  /** The page calls as one function from page number to reply. */
  function PageCalls(token: Option<StoredToken>, creds: Credentials, hmac: Hmac, entropy: nat -> Fresh,
                     server: nat -> Envelope<PhotoPage>, photosetId: string): nat -> Reply<PhotoPage>
  {
    (page: nat) => PageCall(token, creds, hmac, entropy, server, photosetId, page)
  }

  /**
   * `fetch(p)` is the call for page `p`.  (The trigger keeps the calls
   * themselves out of reasoning about `fetch`.)
   */
  ghost predicate AnswersPages(fetch: nat -> Reply<PhotoPage>, token: Option<StoredToken>, creds: Credentials, hmac: Hmac,
                         entropy: nat -> Fresh, server: nat -> Envelope<PhotoPage>, photosetId: string)
  {
    forall p: nat {:trigger PageCall(token, creds, hmac, entropy, server, photosetId, p)} ::
      fetch(p) == PageCall(token, creds, hmac, entropy, server, photosetId, p)
  }

  /** The page calls themselves answer the pages. */
  lemma PageCallsAnswer(token: Option<StoredToken>, creds: Credentials, hmac: Hmac,
                        entropy: nat -> Fresh, server: nat -> Envelope<PhotoPage>, photosetId: string)
    ensures AnswersPages(PageCalls(token, creds, hmac, entropy, server, photosetId),
                         token, creds, hmac, entropy, server, photosetId)
  {
  }

  /**
   * A page call succeeds, sending one request, with the server's page exactly
   * when there is a token and the server answered `ok`.
   */
  lemma PageCallOk(token: Option<StoredToken>, creds: Credentials, hmac: Hmac, entropy: nat -> Fresh,
                   server: nat -> Envelope<PhotoPage>, photosetId: string, page: nat)
    ensures var reply := PageCall(token, creds, hmac, entropy, server, photosetId, page);
      && (reply.outcome.Ok? <==> token.Some? && server(page).Json? && server(page).stat == Str("ok"))
      && (reply.outcome.Ok? ==> reply.outcome.value == server(page).payload && |reply.sent| == 1)
  {
  }

  /** The server's reply to page `p` ends the loop: it is not `ok`, or `p` is the last page. */
  predicate Stops(env: Envelope<PhotoPage>, p: nat) {
    !(env.Json? && env.stat == Str("ok")) || p >= env.payload.pages
  }

  /** The call for page `p` ends the loop: it failed, or `p` is the last page. */
  predicate Ends(reply: Reply<PhotoPage>, p: nat) {
    reply.outcome.Err? || p >= reply.outcome.value.pages
  }

  /** The photos collected and the requests sent. */
  datatype Run = Run(outcome: Result<seq<PhotoRef>, Error>, sent: seq<Request>)

  /** `run` preceded by the entries `found` and the requests `sent`. */
  function Prepend(found: seq<PhotoRef>, sent: seq<Request>, run: Run): Run {
    Run(if run.outcome.Ok? then Ok(found + run.outcome.value) else run.outcome, sent + run.sent)
  }

  lemma PrependNothing(run: Run)
    ensures Prepend([], [], run) == run
  {
    assert [] + run.sent == run.sent;
    if run.outcome.Ok? {
      assert [] + run.outcome.value == run.outcome.value;
    }
  }

  lemma PrependPrepend(a: seq<PhotoRef>, s: seq<Request>, b: seq<PhotoRef>, t: seq<Request>, run: Run)
    ensures Prepend(a, s, Prepend(b, t, run)) == Prepend(a + b, s + t, run)
  {
    assert s + (t + run.sent) == (s + t) + run.sent;
    if run.outcome.Ok? {
      assert a + (b + run.outcome.value) == (a + b) + run.outcome.value;
    }
  }

  /**
   * The loop from `page` on, over the replies `fetch(p)` to each page: keep
   * the page's resolved photos and go on to the next page unless that was the
   * last one; any failed call fails the whole run.  `bound` is a page from
   * which on every reply ends the loop.
   */
  function PhotoRun(fetch: nat -> Reply<PhotoPage>, pref: SizePref, page: nat, bound: nat): Run
    requires forall p: nat :: bound <= p ==> Ends(fetch(p), p)
    decreases bound - page
  {
    var reply := fetch(page);
    match reply.outcome
    case Err(e) => Run(Err(e), reply.sent)
    case Ok(data) =>
      var here := Resolve(data.photos, pref);
      if page >= data.pages then Run(Ok(here), reply.sent)
      else Prepend(here, reply.sent, PhotoRun(fetch, pref, page + 1, bound))
  }

  /** The inner loop of `getAlbumPhotos`: the entries of one page. */
  method ResolvePage(photos: seq<Photo>, pref: SizePref) returns (found: seq<PhotoRef>)
    ensures found == Resolve(photos, pref)
  {
    found := [];
    for i := 0 to |photos|
      invariant found == Resolve(photos[..i], pref)
    {
      var best := PickBestUrl(photos[i], pref);
      assert photos[..i + 1][..i] == photos[..i];
      if best.Some? {
        found := found + [PhotoRef(photos[i].id, photos[i].title, best.value)];
      }
    }
    assert photos[..|photos|] == photos;
  }

  /** A server that eventually reports a last page makes the page calls end. */
  lemma StopsEnds(fetch: nat -> Reply<PhotoPage>, token: Option<StoredToken>, creds: Credentials, hmac: Hmac,
                  entropy: nat -> Fresh, server: nat -> Envelope<PhotoPage>, photosetId: string, bound: nat)
    requires AnswersPages(fetch, token, creds, hmac, entropy, server, photosetId)
    requires forall p: nat :: bound <= p ==> Stops(server(p), p)
    ensures forall p: nat :: bound <= p ==> Ends(fetch(p), p)
  {
    forall p: nat | bound <= p
      ensures Ends(fetch(p), p)
    {
      PageCallOk(token, creds, hmac, entropy, server, photosetId, p);
    }
  }

  /**
   * One iteration's `flickr("flickr.photosets.getPhotos", …)`, with the token
   * the store holds at that moment: without one, "Not authenticated" and no
   * request; with one, a single request, succeeding with the server's page
   * exactly when the server answers `ok`.
   */
  method FetchPage(store: Store, creds: Credentials, hmac: Hmac, entropy: nat -> Fresh,
                   server: nat -> Envelope<PhotoPage>, photosetId: string, page: nat,
                   ghost fetch: nat -> Reply<PhotoPage>)
    returns (reply: Reply<PhotoPage>)
    requires AnswersPages(fetch, store.file, creds, hmac, entropy, server, photosetId)
    ensures reply == fetch(page)
    ensures store.file.None? ==> reply.outcome == Err(NotAuthenticated) && reply.sent == []
    ensures store.file.Some? ==> |reply.sent| == 1
    ensures reply.outcome.Ok? <==> store.file.Some? && server(page).Json? && server(page).stat == Str("ok")
    ensures reply.outcome.Ok? ==> reply.outcome.value == server(page).payload
  {
    var token := store.Read();
    reply := PageCall(token, creds, hmac, entropy, server, photosetId, page);
    PageCallOk(token, creds, hmac, entropy, server, photosetId, page);
  }

  /**
   * `getAlbumPhotos(photosetId, sizePref)`: page 1, 2, … until a reply says it
   * is the last page.  `fetch` names the page calls' replies and `bound` is
   * any page from which on the server reports the last page.
   */
  method GetAlbumPhotos(store: Store, creds: Credentials, hmac: Hmac, entropy: nat -> Fresh,
                        server: nat -> Envelope<PhotoPage>, photosetId: string, pref: SizePref,
                        ghost fetch: nat -> Reply<PhotoPage>, ghost bound: nat)
    returns (r: Result<seq<PhotoRef>, Error>, sent: seq<Request>)
    requires AnswersPages(fetch, store.file, creds, hmac, entropy, server, photosetId)
    requires forall p: nat :: bound <= p ==> Stops(server(p), p)
    ensures forall p: nat :: bound <= p ==> Ends(fetch(p), p)
    ensures Run(r, sent) == PhotoRun(fetch, pref, 1, bound)
  {
    StopsEnds(fetch, store.file, creds, hmac, entropy, server, photosetId, bound);
    var page: nat := 1;
    var result: seq<PhotoRef> := [];
    sent := [];
    ghost var whole := PhotoRun(fetch, pref, page, bound);
    PrependNothing(whole);
    while true
      invariant 1 <= page
      invariant whole == Prepend(result, sent, PhotoRun(fetch, pref, page, bound))
      decreases bound - page
    {
      var reply := FetchPage(store, creds, hmac, entropy, server, photosetId, page, fetch);
      if reply.outcome.Err? {
        return Err(reply.outcome.error), sent + reply.sent;
      }
      var data := reply.outcome.value;
      ghost var before := result;
      var found := ResolvePage(data.photos, pref);
      result := result + found;
      if page >= data.pages {
        sent := sent + reply.sent;
        return Ok(result), sent;
      }
      PrependPrepend(before, sent, found, reply.sent, PhotoRun(fetch, pref, page + 1, bound));
      sent := sent + reply.sent;
      page := page + 1;
    }
  }

  /**
   * With every page answered `ok` by a single request that reports `n` pages,
   * the run asks for each remaining page exactly once (at least one request)
   * and succeeds; 501 photos at 500 per page take two requests.
   */
  lemma {:induction false} ConstantPagesFetchedOnce(fetch: nat -> Reply<PhotoPage>, pref: SizePref,
                                                   n: int, page: nat, bound: nat)
    requires forall p: nat :: bound <= p ==> Ends(fetch(p), p)
    requires forall p: nat :: fetch(p).outcome.Ok? && fetch(p).outcome.value.pages == n && |fetch(p).sent| == 1
    ensures var run := PhotoRun(fetch, pref, page, bound);
      run.outcome.Ok? && |run.sent| == (if page >= n then 1 else n - page + 1)
    decreases bound - page
  {
    if page < n {
      assert !Ends(fetch(page), page);
      ConstantPagesFetchedOnce(fetch, pref, n, page + 1, bound);
    }
  }

  /** Every entry of a successful run has a non-empty URL. */
  lemma {:induction false} PhotoRunUrls(fetch: nat -> Reply<PhotoPage>, pref: SizePref, page: nat, bound: nat)
    requires forall p: nat :: bound <= p ==> Ends(fetch(p), p)
    ensures var run := PhotoRun(fetch, pref, page, bound);
      run.outcome.Ok? ==> forall i :: 0 <= i < |run.outcome.value| ==> run.outcome.value[i].bestUrl != ""
    decreases bound - page
  {
    var reply := fetch(page);
    if reply.outcome.Ok? && page < reply.outcome.value.pages {
      PhotoRunUrls(fetch, pref, page + 1, bound);
      var here := Resolve(reply.outcome.value.photos, pref);
      var rest := PhotoRun(fetch, pref, page + 1, bound);
      assert PhotoRun(fetch, pref, page, bound) == Prepend(here, reply.sent, rest);
      if rest.outcome.Ok? {
        var all := here + rest.outcome.value;
        forall i | 0 <= i < |all| ensures all[i].bestUrl != "" {
          if i < |here| {
            assert all[i] == here[i] && here[i].bestUrl != "";
          } else {
            var j := i - |here|;
            assert all[i] == rest.outcome.value[j] && rest.outcome.value[j].bestUrl != "";
          }
        }
      }
    }
  }
}
