/**
 * `getAlbums(page, perPage)`: log in when the stored token names no user,
 * list the user's photosets, then fetch each album's primary photo info and
 * sizes to choose a thumbnail.
 */
module Albums {
  import opened Results
  import opened JsValues
  import opened Signer
  import opened OAuth
  import opened Protocol
  import opened TokenStore
  import opened ApiClient
  import opened AuthFlow

  /** A photoset of `flickr.photosets.getList`: id, `title._content`, `Number(photos)`, primary photo. */
  datatype PhotoSet = PhotoSet(id: string, title: string, photos: int, primary: string)

  /** The `photosets` payload: paging numbers and the sets. */
  datatype SetList = SetList(page: int, pages: int, perPage: int, total: int, sets: seq<PhotoSet>)

  /** An entry of `flickr.photos.getSizes`. */
  datatype Size = Size(name: string, source: Option<string>)

  /** An album as `getAlbums` returns it. */
  datatype AlbumItem = AlbumItem(id: string, title: string, photoCount: int, primaryPhotoId: string, thumbUrl: string)

  /** The result of `getAlbums`. */
  datatype AlbumPage = AlbumPage(page: int, pages: int, perPage: int, total: int, items: seq<AlbumItem>)

  /** The server's replies to the three methods used here. */
  datatype Server = Server(list: Request -> Envelope<SetList>, info: Request -> Envelope<()>,
                           sizes: Request -> Envelope<seq<Size>>)

  /**
   * What a REST call needs besides the token: the app's credentials, the
   * HMAC primitive, the nonce and clock source, and the server.  The listing
   * draws `entropy(0)`, album `i`'s info and sizes calls `entropy(1 + 2 * i)`
   * and `entropy(2 + 2 * i)`.
   */
  datatype Api = Api(creds: Credentials, hmac: Hmac, entropy: nat -> Fresh, server: Server)

  const GET_LIST: string := "flickr.photosets.getList"
  const GET_INFO: string := "flickr.photos.getInfo"
  const GET_SIZES: string := "flickr.photos.getSizes"

  // ------------------------------------------------------------ thumbnails

  predicate IsSquare(s: Size) {
    s.name == "Large Square" || s.name == "Large 150"
  }

  /** `sizes.find(...)`: the index of the first 150-pixel square, if any. */
  function FindSquare(sizes: seq<Size>): (r: Option<nat>)
    ensures r.Some? ==> r.value < |sizes| && IsSquare(sizes[r.value])
                        && forall j :: 0 <= j < r.value ==> !IsSquare(sizes[j])
    ensures r.None? ==> forall j :: 0 <= j < |sizes| ==> !IsSquare(sizes[j])
  {
    if sizes == [] then None
    else if IsSquare(sizes[0]) then Some(0)
    else match FindSquare(sizes[1..])
      case None => None
      case Some(i) => Some(i + 1)
  }

  /** `q?.source ?? (sizes[0]?.source ?? "")`. */
  function Thumbnail(sizes: seq<Size>): string {
    var q := FindSquare(sizes);
    if q.Some? && sizes[q.value].source.Some? then sizes[q.value].source.value
    else if sizes != [] && sizes[0].source.Some? then sizes[0].source.value
    else ""
  }

  /** The thumbnail is empty or the source of one of the sizes. */
  lemma ThumbnailIsCandidate(sizes: seq<Size>)
    ensures Thumbnail(sizes) == "" || exists i :: 0 <= i < |sizes| && sizes[i].source == Some(Thumbnail(sizes))
  {
  }

  /** The first square size with a source wins over every other size. */
  lemma ThumbnailPrefersSquare(sizes: seq<Size>, i: nat)
    requires i < |sizes| && IsSquare(sizes[i]) && sizes[i].source.Some?
    requires forall j :: 0 <= j < i ==> !IsSquare(sizes[j])
    ensures Thumbnail(sizes) == sizes[i].source.value
  {
  }

  /** Without a square the first size's source is used, and without sizes the empty string. */
  lemma ThumbnailFallback(sizes: seq<Size>)
    requires forall j :: 0 <= j < |sizes| ==> !IsSquare(sizes[j])
    ensures Thumbnail(sizes) == if sizes != [] && sizes[0].source.Some? then sizes[0].source.value else ""
  {
  }

  /** The item for a photoset, given its primary photo's sizes. */
  function Item(s: PhotoSet, sizes: seq<Size>): AlbumItem {
    AlbumItem(s.id, s.title, s.photos, s.primary, Thumbnail(sizes))
  }

  // ------------------------------------------------------------- the calls

  /** `user_id`: the `user_nsid` of a token. */
  function Owner(t: StoredToken): Value {
    OptValue(t.userNsid)
  }

  function ListParams(user: Value, page: int, perPage: int): Entries {
    [("user_id", user), ("page", Num(page)), ("per_page", Num(perPage))]
  }

  /** The listing for `user_id` `user`, signed with token `t`. */
  function ListCall(t: StoredToken, user: Value, api: Api, page: int, perPage: int): Reply<SetList> {
    Call(Some(t), api.creds, api.hmac, api.entropy(0), api.server.list, GET_LIST, ListParams(user, page, perPage))
  }

  function InfoCall(token: Option<StoredToken>, api: Api, sets: seq<PhotoSet>, i: nat): Reply<()>
    requires i < |sets|
  {
    Call(token, api.creds, api.hmac, api.entropy(1 + 2 * i), api.server.info, GET_INFO, [("photo_id", Str(sets[i].primary))])
  }

  function SizesCall(token: Option<StoredToken>, api: Api, sets: seq<PhotoSet>, i: nat): Reply<seq<Size>>
    requires i < |sets|
  {
    Call(token, api.creds, api.hmac, api.entropy(2 + 2 * i), api.server.sizes, GET_SIZES, [("photo_id", Str(sets[i].primary))])
  }

  /** The calls of every album as functions of its index (outside the list: a network error). */
  function InfoCalls(token: Option<StoredToken>, api: Api, sets: seq<PhotoSet>): nat -> Reply<()> {
    (i: nat) => if i < |sets| then InfoCall(token, api, sets, i) else Reply(Err(NetworkError), [])
  }

  function SizesCalls(token: Option<StoredToken>, api: Api, sets: seq<PhotoSet>): nat -> Reply<seq<Size>> {
    (i: nat) => if i < |sets| then SizesCall(token, api, sets, i) else Reply(Err(NetworkError), [])
  }

  /** `info` and `sizes` are the replies the calls for the listed albums get. */
  ghost predicate AnswersAlbums(info: nat -> Reply<()>, sizes: nat -> Reply<seq<Size>>,
                                token: Option<StoredToken>, api: Api, sets: seq<PhotoSet>)
  {
    (forall i: nat {:trigger InfoCall(token, api, sets, i)} :: i < |sets| ==> info(i) == InfoCall(token, api, sets, i))
    && (forall i: nat {:trigger SizesCall(token, api, sets, i)} :: i < |sets| ==> sizes(i) == SizesCall(token, api, sets, i))
  }

  lemma CallsAnswer(token: Option<StoredToken>, api: Api, sets: seq<PhotoSet>)
    ensures AnswersAlbums(InfoCalls(token, api, sets), SizesCalls(token, api, sets), token, api, sets)
  {
  }

  /** With a token every album call sends exactly one request. */
  lemma CallsSendOne(info: nat -> Reply<()>, sizes: nat -> Reply<seq<Size>>,
                     token: Option<StoredToken>, api: Api, sets: seq<PhotoSet>)
    requires AnswersAlbums(info, sizes, token, api, sets) && token.Some?
    ensures forall i :: 0 <= i < |sets| ==> |info(i).sent| == 1 && |sizes(i).sent| == 1
  {
    forall i | 0 <= i < |sets|
      ensures |info(i).sent| == 1 && |sizes(i).sent| == 1
    {
      assert info(i) == InfoCall(token, api, sets, i);
      assert sizes(i) == SizesCall(token, api, sets, i);
    }
  }

  /** Both calls for album `i` succeed. */
  predicate AlbumOk(info: nat -> Reply<()>, sizes: nat -> Reply<seq<Size>>, i: nat) {
    info(i).outcome.Ok? && sizes(i).outcome.Ok?
  }

  /** The requests for the first `n` albums when all of them succeed. */
  function AlbumSent(info: nat -> Reply<()>, sizes: nat -> Reply<seq<Size>>, n: nat): seq<Request> {
    if n == 0 then [] else AlbumSent(info, sizes, n - 1) + info(n - 1).sent + sizes(n - 1).sent
  }

  /** When every album call sends one request, `n` albums send two each. */
  lemma {:induction false} AlbumSentLength(info: nat -> Reply<()>, sizes: nat -> Reply<seq<Size>>, n: nat)
    requires forall i :: 0 <= i < n ==> |info(i).sent| == 1 && |sizes(i).sent| == 1
    ensures |AlbumSent(info, sizes, n)| == 2 * n
  {
    if n > 0 {
      AlbumSentLength(info, sizes, n - 1);
    }
  }

  /** Album `i` is the first whose calls fail. */
  predicate FailsFirstAt(info: nat -> Reply<()>, sizes: nat -> Reply<seq<Size>>, i: nat) {
    !AlbumOk(info, sizes, i) && forall j :: 0 <= j < i ==> AlbumOk(info, sizes, j)
  }

  /** The error of album `i`'s first failing call. */
  function AlbumError(info: nat -> Reply<()>, sizes: nat -> Reply<seq<Size>>, i: nat): Error
    requires !AlbumOk(info, sizes, i)
  {
    if info(i).outcome.Err? then info(i).outcome.error else sizes(i).outcome.error
  }

  /** The requests album `i` sends up to its first failure. */
  function FailedSent(info: nat -> Reply<()>, sizes: nat -> Reply<seq<Size>>, i: nat): seq<Request> {
    info(i).sent + (if info(i).outcome.Ok? then sizes(i).sent else [])
  }

  /** `items` holds one item per set, in order, each from its primary photo's sizes. */
  predicate Listed(info: nat -> Reply<()>, sizes: nat -> Reply<seq<Size>>, sets: seq<PhotoSet>, items: seq<AlbumItem>) {
    |items| == |sets|
    && forall i :: 0 <= i < |sets| ==> AlbumOk(info, sizes, i) && items[i] == Item(sets[i], sizes(i).outcome.value)
  }

  /** `flickr("flickr.photos.getInfo", ...)` for album `i`, reading the token first. */
  method FetchInfo(store: Store, api: Api, sets: seq<PhotoSet>, i: nat,
                   ghost info: nat -> Reply<()>, ghost sizes: nat -> Reply<seq<Size>>)
    returns (reply: Reply<()>)
    requires i < |sets| && AnswersAlbums(info, sizes, store.file, api, sets)
    ensures reply == info(i)
  {
    var token := store.Read();
    reply := InfoCall(token, api, sets, i);
  }

  /** `flickr("flickr.photos.getSizes", ...)` for album `i`, reading the token first. */
  method FetchSizes(store: Store, api: Api, sets: seq<PhotoSet>, i: nat,
                    ghost info: nat -> Reply<()>, ghost sizes: nat -> Reply<seq<Size>>)
    returns (reply: Reply<seq<Size>>)
    requires i < |sets| && AnswersAlbums(info, sizes, store.file, api, sets)
    ensures reply == sizes(i)
  {
    var token := store.Read();
    reply := SizesCall(token, api, sets, i);
  }

  /** One pass of the loop of `getAlbums`: the info and sizes calls for album `i`, then its item. */
  method FetchAlbum(store: Store, api: Api, sets: seq<PhotoSet>, i: nat,
                    ghost info: nat -> Reply<()>, ghost sizes: nat -> Reply<seq<Size>>)
    returns (item: Result<AlbumItem, Error>, sent: seq<Request>)
    requires i < |sets| && AnswersAlbums(info, sizes, store.file, api, sets)
    ensures item.Ok? <==> AlbumOk(info, sizes, i)
    ensures item.Ok? ==> item.value == Item(sets[i], sizes(i).outcome.value) && sent == info(i).sent + sizes(i).sent
    ensures item.Err? ==> item.error == AlbumError(info, sizes, i) && sent == FailedSent(info, sizes, i)
  {
    var infoReply := FetchInfo(store, api, sets, i, info, sizes);
    if infoReply.outcome.Err? {
      return Err(infoReply.outcome.error), infoReply.sent;
    }
    var sizesReply := FetchSizes(store, api, sets, i, info, sizes);
    if sizesReply.outcome.Err? {
      return Err(sizesReply.outcome.error), infoReply.sent + sizesReply.sent;
    }
    return Ok(Item(sets[i], sizesReply.outcome.value)), infoReply.sent + sizesReply.sent;
  }

  /**
   * The loop of `getAlbums` over the listed sets: one item per set, in order,
   * each with the thumbnail chosen from its primary photo's sizes; the first
   * failing call fails the whole listing.
   */
  method FetchAlbums(store: Store, api: Api, sets: seq<PhotoSet>,
                     ghost info: nat -> Reply<()>, ghost sizes: nat -> Reply<seq<Size>>)
    returns (r: Result<seq<AlbumItem>, Error>, sent: seq<Request>)
    requires AnswersAlbums(info, sizes, store.file, api, sets)
    ensures r.Ok? <==> forall i :: 0 <= i < |sets| ==> AlbumOk(info, sizes, i)
    ensures r.Ok? ==> sent == AlbumSent(info, sizes, |sets|) && Listed(info, sizes, sets, r.value)
    ensures r.Err? ==> exists i :: 0 <= i < |sets| && FailsFirstAt(info, sizes, i)
                                   && r.error == AlbumError(info, sizes, i)
                                   && sent == AlbumSent(info, sizes, i) + FailedSent(info, sizes, i)
  {
    var items: seq<AlbumItem> := [];
    sent := [];
    for i := 0 to |sets|
      invariant |items| == i && sent == AlbumSent(info, sizes, i)
      invariant forall j :: 0 <= j < i ==> AlbumOk(info, sizes, j) && items[j] == Item(sets[j], sizes(j).outcome.value)
    {
      var item, more := FetchAlbum(store, api, sets, i, info, sizes);
      if item.Err? {
        assert FailsFirstAt(info, sizes, i);
        return Err(item.error), sent + more;
      }
      items := items + [item.value];
      sent := sent + more;
    }
    return Ok(items), sent;
  }

  // ------------------------------------------------------------- getAlbums

  /** `token?.user_nsid` is truthy: `getAlbums` does not call `ensureLogin`. */
  predicate NamesUser(t: Option<StoredToken>) {
    t.Some? && Truthy(Owner(t.value))
  }

  /** No handshake happens: either no login is attempted or `ensureLogin` takes its fast path. */
  predicate Settled(t: Option<StoredToken>) {
    NamesUser(t) || (t.Some? && Complete(t.value))
  }

  /**
   * The `user_id` of the listing as the source computes it: `token.user_nsid`
   * of the token read BEFORE `ensureLogin`, so a property read on `null` when
   * nothing was stored.
   */
  function OwnerAsWritten(stale: Option<StoredToken>): (r: Result<Value, Error>)
    ensures r == Err(TypeError) <==> stale.None?
    ensures stale.Some? ==> r == Ok(OptValue(stale.value.userNsid))
  {
    match stale
    case None => Err(TypeError)
    case Some(t) => Ok(Owner(t))
  }

  /**
   * As written, a login does not reach the listing: from an empty store the
   * first `getAlbums` fails after logging in, and from an incomplete stored
   * token it lists for `user_id` undefined although the new token names a user.
   */
  lemma StaleOwnerAsWritten()
    ensures !Settled(None) && OwnerAsWritten(None) == Err(TypeError)
    ensures var stale := StoredToken(Some("t"), None, None, None, None);
            var renewed := StoredToken(Some("t"), Some("s"), Some("12345678@N00"), None, None);
            !Settled(Some(stale)) && Complete(renewed)
            && OwnerAsWritten(Some(stale)) == Ok(Undefined) && Owner(renewed) == Str("12345678@N00")
  {
  }

  /**
   * The first half of `getAlbums`: `ensureLogin()` unless the stored token
   * names a user.  On success the store holds the token the listing uses.
   */
  method SettleLogin(store: Store, creds: Credentials, hmac: Hmac, loginEntropy: nat -> Fresh,
                     tokenEndpoint: Request -> TokenReply, window: Request -> WindowOutcome)
    returns (outcome: Result<StoredToken, Error>, login: seq<Effect>)
    modifies store
    ensures Settled(old(store.file)) ==>
      outcome == Ok(old(store.file).value) && login == [] && store.file == old(store.file) && store.writes == old(store.writes)
    ensures !Settled(old(store.file)) ==>
      Login(outcome, login) == Handshake(creds, hmac, loginEntropy, tokenEndpoint, window)
      && (outcome.Err? ==> store.file == old(store.file) && store.writes == old(store.writes))
      && (outcome.Ok? ==> store.writes == old(store.writes) + [outcome.value])
    ensures outcome.Ok? ==> store.file == Some(outcome.value)
  {
    var token := store.Read();
    if NamesUser(token) {
      return Ok(token.value), [];
    }
    outcome, login := EnsureLogin(store, creds, hmac, loginEntropy, tokenEndpoint, window);
  }

  /**
   * The listing `getAlbums` makes with token `t` for `user_id` `user`: its
   * first request is the `getList` call; a failed `getList` is the result; on success the page
   * numbers are the list's and the items are the listed sets in order, after
   * two requests per album; otherwise the first failing album's error.
   */
  ghost predicate ListingOutcome(t: StoredToken, user: Value, api: Api, page: int, perPage: int,
                                 r: Result<AlbumPage, Error>, sent: seq<Request>)
  {
    var list := ListCall(t, user, api, page, perPage);
    |sent| >= 1 && sent[0] == list.sent[0]
    && (list.outcome.Err? ==> r == Err(list.outcome.error) && sent == list.sent)
    && (list.outcome.Ok? ==>
          var data := list.outcome.value;
          var info := InfoCalls(Some(t), api, data.sets);
          var sizes := SizesCalls(Some(t), api, data.sets);
          (r.Ok? ==>
             r.value.page == data.page && r.value.pages == data.pages && r.value.perPage == data.perPage
             && r.value.total == data.total && Listed(info, sizes, data.sets, r.value.items)
             && sent == list.sent + AlbumSent(info, sizes, |data.sets|) && |sent| == 1 + 2 * |data.sets|)
          && (r.Err? ==> exists i :: 0 <= i < |data.sets| && FailsFirstAt(info, sizes, i)
                                     && r.error == AlbumError(info, sizes, i)
                                     && sent == list.sent + AlbumSent(info, sizes, i) + FailedSent(info, sizes, i)))
  }

  /** The second half of `getAlbums`: the listing for `user`, with the token the store holds. */
  method ListAlbums(store: Store, api: Api, user: Value, page: int, perPage: int)
    returns (r: Result<AlbumPage, Error>, sent: seq<Request>)
    requires store.file.Some?
    ensures ListingOutcome(store.file.value, user, api, page, perPage, r, sent)
  {
    var current := store.Read();
    var list := ListCall(current.value, user, api, page, perPage);
    sent := list.sent;
    if list.outcome.Err? {
      return Err(list.outcome.error), sent;
    }
    var data := list.outcome.value;
    ghost var info, sizes := InfoCalls(current, api, data.sets), SizesCalls(current, api, data.sets);
    CallsAnswer(current, api, data.sets);
    var items, more := FetchAlbums(store, api, data.sets, info, sizes);
    sent := sent + more;
    if items.Err? {
      return Err(items.error), sent;
    }
    CallsSendOne(info, sizes, current, api, data.sets);
    AlbumSentLength(info, sizes, |data.sets|);
    r := Ok(AlbumPage(data.page, data.pages, data.perPage, data.total, items.value));
  }

  /**
   * `getAlbums(page, perPage)`, reading `user_id` from the token the store
   * holds once the login is settled.  `login` is the login's trace and `sent`
   * the REST requests.
   */
  method GetAlbums(store: Store, api: Api, loginEntropy: nat -> Fresh, tokenEndpoint: Request -> TokenReply,
                   window: Request -> WindowOutcome, page: int, perPage: int)
    returns (r: Result<AlbumPage, Error>, login: seq<Effect>, sent: seq<Request>)
    modifies store
    ensures Settled(old(store.file)) ==>
      login == [] && store.file == old(store.file) && store.writes == old(store.writes)
    ensures !Settled(old(store.file)) ==>
      var h := Handshake(api.creds, api.hmac, loginEntropy, tokenEndpoint, window);
      login == h.trace
      && (h.outcome.Err? ==> r == Err(h.outcome.error) && sent == []
                             && store.file == old(store.file) && store.writes == old(store.writes))
      && (h.outcome.Ok? ==> store.file == Some(h.outcome.value) && store.writes == old(store.writes) + [h.outcome.value])
    ensures sent != [] <==> Settled(old(store.file))
                            || Handshake(api.creds, api.hmac, loginEntropy, tokenEndpoint, window).outcome.Ok?
    ensures sent != [] ==> store.file.Some? && ListingOutcome(store.file.value, Owner(store.file.value), api, page, perPage, r, sent)
  {
    var outcome;
    outcome, login := SettleLogin(store, api.creds, api.hmac, loginEntropy, tokenEndpoint, window);
    if outcome.Err? {
      return Err(outcome.error), login, [];
    }
    r, sent := ListAlbums(store, api, Owner(outcome.value), page, perPage);
  }

  /**
   * `getAlbums(page, perPage)` as written: `user_id` is `token.user_nsid` of
   * the token read before `ensureLogin`.  From an empty store a successful
   * login is stored and then the call fails with a `TypeError` before any
   * listing; from a stored token the listing names that token's user even
   * when a new token signs it.
   */
  method GetAlbumsAsWritten(store: Store, api: Api, loginEntropy: nat -> Fresh, tokenEndpoint: Request -> TokenReply,
                            window: Request -> WindowOutcome, page: int, perPage: int)
    returns (r: Result<AlbumPage, Error>, login: seq<Effect>, sent: seq<Request>)
    modifies store
    ensures Settled(old(store.file)) ==>
      login == [] && store.file == old(store.file) && store.writes == old(store.writes)
    ensures !Settled(old(store.file)) ==>
      var h := Handshake(api.creds, api.hmac, loginEntropy, tokenEndpoint, window);
      login == h.trace
      && (h.outcome.Err? ==> r == Err(h.outcome.error) && sent == []
                             && store.file == old(store.file) && store.writes == old(store.writes))
      && (h.outcome.Ok? ==> store.file == Some(h.outcome.value) && store.writes == old(store.writes) + [h.outcome.value])
    ensures old(store.file).None? ==> r.Err? && sent == []
    ensures old(store.file).None? ==>
      var h := Handshake(api.creds, api.hmac, loginEntropy, tokenEndpoint, window);
      login == h.trace
      && (h.outcome.Ok? ==> r == Err(TypeError)
                            && store.file == Some(h.outcome.value) && store.writes == old(store.writes) + [h.outcome.value])
    ensures sent != [] <==> old(store.file).Some? && (Settled(old(store.file))
                            || Handshake(api.creds, api.hmac, loginEntropy, tokenEndpoint, window).outcome.Ok?)
    ensures sent != [] ==>
      store.file.Some? && ListingOutcome(store.file.value, Owner(old(store.file).value), api, page, perPage, r, sent)
  {
    var token := store.Read();
    if !NamesUser(token) {
      var outcome;
      outcome, login := EnsureLogin(store, api.creds, api.hmac, loginEntropy, tokenEndpoint, window);
      if outcome.Err? {
        return Err(outcome.error), login, [];
      }
    } else {
      login := [];
    }
    var user := OwnerAsWritten(token);
    if user.Err? {
      return Err(TypeError), login, [];
    }
    r, sent := ListAlbums(store, api, user.value, page, perPage);
  }
}
