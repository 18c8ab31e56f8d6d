/**
 The three route handlers of backend/routes/urlRoutes.js as pure functions
 from the store (and the request's inputs) to a reply and the next store.

 The code `nanoid(6)` would generate and the clock reading `Date.now` would
 supply are parameters: `code` and `now`.
 */
module UrlRoutes {
  import opened UrlModel
  import opened UrlStore

  const BASE_URL: string := "http://localhost:3000"

  /** The characters of nanoid's default alphabet: `A-Z`, `a-z`, `0-9`,
      `_` and `-`. */
  predicate UrlSafeChar(ch: char)
  {
    ('A' <= ch <= 'Z') || ('a' <= ch <= 'z') || ('0' <= ch <= '9') || ch == '_' || ch == '-'
  }

  /** What `nanoid(6)` returns: six characters of its URL-safe alphabet. */
  predicate IsGeneratedCode(code: string)
  {
    |code| == 6 && forall i :: 0 <= i < |code| ==> UrlSafeChar(code[i])
  }

  /** The `shortURL` field of a reply. */
  function ShortURL(code: string): string
  {
    BASE_URL + "/" + code
  }

  /** Reads the code back out of a `shortURL`. */
  function CodeOfShortURL(url: string): (r: Option<string>)
    ensures r.Some? ==> ShortURL(r.value) == url && r.value != ""
  {
    var prefix := BASE_URL + "/";
    if |url| > |prefix| && url[..|prefix|] == prefix then
      assert url == prefix + url[|prefix|..];
      Some(url[|prefix|..])
    else None
  }

  /** Replies of `POST /shorten`. */
  datatype ShortenReply =
    | Created(shortURL: string)   // a new document was saved
    | Reused(shortURL: string)    // a document with this longURL existed
    | MissingURL                  // `longURL` absent or empty
    | SaveFailed                  // `save()` threw
  {
    function Status(): nat
    {
      match this
      case Created(_) => 201
      case Reused(_) => 200
      case MissingURL => 400
      case SaveFailed => 500
    }
  }

  /** Replies of `GET /:shortCode`. */
  datatype ResolveReply = Redirect(location: string) | NotFound
  {
    function Status(): nat
    {
      if Redirect? then 302 else 404
    }
  }

  /** `POST /shorten` with body field `longURL` (`None` when absent or
      null). A `longURL` already in the store is answered with the code of
      its first document; otherwise a document is saved under `code`, and a
      taken `code` makes the save, and the request, fail. */
  function Shorten(store: Store, longURL: Option<string>, code: string, now: int): (out: (ShortenReply, Store))
    requires IsGeneratedCode(code)
    // validation: missing or empty longURL
    ensures out.0.MissingURL? <==> longURL.None? || longURL.value == ""
    ensures out.0.MissingURL? ==> out.1 == store
    // dedup: the first document holding longURL answers
    ensures out.0.Reused? <==> longURL.Some? && longURL.value != "" && LongURLKnown(store, longURL.value)
    ensures out.0.Reused? ==> out.1 == store
    ensures out.0.Reused? ==>
      exists i :: && 0 <= i < |store| && store[i].longURL == longURL.value
                  && (forall j :: 0 <= j < i ==> store[j].longURL != longURL.value)
                  && out.0.shortURL == ShortURL(store[i].shortCode)
    // creation: exactly one new document, with the schema defaults
    ensures out.0.Created? <==>
      longURL.Some? && longURL.value != "" && !LongURLKnown(store, longURL.value) && !CodeTaken(store, code)
    ensures out.0.Created? ==>
      && out.0.shortURL == ShortURL(code)
      && |out.1| == |store| + 1 && out.1[..|store|] == store
      && out.1[|store|].longURL == longURL.value && out.1[|store|].shortCode == code
      && out.1[|store|].createdAt == now && out.1[|store|].clicks == 0
    // collision: a taken generated code is a server error, with no retry
    ensures out.0.SaveFailed? <==>
      longURL.Some? && longURL.value != "" && !LongURLKnown(store, longURL.value) && CodeTaken(store, code)
    ensures out.0.SaveFailed? ==> out.1 == store
  {
    if longURL.None? || longURL.value == "" then
      (MissingURL, store)
    else
      match FindOne(store, ByLongURL(longURL.value))
      case Some(i) =>
        (Reused(ShortURL(store[i].shortCode)), store)
      case None =>
        match Save(store, NewRecord(longURL.value, code, now))
        case None => (SaveFailed, store)
        case Some(store') => (Created(ShortURL(code)), store')
  }

  /** `GET /:shortCode`: the first document holding `code` has its counter
      raised by one and its `longURL` becomes the redirect target. */
  function Resolve(store: Store, code: string): (out: (ResolveReply, Store))
    ensures out.0.NotFound? <==> !CodeTaken(store, code)
    ensures out.0.NotFound? ==> out.1 == store
    ensures out.0.Redirect? ==>
      exists i :: && 0 <= i < |store| && store[i].shortCode == code
                  && (forall j :: 0 <= j < i ==> store[j].shortCode != code)
                  && out.0.location == store[i].longURL
                  && ClickedOnce(store, out.1, i)
  {
    match FindOne(store, ByShortCode(code))
    case None => (NotFound, store)
    case Some(i) =>
      var entry := store[i];
      (Redirect(entry.longURL), store[i := entry.(clicks := entry.clicks + 1)])
  }

  /** `GET /all`: every document, newest first; the store is only read. */
  function ListAll(store: Store): (r: seq<UrlRecord>)
    ensures multiset(r) == multiset(store)
    ensures |r| == |store|
    ensures NewestFirst(r)
  {
    var r := SortNewestFirst(store);
    assert |r| == |multiset(r)| == |multiset(store)| == |store|;
    r
  }

  /** The GET routes of the router, in registration order: `/all` is
      matched before `/:shortCode`. */
  datatype GetRoute = ListRoute | ResolveRoute(shortCode: string) | NoRoute

  /** ASCII lower-casing, as Express's case-insensitive route matching
      compares paths. */
  function LowerAscii(s: string): (r: string)
    ensures |r| == |s|
    ensures forall i :: 0 <= i < |s| ==>
      && ('A' <= s[i] <= 'Z' ==> r[i] as int == s[i] as int + 32)
      && (!('A' <= s[i] <= 'Z') ==> r[i] == s[i])
  {
    if s == [] then []
    else
      var c := s[0];
      var lc := if 'A' <= c <= 'Z' then (c as int + 32) as char else c;
      [lc] + LowerAscii(s[1..])
  }

  /** The request path without one trailing `/` (non-strict routing). */
  function TrimTrailingSlash(path: string): (p: string)
    ensures p == path || (|path| > 1 && path == p + "/")
  {
    if |path| > 1 && path[|path| - 1] == '/' then path[..|path| - 1] else path
  }

  /** Which GET handler of the router answers `path`. */
  function RouteGet(path: string): (r: GetRoute)
    ensures r.ResolveRoute? ==> r.shortCode != "" && '/' !in r.shortCode
    ensures r.ResolveRoute? ==> path == "/" + r.shortCode || path == "/" + r.shortCode + "/"
    ensures r.ListRoute? ==> (|path| == 4 || (|path| == 5 && path[4] == '/')) && LowerAscii(path[..4]) == "/all"
  {
    var p := TrimTrailingSlash(path);
    var low := LowerAscii(p);
    if low == "/all" then
      assert |p| == 4;
      assert p == path[..4];
      ListRoute
    else if |p| >= 2 && p[0] == '/' && '/' !in p[1..] then
      assert p == "/" + p[1..];
      ResolveRoute(p[1..])
    else NoRoute
  }
}
