/**
 Properties that relate the route handlers of `UrlRoutes` to each other and
 to the schema invariant of `UrlModel`.
 */
module UrlProperties {
  import opened UrlModel
  import opened UrlRoutes

  /** `POST /shorten` keeps every document's required fields and the
      uniqueness of `shortCode`. */
  lemma ShortenPreservesValid(store: Store, longURL: Option<string>, code: string, now: int)
    requires ValidStore(store) && IsGeneratedCode(code)
    ensures ValidStore(Shorten(store, longURL, code, now).1)
  {
    var (reply, store') := Shorten(store, longURL, code, now);
    if reply.Created? {
      forall i, j | 0 <= i < j < |store'|
        ensures store'[i].shortCode != store'[j].shortCode
      {
        if j == |store| {
          assert store'[i] == store[i];
        } else {
          assert store'[i] == store[i] && store'[j] == store[j];
        }
      }
      forall i | 0 <= i < |store'|
        ensures HasRequiredFields(store'[i])
      {
        if i < |store| {
          assert store'[i] == store[i];
        }
      }
    }
  }

  /** `GET /:shortCode` keeps the schema invariant. */
  lemma ResolvePreservesValid(store: Store, code: string)
    requires ValidStore(store)
    ensures ValidStore(Resolve(store, code).1)
  {
    var (reply, store') := Resolve(store, code);
    if reply.Redirect? {
      var i :| 0 <= i < |store| && ClickedOnce(store, store', i);
      forall a, b | 0 <= a < b < |store'|
        ensures store'[a].shortCode != store'[b].shortCode
      {
        assert store'[a].shortCode == store[a].shortCode;
        assert store'[b].shortCode == store[b].shortCode;
      }
      forall a | 0 <= a < |store'|
        ensures HasRequiredFields(store'[a])
      {
        assert store'[a].longURL == store[a].longURL && store'[a].shortCode == store[a].shortCode;
      }
    }
  }

  /** `POST /shorten` leaves every stored document exactly as it was; at
      most it appends one. */
  lemma ShortenEvolves(store: Store, longURL: Option<string>, code: string, now: int)
    requires IsGeneratedCode(code)
    ensures Evolves(store, Shorten(store, longURL, code, now).1)
    ensures Shorten(store, longURL, code, now).1[..|store|] == store
  {
    var (reply, store') := Shorten(store, longURL, code, now);
    if reply.Created? {
      forall i | 0 <= i < |store|
        ensures store'[i] == store[i]
      {
        assert store'[..|store|][i] == store[i];
      }
    }
  }

  /** `GET /:shortCode` loses no document, alters no immutable field and
      lowers no counter. */
  lemma ResolveEvolves(store: Store, code: string)
    ensures Evolves(store, Resolve(store, code).1)
  {
    var (reply, store') := Resolve(store, code);
    if reply.Redirect? {
      var i :| 0 <= i < |store| && ClickedOnce(store, store', i);
      ClickedOnceEvolves(store, store', i);
    }
  }

  /** Shortening the same `longURL` again answers with the same short URL
      and changes nothing, whatever code the generator produces the second
      time. */
  lemma ShortenIdempotent(store: Store, longURL: string, code1: string, now1: int, code2: string, now2: int)
    requires IsGeneratedCode(code1) && IsGeneratedCode(code2)
    requires Shorten(store, Some(longURL), code1, now1).0.Created? || Shorten(store, Some(longURL), code1, now1).0.Reused?
    ensures
      var (first, store1) := Shorten(store, Some(longURL), code1, now1);
      var (second, store2) := Shorten(store1, Some(longURL), code2, now2);
      second == Reused(first.shortURL) && store2 == store1
  {
    var (first, store1) := Shorten(store, Some(longURL), code1, now1);
    var (second, store2) := Shorten(store1, Some(longURL), code2, now2);
    if first.Created? {
      assert store1[|store|].longURL == longURL;
      assert LongURLKnown(store1, longURL);
      var i :| && 0 <= i < |store1| && store1[i].longURL == longURL
               && (forall j :: 0 <= j < i ==> store1[j].longURL != longURL)
               && second.shortURL == ShortURL(store1[i].shortCode);
    } else {
      var i :| && 0 <= i < |store| && store[i].longURL == longURL
               && (forall j :: 0 <= j < i ==> store[j].longURL != longURL)
               && first.shortURL == ShortURL(store[i].shortCode);
      assert LongURLKnown(store1, longURL);
      var i2 :| && 0 <= i2 < |store1| && store1[i2].longURL == longURL
                && (forall j :: 0 <= j < i2 ==> store1[j].longURL != longURL)
                && second.shortURL == ShortURL(store1[i2].shortCode);
      assert i2 == i;
    }
  }

  /** A short URL carries its code back out. */
  lemma ShortURLRoundTrip(code: string)
    requires code != ""
    ensures CodeOfShortURL(ShortURL(code)) == Some(code)
  {
    var prefix := BASE_URL + "/";
    assert ShortURL(code) == prefix + code;
    assert ShortURL(code)[..|prefix|] == prefix;
    assert ShortURL(code)[|prefix|..] == code;
  }

  /** Following a successful `POST /shorten` of `longURL` with a visit of
      the short URL it answered redirects to `longURL`. */
  lemma ShortenThenResolve(store: Store, longURL: string, code: string, now: int)
    requires ValidStore(store) && IsGeneratedCode(code)
    requires Shorten(store, Some(longURL), code, now).0.Created? || Shorten(store, Some(longURL), code, now).0.Reused?
    ensures
      var (reply, store') := Shorten(store, Some(longURL), code, now);
      && CodeOfShortURL(reply.shortURL).Some?
      && Resolve(store', CodeOfShortURL(reply.shortURL).value).0 == Redirect(longURL)
  {
    var (reply, store') := Shorten(store, Some(longURL), code, now);
    ShortenPreservesValid(store, Some(longURL), code, now);
    var c: string;
    var k: int;
    if reply.Created? {
      c, k := code, |store|;
    } else {
      var i :| && 0 <= i < |store| && store[i].longURL == longURL
               && (forall j :: 0 <= j < i ==> store[j].longURL != longURL)
               && reply.shortURL == ShortURL(store[i].shortCode);
      c, k := store[i].shortCode, i;
    }
    assert reply.shortURL == ShortURL(c) && 0 <= k < |store'| && store'[k].shortCode == c && store'[k].longURL == longURL;
    ShortURLRoundTrip(c);
    assert CodeTaken(store', c);
    var (visit, _) := Resolve(store', c);
    var i :| && 0 <= i < |store'| && store'[i].shortCode == c
             && (forall j :: 0 <= j < i ==> store'[j].shortCode != c)
             && visit.location == store'[i].longURL;
    assert i == k;
  }

  /** A document created with a clock reading not behind any stored one
      keeps the store in creation order. */
  lemma ShortenKeepsChronological(store: Store, longURL: Option<string>, code: string, now: int)
    requires IsGeneratedCode(code)
    requires Chronological(store) && ClockNotBehind(store, now)
    ensures Chronological(Shorten(store, longURL, code, now).1)
  {
    var (reply, store') := Shorten(store, longURL, code, now);
    if reply.Created? {
      forall i, j | 0 <= i < j < |store'|
        ensures store'[i].createdAt <= store'[j].createdAt
      {
        assert store'[i] == store'[..|store|][i] == store[i];
        if j < |store| {
          assert store'[j] == store'[..|store|][j] == store[j];
        }
      }
    }
  }

  /** The head of the newest-first listing is at least as new as every
      document in the store. */
  lemma ListHeadIsNewest(store: Store)
    requires store != []
    ensures forall i :: 0 <= i < |store| ==> ListAll(store)[0].createdAt >= store[i].createdAt
  {
    var r := ListAll(store);
    forall i | 0 <= i < |store|
      ensures r[0].createdAt >= store[i].createdAt
    {
      assert store[i] in multiset(store);
      assert store[i] in multiset(r);
      var k :| 0 <= k < |r| && r[k] == store[i];
    }
  }

  /** A document created with a clock reading strictly after every stored
      one heads the next `GET /all`. */
  lemma NewestCreatedListedFirst(store: Store, longURL: string, code: string, now: int)
    requires IsGeneratedCode(code)
    requires forall i :: 0 <= i < |store| ==> store[i].createdAt < now
    requires Shorten(store, Some(longURL), code, now).0.Created?
    ensures
      var store' := Shorten(store, Some(longURL), code, now).1;
      ListAll(store')[0] == store'[|store|]
  {
    var store' := Shorten(store, Some(longURL), code, now).1;
    ListHeadIsNewest(store');
    var r := ListAll(store');
    assert r[0] in multiset(r);
    assert r[0] in multiset(store');
    var k :| 0 <= k < |store'| && store'[k] == r[0];
  }

  /** Generated codes are never shadowed by the `/all` route: the path of
      every short URL reaches `GET /:shortCode` with the code intact. */
  lemma GeneratedCodeIsRoutable(code: string)
    requires IsGeneratedCode(code)
    ensures RouteGet("/" + code) == ResolveRoute(code)
  {
    var p := "/" + code;
    assert p[|p| - 1] == code[5];
    assert TrimTrailingSlash(p) == p;
    assert |LowerAscii(p)| == 7;
    assert p[1..] == code;
    assert '/' !in code by {
      forall i | 0 <= i < |code| ensures code[i] != '/' {
        assert UrlSafeChar(code[i]);
      }
    }
  }

  /** Lower-casing commutes with prefixing a character that has no case. */
  lemma LowerAsciiSlash(seg: string)
    ensures LowerAscii("/" + seg) == "/" + LowerAscii(seg)
  {
    var a, b := LowerAscii("/" + seg), "/" + LowerAscii(seg);
    forall i | 0 <= i < |a|
      ensures a[i] == b[i]
    {
      if i > 0 {
        assert ("/" + seg)[i] == seg[i - 1];
      }
    }
  }

  /** `GET /all`, in any ASCII case and with or without a trailing `/`,
      reaches the listing handler: it is registered before `/:shortCode`. */
  lemma AllPathRoutesToList(seg: string, trailingSlash: bool)
    requires LowerAscii(seg) == "all"
    ensures RouteGet(if trailingSlash then "/" + seg + "/" else "/" + seg) == ListRoute
  {
    var p := "/" + seg;
    var path := if trailingSlash then p + "/" else p;
    assert |seg| == 3;
    assert p[|p| - 1] == seg[2];
    assert TrimTrailingSlash(path) == p;
    LowerAsciiSlash(seg);
    assert LowerAscii(p) == "/" + "all" == "/all";
  }

  /** Every other single path segment, with or without a trailing `/`,
      reaches `GET /:shortCode` with that segment as the code. */
  lemma SegmentRoutesToResolve(seg: string, trailingSlash: bool)
    requires seg != "" && '/' !in seg && LowerAscii(seg) != "all"
    ensures RouteGet(if trailingSlash then "/" + seg + "/" else "/" + seg) == ResolveRoute(seg)
  {
    var p := "/" + seg;
    var path := if trailingSlash then p + "/" else p;
    assert p[|p| - 1] == seg[|seg| - 1];
    assert TrimTrailingSlash(path) == p;
    LowerAsciiSlash(seg);
    var low := LowerAscii(p);
    assert low[1..] == LowerAscii(seg);
    assert low != "/all";
    assert p[1..] == seg;
  }
}
