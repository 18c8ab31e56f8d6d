/**
 The three collection operations the route handlers use, over a `Store`:
 `findOne(filter)` without a sort, `save()` of a new document, and
 `find().sort({createdAt: -1})`.
 */
module UrlStore {
  import opened UrlModel

  /** The two filters the handlers pass to `findOne`. */
  datatype Filter = ByLongURL(longURL: string) | ByShortCode(shortCode: string)

  predicate Matches(r: UrlRecord, f: Filter)
  {
    match f
    case ByLongURL(u) => r.longURL == u
    case ByShortCode(c) => r.shortCode == c
  }

  /** The position of the first document at or after `from` that matches
      `f`, scanning in store order. */
  function FindOneFrom(store: Store, f: Filter, from: nat): (r: Option<nat>)
    requires from <= |store|
    ensures r.Some? ==> from <= r.value < |store| && Matches(store[r.value], f)
    ensures r.Some? ==> forall j :: from <= j < r.value ==> !Matches(store[j], f)
    ensures r.None? ==> forall j :: from <= j < |store| ==> !Matches(store[j], f)
    decreases |store| - from
  {
    if from == |store| then None
    else if Matches(store[from], f) then Some(from)
    else FindOneFrom(store, f, from + 1)
  }

  /** `findOne(filter)` with no sort: the first matching document in store
      order, or nothing. */
  function FindOne(store: Store, f: Filter): (r: Option<nat>)
    ensures r.Some? <==> exists i :: 0 <= i < |store| && Matches(store[i], f)
    ensures r.Some? ==> r.value < |store| && Matches(store[r.value], f)
    ensures r.Some? ==> forall j :: 0 <= j < r.value ==> !Matches(store[j], f)
  {
    FindOneFrom(store, f, 0)
  }

  /** `save()` of a new document: schema validation, then an insert that
      the unique index on `shortCode` refuses when the code is taken. */
  function Save(store: Store, rec: UrlRecord): (r: Option<Store>)
    ensures r.Some? <==> HasRequiredFields(rec) && !CodeTaken(store, rec.shortCode)
    ensures r.Some? ==> |r.value| == |store| + 1 && r.value[..|store|] == store && r.value[|store|] == rec
  {
    if !HasRequiredFields(rec) then None
    else if FindOne(store, ByShortCode(rec.shortCode)).Some? then None
    else Some(store + [rec])
  }

  /** Ordered newest first: `createdAt` never increases along the list. */
  predicate NewestFirst(s: seq<UrlRecord>)
  {
    forall i, j :: 0 <= i < j < |s| ==> s[i].createdAt >= s[j].createdAt
  }

  /** Places `r` into a newest-first list, ahead of the documents that are
      not newer than it. */
  function InsertNewestFirst(r: UrlRecord, s: seq<UrlRecord>): (t: seq<UrlRecord>)
    requires NewestFirst(s)
    ensures NewestFirst(t)
    ensures multiset(t) == multiset(s) + multiset{r}
    ensures |t| == |s| + 1
  {
    if s == [] || r.createdAt >= s[0].createdAt then
      HeadFirst(r, s);
      [r] + s
    else
      NewestFirstTail(s);
      var rest := InsertNewestFirst(r, s[1..]);
      HeadAheadOfRest(r, s, rest);
      [s[0]] + rest
  }

  /** A tail of a newest-first list is newest first. */
  lemma NewestFirstTail(s: seq<UrlRecord>)
    requires NewestFirst(s) && s != []
    ensures NewestFirst(s[1..])
  {
    forall i, j | 0 <= i < j < |s| - 1
      ensures s[1..][i].createdAt >= s[1..][j].createdAt
    {
      assert s[1..][i] == s[i + 1] && s[1..][j] == s[j + 1];
    }
  }

  /** A document not older than the head of a newest-first list can go first. */
  lemma HeadFirst(r: UrlRecord, s: seq<UrlRecord>)
    requires NewestFirst(s) && (s == [] || r.createdAt >= s[0].createdAt)
    ensures NewestFirst([r] + s)
  {
    assert forall k :: 0 <= k < |s| ==> s[k].createdAt <= r.createdAt;
    ConsNewestFirst(r, s);
  }

  /** The step of the insertion that keeps the head of `s` in front. */
  lemma HeadAheadOfRest(r: UrlRecord, s: seq<UrlRecord>, rest: seq<UrlRecord>)
    requires NewestFirst(s) && s != [] && r.createdAt < s[0].createdAt
    requires NewestFirst(rest) && multiset(rest) == multiset(s[1..]) + multiset{r}
    ensures NewestFirst([s[0]] + rest)
    ensures multiset([s[0]] + rest) == multiset(s) + multiset{r}
  {
    HeadNotOlderThanRest(r, s, rest);
    ConsNewestFirst(s[0], rest);
    assert s == [s[0]] + s[1..];
  }

  lemma ConsNewestFirst(x: UrlRecord, s: seq<UrlRecord>)
    requires NewestFirst(s)
    requires forall k :: 0 <= k < |s| ==> s[k].createdAt <= x.createdAt
    ensures NewestFirst([x] + s)
  {
    var t := [x] + s;
    forall i, j | 0 <= i < j < |t|
      ensures t[i].createdAt >= t[j].createdAt
    {
      assert t[j] == s[j - 1];
      if i > 0 {
        assert t[i] == s[i - 1];
      }
    }
  }

  /** The head of a newest-first `s` is not older than anything left after
      `r`, which is older than that head, joins the rest of `s`. */
  lemma HeadNotOlderThanRest(r: UrlRecord, s: seq<UrlRecord>, rest: seq<UrlRecord>)
    requires NewestFirst(s) && s != [] && r.createdAt < s[0].createdAt
    requires multiset(rest) == multiset(s[1..]) + multiset{r}
    ensures forall k :: 0 <= k < |rest| ==> rest[k].createdAt <= s[0].createdAt
  {
    forall k | 0 <= k < |rest|
      ensures rest[k].createdAt <= s[0].createdAt
    {
      var x := rest[k];
      assert x in multiset(rest);
      if x != r {
        assert x in multiset(s[1..]);
        var m :| 0 <= m < |s[1..]| && s[1..][m] == x;
        assert s[m + 1] == x;
      }
    }
  }

  /** `find().sort({createdAt: -1})`: every document, newest first.
      Documents with equal `createdAt` keep their store order. */
  function SortNewestFirst(store: Store): (r: seq<UrlRecord>)
    ensures NewestFirst(r)
    ensures multiset(r) == multiset(store)
  {
    if store == [] then []
    else
      assert store == [store[0]] + store[1..];
      InsertNewestFirst(store[0], SortNewestFirst(store[1..]))
  }
}
