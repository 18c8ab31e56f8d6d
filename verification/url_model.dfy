/**
 The `Url` collection of the URL shortener (backend/models/Url.js).

 A document of the collection is an immutable `UrlRecord`; the collection
 itself is a `Store`, a sequence of records in insertion order (the order in
 which an unsorted `findOne` scans them). The schema's `required` and
 `unique` options become the store invariant `ValidStore`.
 */
module UrlModel {

  datatype Option<T> = None | Some(value: T)

  /** One `Url` document. `createdAt` is a timestamp in milliseconds
      (`Date.now`); `clicks` is a JavaScript number that only ever grows
      from its default 0, so it is modelled as a `nat`. */
  datatype UrlRecord = UrlRecord(longURL: string, shortCode: string, createdAt: int, clicks: nat)

  type Store = seq<UrlRecord>

  /** A document built by `new Url({longURL, shortCode})`: the schema
      defaults fill in `createdAt` from the clock and `clicks` with 0. */
  function NewRecord(longURL: string, shortCode: string, now: int): UrlRecord
  {
    UrlRecord(longURL, shortCode, now, 0)
  }

  /** Mongoose's `required` validator on a String path rejects a missing
      value and the empty string. */
  predicate HasRequiredFields(r: UrlRecord)
  {
    r.longURL != "" && r.shortCode != ""
  }

  /** The unique index on `shortCode`: no two documents share a code. */
  predicate CodesUnique(store: Store)
  {
    forall i, j :: 0 <= i < j < |store| ==> store[i].shortCode != store[j].shortCode
  }

  predicate CodeTaken(store: Store, code: string)
  {
    exists i :: 0 <= i < |store| && store[i].shortCode == code
  }

  predicate LongURLKnown(store: Store, longURL: string)
  {
    exists i :: 0 <= i < |store| && store[i].longURL == longURL
  }

  /** The schema invariant every reachable store satisfies. */
  predicate ValidStore(store: Store)
  {
    && (forall i :: 0 <= i < |store| ==> HasRequiredFields(store[i]))
    && CodesUnique(store)
  }

  /** Documents appear in the order they were created. */
  predicate Chronological(store: Store)
  {
    forall i, j :: 0 <= i < j < |store| ==> store[i].createdAt <= store[j].createdAt
  }

  /** The clock reading `now` is not earlier than any stored `createdAt`. */
  predicate ClockNotBehind(store: Store, now: int)
  {
    forall i :: 0 <= i < |store| ==> store[i].createdAt <= now
  }

  /** `store'` is a later state of `store`: no document is lost, the
      immutable fields of every document are unchanged, and no counter went
      down. */
  predicate Evolves(store: Store, store': Store)
  {
    && |store| <= |store'|
    && forall i :: 0 <= i < |store| ==>
         && store'[i].longURL == store[i].longURL
         && store'[i].shortCode == store[i].shortCode
         && store'[i].createdAt == store[i].createdAt
         && store'[i].clicks >= store[i].clicks
  }

  /** `store'` is `store` with the counter of document `i` raised by one and
      every other document, and every other field, left alone. */
  predicate ClickedOnce(store: Store, store': Store, i: int)
  {
    && 0 <= i < |store| == |store'|
    && store'[i].longURL == store[i].longURL
    && store'[i].shortCode == store[i].shortCode
    && store'[i].createdAt == store[i].createdAt
    && store'[i].clicks == store[i].clicks + 1
    && forall j :: 0 <= j < |store| && j != i ==> store'[j] == store[j]
  }

  lemma ClickedOnceEvolves(store: Store, store': Store, i: int)
    requires ClickedOnce(store, store', i)
    ensures Evolves(store, store')
  {
    forall j | 0 <= j < |store|
      ensures store'[j].clicks >= store[j].clicks
    {
      if j != i {
        assert store'[j] == store[j];
      }
    }
  }

  lemma EvolvesTransitive(s1: Store, s2: Store, s3: Store)
    requires Evolves(s1, s2) && Evolves(s2, s3)
    ensures Evolves(s1, s3)
  {
  }
}
