# URL shortener record engine, in Dafny

This project models the URL-record engine of an Express + Mongoose URL
shortener. The engine has three HTTP handlers over one MongoDB collection of
`Url` documents:

- `POST /shorten` mints a short code for a long URL. When the URL is
  already stored, it reuses the existing code instead.
- `GET /:shortCode` redirects to the stored URL and counts the visit.
- `GET /all` lists every document, newest first.

The collection is a `Store`, which is a `seq<UrlRecord>` in insertion order.
Each handler is a pure function from the store and the request's inputs to a
reply and the next store. The two hidden inputs are parameters:

- `code` is what `nanoid(6)` would return. The precondition `IsGeneratedCode`
  says it is six characters of nanoid's URL-safe alphabet.
- `now` is what `Date.now` would return.

Modules:

- `UrlModel` (`url_model.dfy`) holds the `UrlRecord` datatype, the schema
  defaults, and the store invariant `ValidStore`. `ValidStore` says that
  required fields are present and that `shortCode` is unique. The module also
  holds the relations `Evolves` and `ClickedOnce` between two stores.
- `UrlStore` (`url_store.dfy`) holds the collection operations the handlers
  call. `findOne(filter)` with no sort is the first match in store order.
  `save()` of a new document fails on a taken code. `find().sort({createdAt: -1})`
  is an insertion sort.
- `UrlRoutes` (`url_routes.dfy`) holds the three handlers, their reply
  datatypes with HTTP status codes, the `shortURL` format, and the GET route
  dispatch. In that dispatch, `/all` is registered before `/:shortCode`.
- `UrlProperties` (`url_properties.dfy`) relates the handlers. It proves that
  they preserve the invariant, that counters never decrease, that shorten is
  idempotent, that shorten then resolve is a round trip, and that listing is
  newest first.
- `UrlServer` (`url_server.dfy`) is the router as a state machine over a
  sequence of requests. It proves invariants over whole runs, and that `n`
  visits add exactly `n` clicks.

Behaviour of the code that shapes the model:

- Deduplication matches on `longURL` alone
  (backend/routes/urlRoutes.js:17).
- A generated code that is already taken is not retried. `save()` fails and
  the handler answers 500 (backend/routes/urlRoutes.js:23-41).
- `clicks` is read, incremented and written back on the fetched document
  (backend/routes/urlRoutes.js:68-69). The model handles requests one at a
  time.

## Model

| member | source | states |
|---|---|---|
| UrlStore.FindOneFrom | backend/routes/urlRoutes.js:17 | the index returned is the first match at or after `from`; no result means no document from `from` on matches |
| UrlStore.FindOne | backend/routes/urlRoutes.js:62 | `findOne` without a sort finds something iff some document matches, and what it finds is the first match in store order |
| UrlStore.Save | backend/models/Url.js:4-12 | saving a new document succeeds iff its required fields are non-empty and its `shortCode` is not taken; on success the store is the old store plus exactly that document at the end |
| UrlStore.InsertNewestFirst | backend/routes/urlRoutes.js:50 | inserting into a newest-first list keeps it newest first and adds exactly that one document (multiset) |
| UrlStore.SortNewestFirst | backend/routes/urlRoutes.js:50 | `sort({createdAt: -1})` returns a permutation of the store in which `createdAt` never increases |
| UrlRoutes.CodeOfShortURL | backend/routes/urlRoutes.js:35 | a code read out of a short URL is non-empty and formats back to exactly that URL |
| UrlRoutes.Shorten | backend/routes/urlRoutes.js:7-44 | 400 with the store unchanged iff `longURL` is missing or empty; 200 with the first same-`longURL` document's short URL and the store unchanged iff the URL is known; 201 with `BASE_URL/code` and exactly one appended document (input URL, the generated code, `createdAt = now`, `clicks = 0`) iff the URL is new and the code free; 500 with the store unchanged iff the URL is new and the code taken |
| UrlRoutes.Resolve | backend/routes/urlRoutes.js:59-77 | 404 with the store unchanged iff no document holds the code; otherwise redirects to the first holder's `longURL`, raises that document's `clicks` by exactly 1 and leaves every other document and field unchanged |
| UrlRoutes.ListAll | backend/routes/urlRoutes.js:48-57 | `GET /all` returns a permutation of the stored documents (same multiset), newest first |
| UrlRoutes.LowerAscii | backend/routes/urlRoutes.js:48 | ASCII upper-case letters are shifted to lower case and every other character is kept |
| UrlRoutes.RouteGet | backend/routes/urlRoutes.js:48-59 | a path the router hands to `GET /:shortCode` is `/code` or `/code/` for a non-empty code with no `/` in it; a path it hands to `GET /all` is `/all` in some ASCII case, optionally followed by one `/` |
| UrlProperties.ShortenPreservesValid | backend/models/Url.js:8-12 | shorten keeps required fields present and `shortCode` unique |
| UrlProperties.ResolvePreservesValid | backend/models/Url.js:3-23 | resolve keeps required fields present and `shortCode` unique |
| UrlProperties.ShortenEvolves | backend/models/Url.js:18-21 | shorten leaves every stored document exactly as it was (the old store is a prefix of the new one), so no counter goes down |
| UrlProperties.ResolveEvolves | backend/routes/urlRoutes.js:68-69 | resolve loses no document, changes no immutable field and lowers no counter |
| UrlProperties.ShortenIdempotent | backend/routes/urlRoutes.js:17-20 | after a successful shorten of `u`, shortening `u` again with any generated code answers 200 with the same short URL and leaves the store as it was |
| UrlProperties.ShortURLRoundTrip | backend/routes/urlRoutes.js:19 | the code in `BASE_URL/code` is recovered exactly |
| UrlProperties.ShortenThenResolve | backend/routes/urlRoutes.js:17-71 | in a valid store, a successful shorten of `u` followed by a visit of the code in the answered short URL redirects to `u` |
| UrlProperties.ShortenKeepsChronological | backend/models/Url.js:13-17 | with a clock not behind any stored `createdAt`, the store stays in creation order after shorten |
| UrlProperties.ListHeadIsNewest | backend/routes/urlRoutes.js:50 | the first listed document is at least as new as every stored document |
| UrlProperties.NewestCreatedListedFirst | backend/routes/urlRoutes.js:48-51 | a document created at a time after every stored one is the first document of the next `GET /all` |
| UrlProperties.GeneratedCodeIsRoutable | backend/routes/urlRoutes.js:48-59 | the path `/code` of every generated code reaches `GET /:shortCode` with that code and is never shadowed by `/all` |
| UrlProperties.LowerAsciiSlash | backend/routes/urlRoutes.js:48 | lower-casing a path `/seg` is `/` followed by the lower-cased segment |
| UrlProperties.AllPathRoutesToList | backend/routes/urlRoutes.js:48 | `/all` in any ASCII case, with or without a trailing `/`, reaches the listing handler |
| UrlProperties.SegmentRoutesToResolve | backend/routes/urlRoutes.js:59 | every non-empty single segment other than `all` (in any case), with or without a trailing `/`, reaches `GET /:shortCode` with that segment as the code |
| UrlServer.Handle | backend/routes/urlRoutes.js:7-77 | any request loses no document, changes no immutable field and lowers no counter; `GET /all` leaves the store unchanged |
| UrlServer.HandlePreservesValid | backend/models/Url.js:8-12 | every handler keeps the schema invariant |
| UrlServer.RunPreservesValid | backend/models/Url.js:3-23 | any sequence of requests from a valid store reaches only valid stores |
| UrlServer.RunEvolves | backend/models/Url.js:18-21 | over any sequence of requests, `clicks` never decreases and no document is lost or rewritten |
| UrlServer.VisitOfStoredCode | backend/routes/urlRoutes.js:62-71 | in a valid store, visiting the code of a stored document redirects to that document's `longURL` and raises its `clicks` alone by 1, keeping the store valid |
| UrlServer.VisitsAreCounted | backend/routes/urlRoutes.js:62-69 | `n` sequential visits of a stored code raise that document's `clicks` by exactly `n` and leave every other document unchanged |
| UrlServer.EveryReachableStoreIsValid | backend/models/Url.js:8-12 | every store reached from the empty collection has unique codes and required fields |

## Left out

- Randomness of `nanoid(6)`: the generated code is a parameter. Only its length and alphabet are modelled, as the precondition `IsGeneratedCode`.
- The clock `Date.now` is a parameter `now`.
- MongoDB and Mongoose transport: `_id` and `__v` are not modelled. The unique index on `shortCode` is assumed to exist.
- I/O failures of `findOne`, `find` and `save` are not modelled. The only 500 modelled is the duplicate-key failure of `save()` when the generated code is taken.
- The catch block of `GET /:shortCode` is not modelled. It logs an undefined variable, so it throws a `ReferenceError` instead of answering 500.
- Concurrency is not modelled. Requests are handled one at a time. Under concurrent requests, the read-modify-write of `clicks` can lose updates, and the dedup pre-check can let two documents share a `longURL`.
- Non-string `longURL` values in the JSON body are not modelled. This covers numbers, booleans, and objects such as query operators. `None` stands for an absent, `null` or other falsy value.
- Percent-decoding of route parameters is not modelled. Generated codes contain no `%`.
- The welcome route and the server start-up in backend/index.js are not modelled, and neither is the React frontend.
- Response formatting is not modelled beyond the status code and payload.
- UrlStore.SortNewestFirst: MongoDB leaves the order of equal `createdAt` values unspecified. The model puts them in store order, and its contract promises only the newest-first order and the permutation.
- UrlProperties.ShortenKeepsChronological: assumes the clock never goes backwards, which `Date.now` does not guarantee.
- UrlRoutes.Resolve: `clicks` is unbounded. The loss of integer precision of JavaScript numbers past 2^53 is not modelled.
- UrlRoutes.Resolve: the redirect target is `longURL` as stored. `res.redirect` at backend/routes/urlRoutes.js:71 percent-encodes the Location header. In Express 4 it also sends the literal `longURL` `"back"` to the Referer, or to `/` when there is none. Neither effect is modelled, so `ShortenThenResolve` does not cover a `longURL` of `"back"`.
