/**
 The router as a state machine: a sequence of requests handled one after
 another against the store. Requests are served strictly one at a time.
 */
module UrlServer {
  import opened UrlModel
  import opened UrlRoutes
  import opened UrlProperties

  /** A request together with the values the handler would draw from
      `nanoid(6)` and `Date.now`. */
  datatype Request =
    | ShortenRequest(longURL: Option<string>, code: string, now: int)
    | VisitRequest(shortCode: string)
    | ListRequest

  datatype Reply = ShortenDone(shorten: ShortenReply) | VisitDone(visit: ResolveReply) | ListDone(records: seq<UrlRecord>)

  predicate WellFormedRequest(req: Request)
  {
    req.ShortenRequest? ==> IsGeneratedCode(req.code)
  }

  predicate WellFormedRequests(reqs: seq<Request>)
  {
    forall k :: 0 <= k < |reqs| ==> WellFormedRequest(reqs[k])
  }

  /** One request: the handler it is routed to, and the store after it. */
  function Handle(store: Store, req: Request): (out: (Reply, Store))
    requires WellFormedRequest(req)
    ensures Evolves(store, out.1)
    ensures req.ListRequest? ==> out.1 == store
  {
    match req
    case ShortenRequest(u, c, now) =>
      ShortenEvolves(store, u, c, now);
      var (reply, store') := Shorten(store, u, c, now);
      (ShortenDone(reply), store')
    case VisitRequest(c) =>
      ResolveEvolves(store, c);
      var (reply, store') := Resolve(store, c);
      (VisitDone(reply), store')
    case ListRequest =>
      (ListDone(ListAll(store)), store)
  }

  /** Each handler keeps the schema invariant. */
  lemma HandlePreservesValid(store: Store, req: Request)
    requires WellFormedRequest(req) && ValidStore(store)
    ensures ValidStore(Handle(store, req).1)
  {
    match req
    case ShortenRequest(u, c, now) => ShortenPreservesValid(store, u, c, now);
    case VisitRequest(c) => ResolvePreservesValid(store, c);
    case ListRequest =>
  }

  /** The store after handling `reqs` in order. */
  function Run(store: Store, reqs: seq<Request>): Store
    requires WellFormedRequests(reqs)
    decreases |reqs|
  {
    if reqs == [] then store else Run(Handle(store, reqs[0]).1, reqs[1..])
  }

  /** Every store reachable from a valid one is valid: codes stay unique and
      required fields stay present, whatever the requests. */
  lemma {:induction false} RunPreservesValid(store: Store, reqs: seq<Request>)
    requires WellFormedRequests(reqs)
    requires ValidStore(store)
    ensures ValidStore(Run(store, reqs))
    decreases |reqs|
  {
    if reqs != [] {
      HandlePreservesValid(store, reqs[0]);
      RunPreservesValid(Handle(store, reqs[0]).1, reqs[1..]);
    }
  }

  /** Over any run, no document is lost or rewritten and no counter goes
      down. */
  lemma {:induction false} RunEvolves(store: Store, reqs: seq<Request>)
    requires WellFormedRequests(reqs)
    ensures Evolves(store, Run(store, reqs))
    decreases |reqs|
  {
    if reqs != [] {
      var next := Handle(store, reqs[0]).1;
      RunEvolves(next, reqs[1..]);
      EvolvesTransitive(store, next, Run(store, reqs));
    }
  }

  /** In a valid store, visiting the code of document `i` redirects to its
      `longURL` and raises exactly its counter. */
  lemma VisitOfStoredCode(store: Store, i: nat)
    requires ValidStore(store) && i < |store|
    ensures Resolve(store, store[i].shortCode) == (Redirect(store[i].longURL), store[i := store[i].(clicks := store[i].clicks + 1)])
    ensures ValidStore(store[i := store[i].(clicks := store[i].clicks + 1)])
  {
    var code := store[i].shortCode;
    var (reply, next) := Resolve(store, code);
    assert CodeTaken(store, code);
    var k :| && 0 <= k < |store| && store[k].shortCode == code
             && (forall j :: 0 <= j < k ==> store[j].shortCode != code)
             && reply.location == store[k].longURL
             && ClickedOnce(store, next, k);
    assert k == i;
    assert next == store[i := store[i].(clicks := store[i].clicks + 1)];
    ResolvePreservesValid(store, code);
  }

  /** `n` visits of the same code. */
  function Visits(code: string, n: nat): seq<Request>
  {
    seq(n, _ => VisitRequest(code))
  }

  /** Every one of `n` visits of a stored code is counted: the document's
      `clicks` grows by exactly `n` and every other document is unchanged. */
  lemma {:induction false} VisitsAreCounted(store: Store, i: nat, n: nat)
    requires ValidStore(store) && i < |store|
    ensures |Run(store, Visits(store[i].shortCode, n))| == |store|
    ensures Run(store, Visits(store[i].shortCode, n))[i] == store[i].(clicks := store[i].clicks + n)
    ensures forall j :: 0 <= j < |store| && j != i ==> Run(store, Visits(store[i].shortCode, n))[j] == store[j]
    decreases n
  {
    var code := store[i].shortCode;
    if n > 0 {
      var next := store[i := store[i].(clicks := store[i].clicks + 1)];
      VisitOfStoredCode(store, i);
      assert Visits(code, n)[1..] == Visits(code, n - 1);
      assert Run(store, Visits(code, n)) == Run(next, Visits(code, n - 1));
      VisitsAreCounted(next, i, n - 1);
    }
  }

  /** Starting from an empty collection, every store a run reaches is valid. */
  lemma EveryReachableStoreIsValid(reqs: seq<Request>)
    requires WellFormedRequests(reqs)
    ensures ValidStore(Run([], reqs))
  {
    RunPreservesValid([], reqs);
  }
}
