/**
 The routes of the item router, one request at a time, and runs of requests
 against the shared store: the store a request leaves behind is the store the
 next request sees.
 */
module Router {
  import opened Items

  /** One request to a route under /items. */
  datatype Request =
    | GetAll
    | GetById(itemId: int)
    | Post(item: Item)
    | PutById(itemId: int, item: Item)
    | DeleteById(itemId: int)

  /** The body of a successful response. */
  datatype Body =
    | ItemList(items: seq<Item>)
    | OneItem(item: Item)
    | Message(confirmation: Confirmation)

  /** The HTTP status a result is sent with. */
  function Status(r: Result<Body>): (code: int)
    ensures code == 200 <==> r.Ok?
    ensures code == 404 <==> r == Err(NotFound)
    ensures code == 400 <==> r == Err(BadRequest)
  {
    match r
    case Ok(_) => 200
    case Err(NotFound) => 404
    case Err(BadRequest) => 400
  }

  /** A handler's reply with a record, as the body of a response. */
  function ItemReply(r: Reply<Item>): (r': Reply<Body>)
  {
    match r.result
    case Ok(item) => Reply(r.store, Ok(OneItem(item)))
    case Err(e) => Reply(r.store, Err(e))
  }

  /** Route a request to its handler. A failed request never changes the
      store, a read never changes it, and no request breaks the
      key-equals-id invariant. */
  function Dispatch(s: Store, req: Request): (r: Reply<Body>)
    ensures r.result.Err? ==> r.store == s
    ensures req.GetAll? || req.GetById? ==> r.store == s
    ensures KeysMatchIds(s) ==> KeysMatchIds(r.store)
    ensures r.store.content.Keys == s.content.Keys
      || (req.Post? && r.store.content.Keys == s.content.Keys + {req.item.id})
      || (req.DeleteById? && r.store.content.Keys == s.content.Keys - {req.itemId})
  {
    match req
    case GetAll =>
      var r := ReadItems(s);
      Reply(r.store, Ok(ItemList(r.result.value)))
    case GetById(itemId) =>
      ItemReply(ReadItem(s, itemId))
    case Post(item) =>
      ItemReply(CreateItem(s, item))
    case PutById(itemId, item) =>
      ItemReply(UpdateItem(s, itemId, item))
    case DeleteById(itemId) =>
      var r := DeleteItem(s, itemId);
      match r.result
      case Ok(c) => Reply(r.store, Ok(Message(c)))
      case Err(e) => Reply(r.store, Err(e))
  }

  /** The store after a run of requests, with one result per request. */
  datatype Trace = Trace(store: Store, results: seq<Result<Body>>)

  /** The requests in order, each through `step` on the store the previous
      one left. */
  function Run(step: (Store, Request) -> Reply<Body>, s: Store, reqs: seq<Request>): (t: Trace)
    ensures |t.results| == |reqs|
    decreases |reqs|
  {
    if |reqs| == 0 then Trace(s, [])
    else
      var r := step(s, reqs[0]);
      var t := Run(step, r.store, reqs[1..]);
      Trace(t.store, [r.result] + t.results)
  }

  /** No run of requests, from a store where every key is its record's id,
      reaches a store where that fails. */
  lemma {:induction false} RunKeepsKeysMatchIds(s: Store, reqs: seq<Request>)
    requires KeysMatchIds(s)
    ensures KeysMatchIds(Run(Dispatch, s, reqs).store)
    decreases |reqs|
  {
    if |reqs| > 0 {
      RunKeepsKeysMatchIds(Dispatch(s, reqs[0]).store, reqs[1..]);
    }
  }

  /** A stored key stays in the store, and so in the listing, through any run
      that does not delete it. */
  lemma {:induction false} KeyPersistsUntilDeleted(s: Store, reqs: seq<Request>, k: int)
    requires k in s.content
    requires forall i :: 0 <= i < |reqs| ==> reqs[i] != DeleteById(k)
    ensures k in Run(Dispatch, s, reqs).store.content
    ensures Run(Dispatch, s, reqs).store.content[k] in ReadItems(Run(Dispatch, s, reqs).store).result.value
    decreases |reqs|
  {
    if |reqs| > 0 {
      KeyPersistsUntilDeleted(Dispatch(s, reqs[0]).store, reqs[1..], k);
    }
  }

  /** The status of every result of a run, in order. */
  function Statuses(rs: seq<Result<Body>>): seq<int>
  {
    seq(|rs|, i requires 0 <= i < |rs| => Status(rs[i]))
  }

  /** The statuses of two runs' results, one after the other. */
  lemma StatusesAppend(a: seq<Result<Body>>, b: seq<Result<Body>>)
    ensures Statuses(a + b) == Statuses(a) + Statuses(b)
  {
  }

  /** The statuses of three results. */
  lemma StatusesOfThree(a: Result<Body>, b: Result<Body>, c: Result<Body>)
    ensures Statuses([a, b, c]) == [Status(a), Status(b), Status(c)]
  {
  }

  /** A run of `a + b` is the run of `a` followed by the run of `b` on the
      store `a` leaves. */
  lemma {:induction false} RunAppend(step: (Store, Request) -> Reply<Body>, s: Store, a: seq<Request>, b: seq<Request>)
    ensures
      var ta := Run(step, s, a);
      var tb := Run(step, ta.store, b);
      Run(step, s, a + b) == Trace(tb.store, ta.results + tb.results)
    decreases |a|
  {
    if |a| > 0 {
      var r := step(s, a[0]);
      assert (a + b)[0] == a[0];
      assert (a + b)[1..] == a[1..] + b;
      RunAppend(step, r.store, a[1..], b);
    } else {
      assert a + b == b;
    }
  }

  /** A run of one request. */
  lemma RunOne(step: (Store, Request) -> Reply<Body>, s: Store, q: Request)
    ensures Run(step, s, [q]) == Trace(step(s, q).store, [step(s, q).result])
  {
    assert [q][1..] == [];
  }

  /** A run of two requests: the second sees the store the first left. */
  lemma RunTwo(step: (Store, Request) -> Reply<Body>, s: Store, p: Request, q: Request)
    ensures
      var r0 := step(s, p);
      var r1 := step(r0.store, q);
      Run(step, s, [p, q]) == Trace(r1.store, [r0.result, r1.result])
  {
    assert [p, q][1..] == [q];
    RunOne(step, step(s, p).store, q);
  }

  /** A run of three requests, each on the store the previous one left. */
  lemma RunThree(step: (Store, Request) -> Reply<Body>, s: Store, p: Request, q: Request, u: Request)
    ensures
      var r0 := step(s, p);
      var r1 := step(r0.store, q);
      var r2 := step(r1.store, u);
      Run(step, s, [p, q, u]) == Trace(r2.store, [r0.result, r1.result, r2.result])
  {
    assert [p, q, u][1..] == [q, u];
    RunTwo(step, step(s, p).store, q, u);
  }
}
