/**
 The item store and its five request handlers (app/routers/items.py).

 The store is a process-wide dictionary from an item id to an `Item`, seeded
 with two records. Each handler is modelled as a pure function from the store
 and the request's inputs to the next store and a result: either a value or
 one of the two error kinds the router raises, Not-Found (status 404) and
 Bad-Request (status 400).
 */
module Items {
  import opened Optional
  import opened Dicts

  /** A catalogue record. `price` is only stored and returned, never computed on. */
  datatype Item = Item(
    id: int,
    name: string,
    description: Option<string>,
    price: real,
    isOffer: Option<bool>)

  type Store = Dict<Item>

  datatype Error = NotFound | BadRequest

  datatype Result<T> = Ok(value: T) | Err(error: Error)

  /** The store after a request, with the request's result. */
  datatype Reply<T> = Reply(store: Store, result: Result<T>)

  /** The confirmation a successful delete returns; its message names the id. */
  datatype Confirmation = Deleted(id: int)

  /** Every key of the store is the id of the record stored under it. */
  predicate KeysMatchIds(s: Store)
  {
    forall k :: k in s.content ==> s.content[k].id == k
  }

  /** The store as the process starts: a hammer under 1 and a screwdriver under 2. */
  function Seed(): (s: Store)
    ensures s.content.Keys == {1, 2}
    ensures s.content[1].name == "Martillo" && s.content[2].name == "Destornillador"
    ensures KeysMatchIds(s)
  {
    var order := [1, 2];
    assert order[1..] == [2] && 1 !in [2] && Distinct([2]);
    RawDict(order, map[
      1 := Item(1, "Martillo", Some("Herramienta para clavar mucho"), 19.99, Some(true)),
      2 := Item(2, "Destornillador", Some("Herramienta para tornillos"), 9.99, Some(false))])
  }

  /** GET /items/: every stored record, in insertion order; the store is unchanged. */
  function ReadItems(s: Store): (r: Reply<seq<Item>>)
    ensures r.store == s && r.result.Ok?
    ensures |r.result.value| == |s.content|
    ensures forall k :: k in s.content ==> s.content[k] in r.result.value
    ensures forall x :: x in r.result.value ==> x in s.content.Values
    ensures KeysMatchIds(s) ==>
      forall i, j :: 0 <= i < j < |r.result.value| ==> r.result.value[i].id != r.result.value[j].id
  {
    var vs := Values(s);
    DistinctAt(s.order);
    assert KeysMatchIds(s) ==> forall i :: 0 <= i < |vs| ==> vs[i].id == s.order[i];
    Reply(s, Ok(vs))
  }

  /** GET /items/{item_id}: the stored record, or Not-Found; the store is unchanged. */
  function ReadItem(s: Store, itemId: int): (r: Reply<Item>)
    ensures r.store == s
    ensures itemId !in s.content ==> r.result == Err(NotFound)
    ensures itemId in s.content ==> r.result == Ok(s.content[itemId])
  {
    if itemId !in s.content then Reply(s, Err(NotFound))
    else Reply(s, Ok(s.content[itemId]))
  }

  /** POST /items/: insert under the record's own id, or Bad-Request when that
      id is taken. A new record is appended after the existing ones. */
  function CreateItem(s: Store, item: Item): (r: Reply<Item>)
    ensures item.id in s.content ==> r.result == Err(BadRequest) && r.store == s
    ensures item.id !in s.content ==>
      && r.result == Ok(item)
      && r.store.content == s.content[item.id := item]
      && r.store.order == s.order + [item.id]
  {
    if item.id in s.content then Reply(s, Err(BadRequest))
    else Reply(Put(s, item.id, item), Ok(item))
  }

  /** PUT /items/{item_id}: Not-Found when the path id is absent (checked
      first), Bad-Request when the body's id differs from the path id, and
      otherwise the whole record is replaced in place. */
  function UpdateItem(s: Store, itemId: int, item: Item): (r: Reply<Item>)
    ensures itemId !in s.content ==> r.result == Err(NotFound) && r.store == s
    ensures itemId in s.content && itemId != item.id ==> r.result == Err(BadRequest) && r.store == s
    ensures itemId in s.content && itemId == item.id ==>
      && r.result == Ok(item)
      && r.store.content == s.content[itemId := item]
      && r.store.order == s.order
  {
    if itemId !in s.content then Reply(s, Err(NotFound))
    else if itemId != item.id then Reply(s, Err(BadRequest))
    else Reply(Put(s, itemId, item), Ok(item))
  }

  /** DELETE /items/{item_id}: Not-Found when absent, otherwise the entry is
      removed. */
  function DeleteItem(s: Store, itemId: int): (r: Reply<Confirmation>)
    ensures itemId !in s.content ==> r.result == Err(NotFound) && r.store == s
    ensures itemId in s.content ==>
      && r.result == Ok(Deleted(itemId))
      && r.store.content == s.content - {itemId}
  {
    if itemId !in s.content then Reply(s, Err(NotFound))
    else Reply(Remove(s, itemId), Ok(Deleted(itemId)))
  }

  /** The listing holds exactly the records that some single read returns. */
  lemma ListingIsReads(s: Store, x: Item)
    ensures x in ReadItems(s).result.value <==> exists k :: ReadItem(s, k).result == Ok(x)
  {
    if x in ReadItems(s).result.value {
      var k :| k in s.content && s.content[k] == x;
      assert ReadItem(s, k).result == Ok(x);
    }
  }

  /** A delete leaves the other records in their order. */
  lemma DeleteKeepsOrder(s: Store, itemId: int)
    requires itemId in s.content
    ensures exists i ::
      && 0 <= i < |s.order| && s.order[i] == itemId
      && DeleteItem(s, itemId).store.order == s.order[..i] + s.order[i + 1..]
  {
    RemoveKeepsOrder(s, itemId);
  }

  /** A created record reads back exactly as posted, and every other key
      reads as before. */
  lemma CreateThenRead(s: Store, item: Item, k: int)
    requires item.id !in s.content
    ensures ReadItem(CreateItem(s, item).store, item.id).result == Ok(item)
    ensures k != item.id ==> ReadItem(CreateItem(s, item).store, k).result == ReadItem(s, k).result
  {
  }

  /** A successful update is a full overwrite: the record reads back as the
      body sent, with nothing merged from the old one; the key set and every
      other record stay as they were. */
  lemma UpdateThenRead(s: Store, item: Item, k: int)
    requires item.id in s.content
    ensures UpdateItem(s, item.id, item).store.content.Keys == s.content.Keys
    ensures ReadItem(UpdateItem(s, item.id, item).store, item.id).result == Ok(item)
    ensures k != item.id ==> ReadItem(UpdateItem(s, item.id, item).store, k).result == ReadItem(s, k).result
  {
  }

  /** After a delete the id reads as Not-Found and a second delete of it is
      Not-Found too; every other key reads as before. */
  lemma DeleteThenRead(s: Store, itemId: int, k: int)
    requires itemId in s.content
    ensures ReadItem(DeleteItem(s, itemId).store, itemId).result == Err(NotFound)
    ensures DeleteItem(DeleteItem(s, itemId).store, itemId).result == Err(NotFound)
    ensures k != itemId ==> ReadItem(DeleteItem(s, itemId).store, k).result == ReadItem(s, k).result
  {
  }

  /** Deleting a record just created gives back the store it was created
      in, the insertion order included. */
  lemma CreateThenDelete(s: Store, item: Item)
    requires item.id !in s.content
    ensures DeleteItem(CreateItem(s, item).store, item.id) == Reply(s, Ok(Deleted(item.id)))
  {
    PutThenRemove(s, item.id, item);
  }

  /** Create writes under the record's own id, so the invariant survives. */
  lemma CreateKeepsKeysMatchIds(s: Store, item: Item)
    requires KeysMatchIds(s)
    ensures KeysMatchIds(CreateItem(s, item).store)
  {
  }

  /** Update writes only when the path id equals the body's id. */
  lemma UpdateKeepsKeysMatchIds(s: Store, itemId: int, item: Item)
    requires KeysMatchIds(s)
    ensures KeysMatchIds(UpdateItem(s, itemId, item).store)
  {
  }

  /** Delete only drops a key. */
  lemma DeleteKeepsKeysMatchIds(s: Store, itemId: int)
    requires KeysMatchIds(s)
    ensures KeysMatchIds(DeleteItem(s, itemId).store)
  {
  }
}
