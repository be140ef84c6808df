/**
 The tests of tests/test_items.py, replayed against the router: each test's
 requests as a run, with the statuses and bodies the test asserts, and the
 whole file in order from the seeded store, since the tests share one
 process and so one store.
 */
module ItemsTests {
  import opened Optional
  import opened Items
  import opened Router

  /** test_read_items: the listing succeeds and holds the records under ids 1 and 2. */
  lemma ListTest(s: Store)
    requires KeysMatchIds(s) && 1 in s.content && 2 in s.content
    ensures
      var t := Run(Dispatch, s, ListRequests);
      && t.store == s
      && Statuses(t.results) == ListStatuses
      && t.results[0].value.ItemList?
      && |t.results[0].value.items| >= 2
      && (exists x :: x in t.results[0].value.items && x.id == 1)
      && (exists x :: x in t.results[0].value.items && x.id == 2)
  {
  }

  /** test_read_item: id 1 reads as the hammer, id 999 is Not-Found. */
  lemma ReadTest(s: Store)
    requires KeysMatchIds(s) && 1 in s.content && s.content[1].name == "Martillo" && 999 !in s.content
    ensures
      var t := Run(Dispatch, s, ReadRequests);
      && t.store == s
      && Statuses(t.results) == ReadStatuses
      && t.results[0] == Ok(OneItem(s.content[1]))
      && t.results[0].value.item.id == 1
      && t.results[0].value.item.name == "Martillo"
  {
  }

  /** The bodies tests/test_items.py sends. */
  const Wrench := Item(3, "Llave inglesa", Some("Herramienta ajustable"), 14.99, Some(true))
  const Phillips := Item(2, "Destornillador Phillips", Some("Destornillador de cruz"), 12.99, Some(true))
  const Missing := Item(999, "No existe", Some("Este item no existe"), 0.0, Some(false))
  const Mismatched := Item(5, "ID no coincidente", Some("Este item tiene un ID que no coincide con la ruta"), 0.0, Some(false))
  const Temporary := Item(4, "Temporal", Some("Item para eliminar"), 5.99, Some(false))

  /** The requests of tests/test_items.py, test by test. */
  const ListRequests: seq<Request> := [GetAll]
  const ReadRequests: seq<Request> := [GetById(1), GetById(999)]
  const CreateRequests: seq<Request> := [Post(Wrench), Post(Wrench)]
  const UpdateRequests: seq<Request> := [PutById(2, Phillips), PutById(999, Missing), PutById(2, Mismatched)]
  const DeleteRequests: seq<Request> := [Post(Temporary), DeleteById(4), GetById(4), DeleteById(999)]

  /** The statuses each test of tests/test_items.py expects, request by request. */
  const ListStatuses: seq<int> := [200]
  const ReadStatuses: seq<int> := [200, 404]
  const CreateStatuses: seq<int> := [200, 400]
  const UpdateStatuses: seq<int> := [200, 404, 400]
  const DeleteStatuses: seq<int> := [200, 200, 404, 404]

  /** test_create_item: posting id 3 succeeds with the posted body, posting it
      again is Bad-Request. */
  lemma CreateTest(s: Store)
    requires 3 !in s.content
    ensures
      var t := Run(Dispatch, s, CreateRequests);
      && Statuses(t.results) == CreateStatuses
      && t.results[0] == Ok(OneItem(Wrench))
      && t.store.content == s.content[3 := Wrench]
  {
    RunTwo(Dispatch, s, Post(Wrench), Post(Wrench));
  }

  /** test_update_item: a matching body replaces record 2, an absent path id
      is Not-Found, and a body id that differs from the path id is Bad-Request. */
  lemma UpdateTest(s: Store)
    requires 2 in s.content && 999 !in s.content
    ensures
      var t := Run(Dispatch, s, UpdateRequests);
      && Statuses(t.results) == UpdateStatuses
      && t.results[0] == Ok(OneItem(Phillips))
      && t.store.content == s.content[2 := Phillips]
  {
    var r0 := Dispatch(s, PutById(2, Phillips));
    var r1 := Dispatch(r0.store, PutById(999, Missing));
    var r2 := Dispatch(r1.store, PutById(2, Mismatched));
    RunThree(Dispatch, s, PutById(2, Phillips), PutById(999, Missing), PutById(2, Mismatched));
    assert r0.result == Ok(OneItem(Phillips)) && r1.result == Err(NotFound) && r2.result == Err(BadRequest);
    StatusesOfThree(r0.result, r1.result, r2.result);
  }

  /** Posting a fresh record and deleting it again leaves the store as it
      was. */
  lemma PostThenDelete(s: Store, item: Item)
    requires item.id !in s.content
    ensures
      var t := Run(Dispatch, s, [Post(item), DeleteById(item.id)]);
      && Statuses(t.results) == [200, 200]
      && t.store == s
  {
    CreateThenDelete(s, item);
    RunTwo(Dispatch, s, Post(item), DeleteById(item.id));
  }

  /** Reading and deleting an absent id are both Not-Found and change nothing. */
  lemma AbsentReadThenDelete(s: Store, k: int, k': int)
    requires k !in s.content && k' !in s.content
    ensures
      var t := Run(Dispatch, s, [GetById(k), DeleteById(k')]);
      && Statuses(t.results) == [404, 404]
      && t.store == s
  {
    RunTwo(Dispatch, s, GetById(k), DeleteById(k'));
  }

  /** test_delete_item: a record posted under id 4 can be deleted, reads as
      Not-Found afterwards, and deleting the absent id 999 is Not-Found. */
  lemma DeleteTest(s: Store)
    requires 4 !in s.content && 999 !in s.content
    ensures
      var t := Run(Dispatch, s, DeleteRequests);
      && Statuses(t.results) == DeleteStatuses
      && t.store == s
  {
    var a := [Post(Temporary), DeleteById(4)];
    var b := [GetById(4), DeleteById(999)];
    PostThenDelete(s, Temporary);
    AbsentReadThenDelete(s, 4, 999);
    RunAppend(Dispatch, s, a, b);
    StatusesAppend(Run(Dispatch, s, a).results, Run(Dispatch, s, b).results);
    assert a + b == DeleteRequests;
  }

  /** test_update_item then test_delete_item, on one store. */
  lemma UpdateThenDeleteTests(s: Store)
    requires 2 in s.content && 4 !in s.content && 999 !in s.content
    ensures
      var t := Run(Dispatch, s, UpdateRequests + DeleteRequests);
      && Statuses(t.results) == UpdateStatuses + DeleteStatuses
      && t.results[0] == Ok(OneItem(Phillips))
      && t.store.content == s.content[2 := Phillips]
  {
    UpdateTest(s);
    var s1 := Run(Dispatch, s, UpdateRequests).store;
    DeleteTest(s1);
    RunAppend(Dispatch, s, UpdateRequests, DeleteRequests);
    StatusesAppend(Run(Dispatch, s, UpdateRequests).results, Run(Dispatch, s1, DeleteRequests).results);
  }

  /** test_create_item, then the update and delete tests, on one store. */
  lemma CreateUpdateDeleteTests(s: Store)
    requires 2 in s.content && 3 !in s.content && 4 !in s.content && 999 !in s.content
    ensures
      var t := Run(Dispatch, s, CreateRequests + (UpdateRequests + DeleteRequests));
      && Statuses(t.results) == CreateStatuses + (UpdateStatuses + DeleteStatuses)
      && t.results[0] == Ok(OneItem(Wrench))
      && t.results[2] == Ok(OneItem(Phillips))
      && t.store.content == s.content[3 := Wrench][2 := Phillips]
  {
    CreateTest(s);
    var s1 := Run(Dispatch, s, CreateRequests).store;
    UpdateThenDeleteTests(s1);
    RunAppend(Dispatch, s, CreateRequests, UpdateRequests + DeleteRequests);
    StatusesAppend(Run(Dispatch, s, CreateRequests).results, Run(Dispatch, s1, UpdateRequests + DeleteRequests).results);
  }

  /** test_read_item and everything after it, from the seeded store. */
  lemma ReadOnwardTests()
    ensures
      var t := Run(Dispatch, Seed(), ReadRequests + (CreateRequests + (UpdateRequests + DeleteRequests)));
      && Statuses(t.results) == ReadStatuses + (CreateStatuses + (UpdateStatuses + DeleteStatuses))
      && t.results[0] == Ok(OneItem(Seed().content[1]))
      && t.results[2] == Ok(OneItem(Wrench))
      && t.results[4] == Ok(OneItem(Phillips))
      && t.store.content == Seed().content[3 := Wrench][2 := Phillips]
  {
    var s := Seed();
    var rest := CreateRequests + (UpdateRequests + DeleteRequests);
    ReadTest(s);
    CreateUpdateDeleteTests(s);
    RunAppend(Dispatch, s, ReadRequests, rest);
    StatusesAppend(Run(Dispatch, s, ReadRequests).results, Run(Dispatch, s, rest).results);
  }

  /** The whole of tests/test_items.py run in file order against one process,
      from the seeded store: every request gets the status its test expects,
      the listing, the read, the create and the update return the bodies the
      tests compare against, and the store ends with the wrench added and
      record 2 replaced. */
  lemma SuiteFromSeed()
    ensures
      var t := Run(Dispatch, Seed(), ListRequests + (ReadRequests + (CreateRequests + (UpdateRequests + DeleteRequests))));
      && Statuses(t.results) == ListStatuses + (ReadStatuses + (CreateStatuses + (UpdateStatuses + DeleteStatuses)))
      && t.results[0].value.ItemList?
      && |t.results[0].value.items| >= 2
      && (exists x :: x in t.results[0].value.items && x.id == 1)
      && (exists x :: x in t.results[0].value.items && x.id == 2)
      && t.results[1] == Ok(OneItem(Seed().content[1]))
      && t.results[1].value.item.id == 1
      && t.results[1].value.item.name == "Martillo"
      && t.results[3] == Ok(OneItem(Wrench))
      && t.results[5] == Ok(OneItem(Phillips))
      && t.store.content == Seed().content[3 := Wrench][2 := Phillips]
  {
    var s := Seed();
    var rest := ReadRequests + (CreateRequests + (UpdateRequests + DeleteRequests));
    ListTest(s);
    ReadOnwardTests();
    RunAppend(Dispatch, s, ListRequests, rest);
    StatusesAppend(Run(Dispatch, s, ListRequests).results, Run(Dispatch, s, rest).results);
  }
}
