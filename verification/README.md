# Item store of the FastAPI example service, in Dafny

The service keeps a catalogue of tools in a process-wide dictionary,
`items_db`, from an integer id to an `Item` record. At start-up the
dictionary holds two records: a hammer under 1 and a screwdriver under 2. The
router under `/items` offers five handlers on that dictionary:

- `read_items` lists the records;
- `read_item` looks one up;
- `create_item` inserts under the record's own id;
- `update_item` replaces a record in full;
- `delete_item` removes one.

A handler that refuses raises Not-Found (404) or Bad-Request (400) and leaves
the dictionary untouched.

The model has four modules.

- `Dicts` (`dicts.dfy`) models the Python `dict` operations the handlers use:
  - a dictionary is a finite map together with the insertion order of its
    keys (`Dict<V>`, a subset type whose order lists each key exactly once);
  - `Put` is `d[k] = v`;
  - `Remove` is `del d[k]`, which may only be applied to a present key;
  - `Values` is `list(d.values())`.
- `Items` (`items.dfy`) holds the `Item` record, the seeded store and the
  five handlers. Each handler is a pure function from the store and the
  request's inputs to a `Reply`: the next store together with `Ok(value)` or
  `Err(NotFound | BadRequest)`. It also states the invariant that every key
  is the id of the record stored under it.
- `Router` (`router.dfy`) holds the route table as one `Dispatch` over a
  `Request` datatype, the status code of each result, and `Run`. `Run` feeds a
  sequence of requests through one shared store, as the process-wide
  dictionary does. Lemmas there carry the key/id invariant and key
  persistence across any run.
- `ItemsTests` (`items_tests.dfy`) replays each test of `tests/test_items.py`
  as a run, and then the whole file in order from the seeded store.

## Model

| member | source | states |
|---|---|---|
| Items.Seed | app/routers/items.py:21-24 | the initial store holds exactly ids 1 and 2, the hammer and the screwdriver, and every key is its record's id |
| Items.ReadItems | app/routers/items.py:26-28 | the listing leaves the store alone, has one entry per key, holds every stored record and nothing else, and, when keys are ids, no id twice |
| Items.ListingIsReads | app/routers/items.py:26-34 | a record is in the listing exactly when some single read returns it |
| Items.ReadItem | app/routers/items.py:30-34 | an absent id is Not-Found, a present id returns exactly the stored record, and the store is unchanged either way |
| Items.CreateItem | app/routers/items.py:36-41 | a taken id is Bad-Request with the store unchanged; a fresh id adds exactly `item.id ↦ item`, appended after the existing keys, and returns the posted record |
| Items.UpdateItem | app/routers/items.py:43-50 | an absent path id is Not-Found even when the body id differs; a present path id that differs from the body id is Bad-Request; both leave the store unchanged; otherwise the record is replaced in full, in its old position, and returned |
| Items.DeleteItem | app/routers/items.py:52-57 | an absent id is Not-Found with the store unchanged; a present id is removed and nothing else, with a confirmation naming the id |
| Items.DeleteKeepsOrder | app/routers/items.py:56 | a delete cuts out the one position of the id and keeps the other keys in their order |
| Items.CreateThenRead | app/routers/items.py:30-41 | after a create the new id reads back as the posted record and every other id reads as before |
| Items.UpdateThenRead | app/routers/items.py:45-50 | after a successful update the key set is the same, the id reads back as the body sent with nothing merged, and other ids read as before |
| Items.DeleteThenRead | app/routers/items.py:54-57 | after a delete the id reads as Not-Found, a second delete is Not-Found, and other ids read as before |
| Items.CreateThenDelete | app/routers/items.py:36-57 | deleting a record just created restores the store exactly, order included |
| Items.CreateKeepsKeysMatchIds | app/routers/items.py:40 | create preserves "every key is its record's id" |
| Items.UpdateKeepsKeysMatchIds | app/routers/items.py:47-49 | update preserves "every key is its record's id" |
| Items.DeleteKeepsKeysMatchIds | app/routers/items.py:56 | delete preserves "every key is its record's id" |
| Dicts.Put | app/routers/items.py:40-49 | assignment maps the key to the value; an existing key (the update at line 49) keeps its position, a new key (the create at line 40) goes last |
| Dicts.Remove | app/routers/items.py:54-56 | deletion, allowed only on a present key as the handler's check guarantees, drops exactly that key from the contents and leaves the rest |
| Dicts.RemoveKeepsOrder | app/routers/items.py:56 | deletion removes the key's one position from the order and keeps the other keys in theirs |
| Dicts.PutThenRemove | app/routers/items.py:40-56 | inserting a new key and deleting it again gives back the same dictionary |
| Dicts.Values | app/routers/items.py:28 | the values come one per key, in insertion order, each stored value present and nothing else |
| Router.Status | app/routers/items.py:33-55 | success is 200, Not-Found is 404, Bad-Request is 400, each in both directions |
| Router.Dispatch | app/routers/items.py:26-57 | a failed request and a read leave the store alone, the key set changes only by a create's id or a delete's id, and the key/id invariant is kept |
| Router.RunKeepsKeysMatchIds | app/routers/items.py:21-57 | no sequence of requests breaks the key/id invariant |
| Router.KeyPersistsUntilDeleted | app/routers/items.py:21-57 | a stored id stays stored, and listed, through any run that never deletes it |
| ItemsTests.ListTest | tests/test_items.py:7-16 | listing is 200, has at least two records and contains ids 1 and 2 |
| ItemsTests.ReadTest | tests/test_items.py:18-28 | on a store where keys are ids, reading 1 is 200 and returns the stored hammer, whose id is 1 and name `Martillo`; reading 999 is 404 |
| ItemsTests.CreateTest | tests/test_items.py:30-46 | posting the wrench is 200 and returns it; posting it again is 400 |
| ItemsTests.UpdateTest | tests/test_items.py:48-82 | replacing record 2 is 200 and returns the body; an absent path id is 404; a mismatched body id is 400 |
| ItemsTests.PostThenDelete | tests/test_items.py:94-98 | posting a fresh record and deleting it is 200, 200 and restores the store |
| ItemsTests.AbsentReadThenDelete | tests/test_items.py:101-106 | reading and deleting absent ids are 404, 404 and change nothing |
| ItemsTests.DeleteTest | tests/test_items.py:84-106 | post 4, delete 4, read 4, delete 999 give 200, 200, 404, 404 and leave the store as it was |
| ItemsTests.SuiteFromSeed | tests/test_items.py:7-106 | the whole file run in order against one seeded process gets every expected status; the listing holds ids 1 and 2 and at least two records, the read returns record 1 named `Martillo`, the create returns the wrench and the update the Phillips body; the store ends with the wrench added and record 2 replaced |

## Left out

- FastAPI wiring is not modelled: `APIRouter`, the decorators, `response_model`, `async`, the test client and JSON encoding. Routing is the `Request` datatype and `Dispatch`, and a status code is the `Status` of a result.
- Pydantic validation of request bodies belongs to the framework. Every `Item` value of the model is a well-formed body.
- `price` is a Python `float` that is only stored and returned. It is modelled as a `real`, with no IEEE rounding.
- The Spanish message strings are left out: the error details and the delete confirmation's wording. A successful delete returns `Deleted(id)`, which records only that the message names the id.
- The root endpoint in `app/main.py:12-14` returns a constant greeting and has no logic.
- `edad`, which `tests/test_main.py` imports, is not defined in `app/main.py`. There is no behaviour to model.
- Concurrent requests on the shared dictionary are not modelled. `Run` handles requests one at a time.
- The source has no run function of its own. `Run` stands for successive requests against one process and its module-level dictionary.
