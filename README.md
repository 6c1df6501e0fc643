# Error log store — a Dafny model

This project models the record store of an error-logging application. Client code captures
JavaScript errors as records. These records are kept in two places:

- **The server store.** An Express service keeps one array, `errors`, in a JSON document. It
  offers five routes over it: list with filter and sort, get by id, create, update and delete.
- **The browser's local store.** The client class `ErrorApi` keeps an array under one local
  storage key while it is in local ("demo") mode. It runs the same operations there with
  slightly different rules. In "server" mode it forwards every call over the network.

The table page also has helpers: it shortens long ids for display, sorts records on the
client, and flips a column's sort direction on every click.

Modules:

- `Records` (`records.dfy`): the record datatype and ASCII lower-casing. Also the raw value a
  comparator sees for a field name, the table's effective time, `findIndex` by id, and the
  store invariant (ids present and unique, messages non-empty).
- `Query` (`query.dfy`): the order on field values, and the case-insensitive filter by type.
  Also the stable sort: a reference function `SortBy`, and `SortInPlace`, the in-place
  insertion sort proved equal to it. Then `Apply`, the whole `GET /errors` query, and its
  lemmas: permutation, ordering, and ties kept in stored order.
- `Server` (`server.dfy`): class `ErrorStore`, whose field `errors` is the persisted array.
  It has one method per route, each returning the HTTP status and the body. The module also
  holds lemmas about the invariant and a lifecycle scenario.
- `Api` (`api.dfy`): class `ErrorApi`, with fields `mode` and `local` (the array in local
  storage). A call in "server" mode returns `Delegated`. In any other mode it returns
  `Local(...)` with the local result. The module also holds lemmas about the local delete,
  and lemmas and scenarios that relate the local store to the server store.
- `Table` (`table.dfy`): `FormatId`, `SortErrors` on an array, and class `SortOrder` for the
  per-column direction toggle.

Conventions:

- Each route or call reads its array first and writes it last. Persistence is therefore the
  field itself.
- Fresh ids and clock readings are parameters. Times are milliseconds since the epoch
  (`nat`).
- An absent query parameter (`filter`, `sort`, `order`) is the empty string. JavaScript
  treats both as false.
- The JavaScript field `type` is called `errorType`, because `type` is a Dafny keyword.
- Times are numbers in the model, but the source stamps them as ISO strings, and such a string
  is truthy whenever it is present. So the table's `a.timestamp || a.createdAt`
  (`frontend/src/js/table.js:99-100`) is modelled as: a present `timestamp`, else a present
  `createdAt`, else 0 (`Records.EffectiveTime`).
- A column with no entry in the table's `sortOrder` passes `undefined` as the direction. That
  sorts ascending both locally (the default `order = 'asc'`) and on the server; the model's
  `Table.SortOrder.HandleSort` returns "asc" for it.

The intended product behaviour differs from what the code does in a few places. There the
model follows the code:

- The intended product sorts `status` in a fixed workflow order, which the code does not
  implement. The code compares raw values (`backend/server.js:40-44`,
  `frontend/src/js/api.js:21`). The model compares raw values too.
- The intended product compares string sort fields case-insensitively, which the code does
  not implement. The code compares them as they are, and so does the model.
- The intended local mode validates messages, checks for id collisions, raises the same
  errors as the server and keeps `createdAt` on update. The local code does none of these
  (`frontend/src/js/api.js:36-41, 64-73`). `Api.LocalIdsCanCollide` shows two local creates
  storing the same id.
- The intended product gives a created record no `updatedAt`. The server stores the request body
  itself after setting `id` and `createdAt`, and never sets `updatedAt`
  (`backend/server.js:62-68`). So a draft that carries `updatedAt` keeps it.
  `Server.Lifecycle` states this as `created.updatedAt == draft.updatedAt`.
- The intended sort keeps ties in their order and makes descending the reverse of ascending. The
  code's comparator only negates the ascending answer and returns 0 on equal keys. A stable
  sort then keeps equal keys in stored order in both directions. Descending is therefore the
  reverse of ascending only when no two keys are equal.
- `formatId` shortens an id longer than 10 characters to 16 characters: 8
  characters, then `-...` (4 characters), then the last 4 (`frontend/src/js/table.js:83`).

## Model

| member | source | states |
|---|---|---|
| `Records.LowerAt` | backend/server.js:34 | lower-casing keeps the length and lower-cases each ASCII letter, position by position |
| `Records.Lower` | backend/server.js:34 | `toLowerCase` on ASCII letters; `Records.LowerAt` states its meaning |
| `Records.TypeText` | backend/server.js:34 | `String(e.type)`: the type, or "undefined" when it is missing; used by `Query.TypeMatches` |
| `Records.HasMessage` | backend/server.js:53 | `!x.message` is false: the message is present and not empty (also line 77); the 400 branches of `Server.ErrorStore.CreateError` and `UpdateError` are stated with it |
| `Records.FieldValue` | backend/server.js:41-42 | `a[req.query.sort]`: the value a comparator sees for a field name, missing when the record has no such field |
| `Records.EffectiveTime` | frontend/src/js/table.js:99-100 | a present `timestamp`, or else a present `createdAt`, or else 0 (times are truthy ISO strings in the source); `Table.UntimedFirst` uses it |
| `Records.FindIndex` | backend/server.js:86 | -1 exactly when no record carries the id; otherwise the index of the first record that does |
| `Query.StrLess` | backend/server.js:41-42 | JavaScript `<` on strings, character by character; a strict total order by the three `StrLess` lemmas |
| `Query.ValueLess` | backend/server.js:41-42 | `<` on field values: missing, then numbers, then strings; a strict total order by the three `ValueLess` lemmas |
| `Query.FieldKey` | backend/server.js:41-42 | the sort key `a[field]` of the server's and the local comparator |
| `Query.TimeKey` | frontend/src/js/table.js:98-101 | the table's time key, `EffectiveTime` as a number |
| `Query.Before` | backend/server.js:40-44 | the comparator answers -1 times the direction: `x` belongs ahead of `y`; `BeforeAsymmetric` and `NotBeforeTransitive` make it a consistent comparator |
| `Query.SortBy` | backend/server.js:39-45 | what `errors.sort(cmp)` returns; `SortByPerm`, `SortBySorted` and `SortByStable` prove it a permutation, ordered, with ties in input order, and `SortInPlace` the in-place sort equal to it |
| `Query.StrLessIrreflexive` | backend/server.js:41-42 | no string sorts before itself |
| `Query.StrLessTransitive` | backend/server.js:41-42 | string order is transitive |
| `Query.StrLessTotal` | backend/server.js:41-42 | any two distinct strings are ordered one way or the other |
| `Query.ValueLessIrreflexive` | backend/server.js:41-42 | no field value sorts before itself |
| `Query.ValueLessTransitive` | backend/server.js:41-42 | the order on field values is transitive |
| `Query.ValueLessTotal` | backend/server.js:41-42 | any two distinct field values are ordered one way or the other |
| `Query.BeforeAsymmetric` | backend/server.js:40-44 | if one record belongs ahead of another, the other does not belong ahead of it, and their keys differ |
| `Query.NotBeforeTransitive` | backend/server.js:40-44 | "not ahead of" is transitive, so the comparator orders consistently |
| `Query.InsertPerm` | backend/server.js:40 | one insertion step adds exactly the inserted record to the multiset |
| `Query.AppendSorted` | backend/server.js:40-44 | appending a record that no earlier record belongs after keeps a sequence sorted |
| `Query.InsertSorted` | backend/server.js:40-44 | inserting into a sorted sequence gives a sorted sequence |
| `Query.InsertStable` | backend/server.js:43 | for every key value, inserting puts the inserted record after the records with the same key |
| `Query.InsertShift` | backend/server.js:40-44 | when `x` belongs ahead of record j-1, inserting into the first j records and appending the rest equals inserting into the first j-1 and appending from j-1 |
| `Query.InsertStop` | backend/server.js:40-44 | cells holding the records before the gap, then `x`, then the shifted records, are exactly the insertion of `x` |
| `Query.ShiftPast` | backend/server.js:40-44 | every record that `x` belongs ahead of is moved one cell right; the gap is the insertion point, and cells past i are untouched |
| `Query.InsertAt` | backend/server.js:40-44 | one step of the in-place sort: the first i+1 cells become the sorted prefix with cell i inserted; the rest is unchanged |
| `Query.SortInPlace` | backend/server.js:40-44 | the array ends up as the stable sort of its old contents by the key, in the given direction |
| `Query.SortByPerm` | backend/server.js:40 | the sort returns a permutation (same multiset) of its input |
| `Query.SortBySorted` | backend/server.js:39-44 | the sorted records never have a later record that belongs ahead of an earlier one (non-decreasing, or non-increasing for desc) |
| `Query.SortByStable` | backend/server.js:43 | for every key value, the records with that key appear in the sorted output in the same order as in the input |
| `Query.DistinctKeysStrict` | frontend/src/js/table.js:103-107 | when keys are pairwise distinct, a sorted sequence is strictly increasing (strictly decreasing for desc) |
| `Query.TypeMatches` | backend/server.js:34 | the record's type, as text, equals the filter case-insensitively |
| `Query.FilterByType` | backend/server.js:33-35 | `errors.filter(...)` on the type; `FilterByTypeMembers` and `FilterByTypeConcat` prove it keeps exactly the matches in stored order |
| `Query.Filtered` | backend/server.js:33-35 | an empty filter keeps every record; otherwise `FilterByType` |
| `Query.Apply` | backend/server.js:28-47 | the whole `GET /errors` answer: filter, then sort when a field is given, descending exactly for "desc"; `Query.ApplyMeaning` states what it means |
| `Query.FilterByTypeMembers` | backend/server.js:33-35 | a record survives the filter exactly when it is in the input and its type matches case-insensitively |
| `Query.FilterByTypeCons` | backend/server.js:34 | filtering a record followed by more records keeps the head exactly when it matches, then filters the rest |
| `Query.FilterByTypeConcat` | backend/server.js:34 | filtering a concatenation gives the concatenation of the filtered parts, so stored order is kept |
| `Query.FilterByTypeSingle` | backend/server.js:34 | a single record is kept exactly when it matches |
| `Query.FilterIsCaseInsensitive` | backend/server.js:34 | a record typed "TypeError" matches the filter "typeerror" |
| `Query.ApplyMeaning` | backend/server.js:28-47 | without sort: the filtered records as stored; with sort: a permutation of them, ordered by the field (descending exactly for "desc"), ties in stored order |
| `Query.RunQuery` | backend/server.js:29-45 | filtering and then sorting a copy computes the query `Apply` |
| `Query.SortedCopy` | frontend/src/js/api.js:19-22 | sorting a fresh array of the records yields the stable sort |
| `Server.ErrorStore.constructor` | backend/server.js:15 | a new document holds no records, and so is valid |
| `Server.ErrorStore.Valid` | backend/server.js:53-68 | every stored record has an id and a non-empty message, and no two share an id; the constructor sets it up and every route keeps it |
| `Server.ErrorStore.ListErrors` | backend/server.js:28-48 | answers 200 with the query's result; it writes nothing |
| `Server.ErrorStore.GetError` | backend/server.js:101-113 | 404 with the body `{ error: 'Error not found' }` when no record has the id; otherwise 200 with the first record that has it |
| `Server.ErrorStore.CreateError` | backend/server.js:51-72 | missing or empty message: 400 with 'Invalid error data', store unchanged. Id already used: 400 with 'Error with this ID already exists', store unchanged. Otherwise 201 with the draft stamped with the fresh id and createdAt, appended last, earlier records unchanged. `Valid` is preserved |
| `Server.ErrorStore.UpdateError` | backend/server.js:75-98 | missing message: 400 with 'Invalid error data'; unknown id: 404 with 'Error not found'; both leave the store unchanged. Otherwise 200: only the matched index is replaced, by the draft with the stored id and createdAt restored and updatedAt stamped; `Valid` is preserved |
| `Server.ErrorStore.DeleteError` | backend/server.js:116-130 | unknown id: 404 with 'Error not found', unchanged; otherwise 204 with no body and exactly the first matching record is spliced out, the others kept in order; validity is preserved, and on a valid store no record carries the id afterwards |
| `Server.AppendKeepsInvariant` | backend/server.js:62-68 | appending a record with a message and an unused id keeps ids unique and messages present |
| `Server.ReplaceKeepsInvariant` | backend/server.js:91-94 | replacing a record by one with the same id and a message keeps the invariant |
| `Server.RemoveKeepsInvariant` | backend/server.js:127 | splicing out one record keeps the invariant |
| `Server.CreatedIsFound` | backend/server.js:107 | after appending a record with an unused id, lookup of that id finds it at the last index |
| `Server.DeletedIsGone` | backend/server.js:122-127 | with unique ids, after the splice no record carries the deleted id, so GET and a second DELETE answer 404 |
| `Server.Lifecycle` | backend/server.js:51-130 | create, get, update, delete, get, delete answer 201, 200, 200, 204, 404, 404. The created record has the fresh id and createdAt. The updated one keeps both, has updatedAt set and has the new message. The last delete answers 'Error not found' |
| `Api.RemoveAll` | frontend/src/js/api.js:50 | the local delete never makes the collection longer |
| `Api.RemoveAllMembers` | frontend/src/js/api.js:50 | a record is kept exactly when it is in the input and does not carry the id |
| `Api.RemoveAllCons` | frontend/src/js/api.js:50 | deleting from a record followed by more records keeps the head exactly when it does not carry the id |
| `Api.RemoveAllConcat` | frontend/src/js/api.js:50 | the local delete distributes over concatenation, so the remaining records keep their order |
| `Api.RemoveAllAbsent` | frontend/src/js/api.js:49-51 | deleting an id no record carries leaves the collection unchanged |
| `Api.RemoveAllIdempotent` | frontend/src/js/api.js:49-51 | deleting twice is deleting once |
| `Api.RemoveAllSingleHit` | frontend/src/js/api.js:50 | when exactly one record carries the id, the local delete removes just that one |
| `Api.SpliceIsRemoveAll` | frontend/src/js/api.js:49-51 | on unique ids, the server's splice of the first match and the local removal of every match agree |
| `Api.ErrorApi.constructor` | frontend/src/js/api.js:2-6 | the mode defaults to "server"; the local records are what storage already held |
| `Api.ErrorApi.GetErrors` | frontend/src/js/api.js:8-25 | server mode delegates; otherwise the answer is the same query as `GET /errors` over the local records, with no write |
| `Api.ErrorApi.CreateError` | frontend/src/js/api.js:27-43 | server mode delegates, unchanged. Otherwise the draft is stamped with the given id and createdAt and appended last, earlier records unchanged. There is no validation and no collision check |
| `Api.ErrorApi.DeleteError` | frontend/src/js/api.js:45-53 | server mode delegates; otherwise every record with the id is removed and the rest kept in order; it never fails |
| `Api.ErrorApi.UpdateError` | frontend/src/js/api.js:55-75 | server mode delegates. Unknown id: null and no write. Otherwise only that index is replaced, by the draft with the id forced and updatedAt stamped; createdAt comes from the draft |
| `Api.ErrorApi.SetMode` | frontend/src/js/api.js:77-79 | only the mode changes; the local records are untouched |
| `Api.SameAnswerInBothModes` | frontend/src/js/api.js:17-23 | over the same records, a local list answers exactly what the server's `GET /errors` answers |
| `Api.LocalIdsCanCollide` | frontend/src/js/api.js:36-41 | two local creates with the same clock reading store two records with one id, breaking uniqueness |
| `Api.SwitchKeepsLocal` | frontend/src/js/api.js:77-79 | switching to server mode and back neither copies nor drops local records |
| `Table.FormatId` | frontend/src/js/table.js:82-84 | ids of at most 10 characters are returned unchanged. Longer ones become their first 8 characters, then "-...", then their last 4: 16 characters |
| `Table.FormatIdIdempotent` | frontend/src/js/table.js:83 | a displayed id has at most 16 characters, and formatting it again changes nothing |
| `Table.FormatIdLongAlike` | frontend/src/js/table.js:83 | two long ids display alike exactly when they share their first 8 and last 4 characters |
| `Table.FormatIdCollides` | frontend/src/js/table.js:83 | two distinct ids, "abcdefgh_X_wxyz" and "abcdefgh_Y_wxyz", display alike |
| `Table.TableKey` | frontend/src/js/table.js:94-101 | the key `sortErrors` compares: `EffectiveTime` for "timestamp", the raw field otherwise |
| `Table.SortErrors` | frontend/src/js/table.js:92-109 | the array becomes a permutation of itself, ordered ascending for "asc" and descending for any other order. For "timestamp" the key is timestamp, else createdAt, else 0 |
| `Table.UntimedFirst` | frontend/src/js/table.js:98-101 | sorted by time ascending, records with neither timestamp nor createdAt come before every record with a positive time |
| `Table.Flip` | frontend/src/js/table.js:138 | the next direction is "desc" exactly after "asc", and "asc" otherwise |
| `Table.SortOrder.constructor` | frontend/src/js/table.js:119-123 | every column starts as "asc" |
| `Table.SortOrder.HandleSort` | frontend/src/js/table.js:126-139 | returns the direction the click sorts with: the column's current entry, or "asc" for a column with no entry. Only that column's entry changes: it is flipped, or set to "asc" when it was missing |
| `Table.ClickUnlisted` | frontend/src/js/table.js:126-139 | a click on a column with no entry, followed by the local sort it triggers, sorts the records ascending (a permutation of them) and leaves that column reading "asc" |
| `Table.ClickThrice` | frontend/src/js/table.js:119-139 | three clicks on one column sort asc, desc, asc. Afterwards that column reads "desc" and the other columns still read "asc" |

## Left out

- Express, CORS and JSON plumbing are left out: routing, body parsing, `app.listen` and Express's `res` object. Each route is a method returning a status and a `Server.Body`: no body, a stored record, or `{ error: text }` as a `Failure` carrying the text.
- lowdb and the `db.json` file are left out: `db.read`/`db.write` and the `{ errors: [] }` re-initialisation on POST (`backend/server.js:58-60`). Also left out are the 404 answers for a document with no `errors` array (`backend/server.js:82-84, 103-105, 118-120`). The model's document always has the array.
- The server's sort works in place on the in-memory copy of `db.data.errors` when no filter is given, and nothing writes it back. Every route re-reads the document first, so this cannot be observed and is not modelled.
- `localStorage` with `JSON.parse`/`JSON.stringify` is left out. The local array is the field `ErrorApi.local`. The browser shares one storage slot between all instances; the model gives each instance its own field, seeded by its constructor.
- `uuidv4`, `Date.now()` and `new Date().toISOString()` are parameters. ISO date strings and `Date` parsing are left out; times are integers.
- The server-mode branches of `ErrorApi` are `fetch` calls over the network; they are modelled only as `Delegated`.
- JavaScript's `<` and `>` (`backend/server.js:41-42`, `frontend/src/js/api.js:21`, `frontend/src/js/table.js:104`, `106`) convert a string to a number when it meets a number. On `undefined`, or on a number against a non-numeric string such as an ISO date, both answer false. A number against a numeric string is compared as two numbers. The model reproduces neither case. It uses one total order instead: missing values, then numbers, then strings, with strings compared character by character.
- Strings are sequences of characters, not UTF-16 code units. This affects the string order and `Table.FormatId`: JavaScript's `length` and `slice` (`frontend/src/js/table.js:83`) count code units, so an id containing a character outside the Basic Multilingual Plane would be cut at a different place. The ids the application produces are uuids or digit strings, which are plain ASCII.
- The source stamps the caller's draft object in place (`backend/server.js:62`, `66`, `91-93`; `frontend/src/js/api.js:37-38`, `67-68`). The model treats the draft as a value and returns the stamped copy. No caller reads the draft after the call, so nothing observable is lost.
- `toLowerCase` is modelled for ASCII letters only. `String(undefined)` is "undefined"; `null` and other non-string types are not modelled.
- `Table.SortErrors`: does not state where records with equal keys end up. The table's comparator never returns 0: on equal keys it answers -1 both ways, so it is not a consistent comparator. ECMAScript then leaves the whole resulting order implementation-defined, not only the order of ties. The contract promises the permutation and the ordering that an insertion sort yields; a different engine's sort might not order the records at all when keys repeat.
- `handleSort`'s fetching and rendering (`frontend/src/js/table.js:128-136`) is left out. It calls `getErrors` and `sortErrors`, which are modelled separately. Only the direction toggle is modelled.
- `main.js` (error capture hooks, `fetch` patching, the replay of stored errors), the modal, aside, statistics, translations and build configuration are user interface and I/O code, outside this model.
- Every route, every `ErrorApi` call and every click is taken as one atomic step. The source awaits between reading and writing (POST at `backend/server.js:57` and `69`, PUT at `81` and `96`, DELETE at `117` and `128`), so two overlapping POSTs can both read before either writes and one appended record is lost. `handleSort` awaits (`frontend/src/js/table.js:129`, `133`) before it flips the direction at line 138, so two quick clicks sort in the same direction. Overlapping runs are not modelled.
- Persistence failures (HTTP 500) are left out, because nothing in the modelled code produces them.
