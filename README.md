# Workouts API handler, modelled in Dafny

This project models the request handler of a small serverless "fitness" API. The handler
takes an HTTP-API event and matches it against four fixed routes:

- `GET /health`
- `POST /workouts`, which creates a workout
- `GET /workouts?userId=…`, which lists a user's workouts, newest first
- `DELETE /workouts/{id}?userId=…`, which deletes one workout

Anything else gets a 404. The routes read and write a key-value table keyed by
`(userId, workoutId)`. Every response carries the same two headers. An exception raised
anywhere becomes a 500.

Modules, one per part of `lambda_function.py`:

- `PyStr` (`pystr.dfy`): the Python `str` built-ins the handler uses. These are
  `startswith`, `strip()`, `split(sep)`, `join`, `in` on `str` and the code-point
  ordering `<`.
- `Workouts` (`workouts.dfy`): the data model. It holds the event envelope with every field
  it reads made explicit, the parsed JSON value, the workout record and its key, the
  structured response, and the `Runtime` value. `Runtime` carries the library calls the
  handler makes: `json.loads`, `str`, `int` and `Decimal(str(...))`.
- `Normalize` (`normalize.dfy`): `get_method_and_path`, including the stage-prefix strip.
- `Routing` (`routing.dfy`): the pure decisions. These are `response`, the route table, the
  extraction of `userId` and of the delete id, the missing-field list, and building the
  created item.
- `Store` (`store.dfy`): the table, as a class whose field is a `map<Key, Workout>`. Its
  methods are put, query-by-`userId` and delete.
- `Ordering` (`ordering.dfy`): `items.sort(key=createdAt, reverse=True)` as a stable
  in-place insertion sort on an array. It is proved equal to a reference function, and
  that function is proved sorted, a permutation and stable.
- `Handler` (`handler.dfy`): `lambda_handler`, which changes the table. The `try/except`
  becomes a `Result`, and the outermost method turns an `Err` into the 500 response.

The uuid and the clock are parameters (`workoutId`, `now`), so the model is deterministic.
The library conversions are fields of `Runtime`. Each one may fail except `str`, and a
failure carries the library's own message.

The model follows the code in three places where the code is easy to misread:

- An empty `rawPath` also falls back to `path`, not only an absent one.
- An empty stage string does not strip anything.
- A JSON body that is not an object is not rejected up front. Python's `in` runs first:
  - an array yields a 400 listing the keys it lacks as elements;
  - a string yields a 400 listing the keys that are not substrings of it;
  - a number, boolean or null raises, which gives a 500.

  If the key check passes, the later `body["userId"]` raises on an array or a string,
  which also gives a 500.

## Model

| member | source | states |
|---|---|---|
| `PyStr.StartsWith` | lambda_function.py:106 | `startswith`: the string is the prefix followed by the rest of the string |
| `PyStr.Strip` | lambda_function.py:107 | `strip()`: the input is whitespace, then the result, then whitespace, and the result starts and ends with non-whitespace |
| `PyStr.StripIdempotent` | lambda_function.py:107 | stripping an already stripped id changes nothing |
| `PyStr.Before` | lambda_function.py:107 | the text before the first occurrence of the separator is a prefix that contains no occurrence; the separator starts right after it, unless it is the whole string and the separator never occurs |
| `PyStr.Split` | lambda_function.py:107 | `split(sep)` yields at least one piece, and no piece contains `sep` |
| `PyStr.JoinSplit` | lambda_function.py:107 | `split` is undone by `join` with the same separator |
| `PyStr.SplitSecondPiece` | lambda_function.py:106-107 | on a path starting with `/workouts/`, piece 1 of the split is the text after that prefix, up to the next `/workouts/` or the end |
| `PyStr.LessIsLexicographic` | lambda_function.py:100 | `Less`, Python's `<` on `str`, holds exactly when, after a common prefix, the left string ends first or has the smaller next code point |
| `PyStr.LessTransitive` | lambda_function.py:100 | Python's string order, which the sort compares with, is transitive |
| `PyStr.LessTotal` | lambda_function.py:100 | any two different strings are ordered one way or the other |
| `PyStr.NotLessTransitive` | lambda_function.py:100 | "not later than" is transitive, which a descending sort needs |
| `Normalize.StripStage` | lambda_function.py:41-47 | a non-empty stage and a path starting with `/<stage>/` leave a remainder that starts with `/` and, prefixed by `/<stage>`, gives back the path; `/<stage>` becomes `/`; any other path, or an empty stage, leaves the path unchanged |
| `Normalize.RawPath` | lambda_function.py:38 | the path is `rawPath` when present and non-empty, else `path`, else "" |
| `Normalize.MethodAndPath` | lambda_function.py:31-49 | the method defaults to ""; the path is the raw path stage-stripped by the declared stage, or untouched when there is none |
| `Normalize.StripStageInverse` | lambda_function.py:43-45 | prefixing any `/`-path with `/<stage>` and normalising gives that path back |
| `Normalize.StagePrefixedHealth` | lambda_function.py:40-47 | `/<stage>/health` is routed as `/health` and a bare `/<stage>` as `/` |
| `Routing.MakeResponse` | lambda_function.py:20-28 | every response has exactly the headers `Content-Type: application/json` and `Access-Control-Allow-Origin: *` and keeps the given status and body |
| `Routing.RouteOf` | lambda_function.py:59-117 | the route table as if-and-only-ifs: four literal, case-sensitive matches, only DELETE by prefix, with the delete id extracted; the fallback holds exactly when none of the four matches |
| `Routing.DeleteId` | lambda_function.py:107 | the delete id is the stripped text between the first `/workouts/` and the next one, or the end |
| `Routing.UserIdParam` | lambda_function.py:93-96 | a user id is found exactly when the query map has a non-empty `userId`, and it is that value |
| `Routing.DecodeBody` | lambda_function.py:66 | an absent or empty body is the empty object; any other body is whatever `json.loads` returns, failure included |
| `Routing.InOperator` | lambda_function.py:69 | `Has` and `IsContainer`, Python's `key in body`: it raises on a number, boolean or null. On an object it asks for a key, on an array for an element equal to the key, and on a string for a substring |
| `PyStr.ContainsIsSubstring` | lambda_function.py:69 | `in` on `str` holds exactly when the string is some text, the key, then some text |
| `Routing.Missing` | lambda_function.py:68-69 | the missing list holds exactly the required keys the body lacks, in the required order; `in` on a non-container raises |
| `Routing.MissingFromObject` | lambda_function.py:68-69 | for an object body, the missing list is its absent keys, in order |
| `Routing.EmptyBodyMissesAll` | lambda_function.py:66-69 | an empty body misses all four keys, `userId, exercise, reps, weight` |
| `Routing.Quoted` | lambda_function.py:71 | each key of the list display is the key in single quotes, one per key, in order |
| `Routing.MissingMessage` | lambda_function.py:71 | `f"Missing fields: {missing}"` starts with `Missing fields: [` and ends with `]` |
| `Routing.MissingMessageNamesEach` | lambda_function.py:69-71 | the 400 text names every missing key in quotes |
| `PyStr.JoinContains` | lambda_function.py:71 | every piece of a `join` occurs in the joined text |
| `Routing.MissingMessageOfAll` | lambda_function.py:71 | the 400 text for an empty body is `Missing fields: ['userId', 'exercise', 'reps', 'weight']` |
| `Routing.BuildItem` | lambda_function.py:76-84 | the item succeeds exactly when both `int(reps)` and `Decimal(weight)` do, and the first failure is raised. It is keyed by `(str(userId), workoutId)` and carries the converted fields, `notes` defaulting to "", and `createdAt == now` |
| `Routing.PlanCreate` | lambda_function.py:65-84 | decode failures and non-containers raise. A reject carries the non-empty, ordered missing list, and any container body lacking a required key is rejected. An object body holding every required key gives an insert of exactly the built item when both conversions succeed, and otherwise raises the conversion's fault. An array or string body holding every required key raises `NotSubscriptable` at `body["userId"]`. For an object body, it rejects exactly when a required key is absent |
| `Ordering.Insert` | lambda_function.py:100 | one step of the reference sort, one workout longer than its input; its meaning is stated by the three lemmas below |
| `Ordering.SortDesc` | lambda_function.py:100 | the reference definition of the stable newest-first sort, as long as its input; its meaning is stated by `Ordering.SortDescCorrect` |
| `Ordering.InsertPermutes` | lambda_function.py:100 | one insertion step adds exactly the inserted workout |
| `Ordering.InsertSorted` | lambda_function.py:100 | one insertion step keeps the list sorted newest first |
| `Ordering.InsertStable` | lambda_function.py:100 | one insertion step keeps, for each timestamp, the earlier workouts first and the inserted one last |
| `Ordering.SortDescCorrect` | lambda_function.py:100 | the reference sort is sorted by `createdAt` descending, a permutation, and stable |
| `Ordering.InsertSkips` | lambda_function.py:100 | when every workout from position `j` on is stamped earlier than `x` and the one before is not, the insertion puts `x` at `j` |
| `Ordering.InsertAt` | lambda_function.py:100 | the in-place step equals the reference insertion and leaves the rest of the array alone |
| `Ordering.SortByCreatedAtDesc` | lambda_function.py:100 | the in-place sort yields the reference sort of the old contents: sorted, permuted, stable |
| `Store.Partition` | lambda_function.py:98 | the partition of a user holds exactly the entries with that `userId`, unchanged |
| `Store.Table.constructor` | lambda_function.py:11 | the table starts empty, every record under its own key |
| `Store.Table.PutItem` | lambda_function.py:86 | `put_item` stores the item under its key, replaces what was there and keeps the rest |
| `Store.Table.Query` | lambda_function.py:98-99 | the query returns every record of the partition exactly once |
| `Store.Table.DeleteItem` | lambda_function.py:113 | `delete_item` removes that one key, whether or not it was present, and nothing else |
| `Store.ListsPartition` | lambda_function.py:98-101 | a list holding the partition's records once each holds exactly the user's stored records, and as many as the partition has keys |
| `Store.ValuesCount` | lambda_function.py:98-101 | when each record sits under its own key, there are as many records as keys |
| `Handler.CreateWorkoutRoute` | lambda_function.py:65-87 | a fault or a 400 leaves the table unchanged; a 201 echoes the item and adds exactly that item under its key |
| `Handler.ListWorkoutsRoute` | lambda_function.py:92-101 | no `userId` gives a 400 `Provide ?userId=...`; otherwise a 200 whose items are the user's records, each once, newest first, with `count` equal to their number |
| `Handler.DeleteWorkoutRoute` | lambda_function.py:106-114 | no `userId` gives a 400 and an unchanged table; otherwise the key `(userId, id)` is gone, all else is kept, and the response is 200 echoing the id |
| `Handler.LambdaHandler` | lambda_function.py:52-120 | every response has both fixed headers and one of the statuses 200, 201, 400, 404 or 500. Every 400, 404 and 500 leaves the table unchanged, and a 500 carries the raised fault. Health and 404 come with their bodies, the 404 echoing the normalised path and method. The create, list and delete contracts hold per route. A create under a new key grows the table by one |
| `Handler.SquatPlan` | lambda_function.py:65-84 | the example POST body routes to create and plans the expected item |
| `Handler.ListsSingle` | lambda_function.py:98-101 | a table with one record lists exactly that record for its user |
| `Handler.CreateThenList` | lambda_function.py:52-120 | the example: creating `squat`, 5 reps, 100.5 for `u1` on an empty table gives 201, and listing `u1` then returns count 1 with exactly that item |

## Left out

- The table client construction and the `TABLE_NAME` environment lookup (lines 7-11) are left out. The table is the `Store.Table` object passed to the handler.
- Store failures are left out. These are connectivity, throttling and permission errors, and the store's own rejection of an empty key string (for example `DELETE /workouts/` with a `userId`). The modelled store never fails, so those 500s are not modelled.
- `Store.Table.Query` returns the whole partition. The store's one-page result limit, which the handler never pages past, is not modelled.
- `Store.Table.Query` does not fix the order of its results. The store returns them by sort key, but the listing contract only states the order after sorting.
- Ordering sorts on `createdAt` directly, because every stored record has one. The `""` default for records without `createdAt` never applies to records this handler writes.
- JSON text parsing and serialisation are left out. `json.loads` is the opaque `Runtime.decode`, and the response body stays structured rather than `json.dumps` text.
- `str`, `int`, `Decimal(str(...))` are opaque `Runtime` fields. Their exactness, for example `12.1` staying `12.1`, is the library's promise and is not proved here. The text of library exception messages, and of the `TypeError`s raised for non-object bodies, is not modelled: a fault records its kind and the offending value.
- `uuid.uuid4()` and `datetime.now(...).isoformat()` are the parameters `workoutId` and `now`. That generated ids are distinct is the library's promise and is not proved.
- Event fields of the wrong JSON type, such as a non-string `rawPath` or a `null` `requestContext`, are left out. The event datatype types every field.
