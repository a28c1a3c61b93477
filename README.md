# GoRestaurant dashboard: plate-list reconciliation

This project models the state holder behind the GoRestaurant web dashboard
(`src/pages/Dashboard/index.tsx`). The page keeps a local, ordered copy of the
remote `/foods` collection, the record picked for editing, and two modal flags.
Each handler builds a request body from its inputs and the current state. When
the server answers, the handler reconciles the local list with that answer:

- load replaces the list wholesale;
- add appends the created record;
- update and toggle replace the first record whose id matches (`findIndex`);
- delete removes every record with the id (`filter`), and only on status 204.

The server is a parameter, not a call. Every handler takes the reply it is
given, `Reply<T> = Failed | Ok(data)`, and returns the `Request` it sent.
`Failed` stands for a rejected promise: a transport failure, or a non-2xx
status, which the HTTP client throws on. Delete's reply is a `StatusReply`:
`Rejected`, or `Responded(status)` with the response's HTTP status.

Layout:

- `foods.dfy`, module `Foods`: the record types (`Food`, `FoodInput`), request
  bodies, the lookup by id (`FirstIndex`, with the linear scan `FindIndex`
  proved against it), the removal by id (`WithoutId`), and lemmas about them.
- `dashboard.dfy`, module `DashboardPage`: class `Dashboard` with the four
  pieces of page state as fields, one method per handler, and two client
  scenarios.

Three points where the code's behaviour is easy to misread. The model follows
the code in each:

- The list renders with `key={food.id}` (`src/pages/Dashboard/index.tsx:125`),
  which treats ids as unique keys. Nothing at lines 48, 65 or 87 enforces
  that, and the model does not assume it. `UniqueIds` and the lemmas about it
  show what uniqueness would buy.
- `filter` (line 74) removes every record with the id, while `findIndex`
  (lines 63 and 80) finds only the first, so update and toggle touch only the
  first match. `DuplicateIdScenario` shows the difference.
- The empty selection (`{}` at line 24) is not guarded by update. The model
  sends `PUT /foods/undefined` with no `available` field. It then leaves the
  list unchanged, because `undefined` equals no numeric id.

## Model

| member | source | states |
|---|---|---|
| `Foods.AddBody` | src/pages/Dashboard/index.tsx:43-46 | the POST body carries exactly the form's fields, no id, and `available` forced to true |
| `Foods.UpdateBody` | src/pages/Dashboard/index.tsx:58-61 | the PUT body carries the form's fields, no id, and the selection's `available` (absent when nothing is selected), never a value from the form |
| `Foods.SelectedId` | src/pages/Dashboard/index.tsx:58 | the id in the update path is the selection's id, and undefined exactly when nothing is selected |
| `Foods.ToggleBody` | src/pages/Dashboard/index.tsx:81-85 | the toggle body is the whole record, id included, with `available` negated; restoring `available` gives back the record's own body |
| `Foods.FirstIndex` | src/pages/Dashboard/index.tsx:63 | the result is -1 exactly when no record has the id; otherwise it is in range, that record has the id, and no earlier record does |
| `Foods.FindIndex` | src/pages/Dashboard/index.tsx:80 | the linear scan returns exactly `FirstIndex` |
| `Foods.WithoutId` | src/pages/Dashboard/index.tsx:74 | the result is no longer than the input, and holds a record exactly when the input does and its id differs |
| `Foods.WithoutIdIsSubsequence` | src/pages/Dashboard/index.tsx:74 | removal keeps the surviving records in their original order |
| `Foods.WithoutIdLength` | src/pages/Dashboard/index.tsx:74 | removal shortens the list by exactly the number of records carrying the id |
| `Foods.CountIdPositive` | src/pages/Dashboard/index.tsx:74 | that number is positive exactly when some record carries the id |
| `Foods.WithoutIdAbsent` | src/pages/Dashboard/index.tsx:74 | removal of an id no record carries leaves the list exactly as it was |
| `Foods.WithoutIdConcat` | src/pages/Dashboard/index.tsx:74 | removal from a concatenation is the concatenation of the removals |
| `Foods.WithoutIdSplit` | src/pages/Dashboard/index.tsx:74 | removal around a matching position is removal from the part before it joined to removal from the part after it |
| `Foods.WithoutIdIdempotent` | src/pages/Dashboard/index.tsx:71-76 | a second delete of the same id after a 204 changes nothing |
| `Foods.ReplaceThenRemove` | src/pages/Dashboard/index.tsx:63-76 | replacing the first match by a record with the same id, then removing the id, gives the same list as removing it directly |
| `Foods.RemoveUniqueIsSplice` | src/pages/Dashboard/index.tsx:63-74 | with unique ids, `filter` drops exactly the record `findIndex` finds and keeps the rest in order |
| `Foods.WithoutIdKeepsUnique` | src/pages/Dashboard/index.tsx:74 | removal keeps ids unique |
| `Foods.AppendKeepsUnique` | src/pages/Dashboard/index.tsx:48 | appending a record with a new id keeps ids unique |
| `Foods.ReplaceKeepsUnique` | src/pages/Dashboard/index.tsx:65 | replacing the found record by one with the same id keeps ids unique |
| `DashboardPage.Dashboard.constructor` | src/pages/Dashboard/index.tsx:23-26 | the page starts with an empty list, an empty selection and both modals closed |
| `DashboardPage.Dashboard.LoadFoods` | src/pages/Dashboard/index.tsx:29-33 | sends GET; on an answer the list equals the server's list, same length and order; on failure it is unchanged; nothing else changes |
| `DashboardPage.Dashboard.HandleAddFood` | src/pages/Dashboard/index.tsx:39-53 | sends `AddBody` of the form; on an answer the list grows by one, every earlier position unchanged and the reply last; on failure the list is unchanged |
| `DashboardPage.Dashboard.HandleUpdateFood` | src/pages/Dashboard/index.tsx:55-69 | sends the PUT keyed by the selection; on an answer only the first record with the selected id is replaced, length and all other positions unchanged; with no match, no selection or a failure the list is exactly as before |
| `DashboardPage.Dashboard.HandleDeleteFood` | src/pages/Dashboard/index.tsx:71-77 | sends DELETE; a 204 answer leaves `WithoutId` of the old list; any other status or a failure leaves it unchanged |
| `DashboardPage.Dashboard.HandleToggleAvailable` | src/pages/Dashboard/index.tsx:79-90 | requires the id to be on the list; sends `ToggleBody` of the first match; on an answer only that position is replaced; length always preserved |
| `DashboardPage.Dashboard.ToggleModal` | src/pages/Dashboard/index.tsx:92-94 | negates the add-modal flag and changes nothing else |
| `DashboardPage.Dashboard.ToggleEditModal` | src/pages/Dashboard/index.tsx:96-98 | negates the edit-modal flag and changes nothing else |
| `DashboardPage.Dashboard.HandleEditFood` | src/pages/Dashboard/index.tsx:100-104 | sets the selection to the given record and flips only the edit-modal flag |
| `DashboardPage.ModalTogglesUndo` | src/pages/Dashboard/index.tsx:92-98 | toggling either modal twice restores both flags |

## Left out

- Rendering (`Header`, `Food`, the modal components, styles): presentation only.
- The HTTP client and the network: replies are method parameters, and the request a handler sends is its result.
- React's `useState`/`useEffect` machinery and the once-on-mount call of the load: framework scheduling. `LoadFoods` is the step that runs when the load's reply arrives.
- Concurrent in-flight requests and stale closures over `foods`: each handler is modelled as one atomic step. The toggle handler's index is computed before its request; in the model no other step can come in between.
- Aliasing: update and toggle write into the array the previous render holds (`foods[index] = …`) before copying it. The model reassigns a `seq` field, so that shared mutation is not captured.
- `console.log` of a failed add: an output side effect. The model keeps only "state unchanged on failure".
- Failures of load, update, delete and toggle propagate as unhandled rejections. The model keeps only the fact that the list is unchanged.
- DashboardPage.Dashboard.HandleToggleAvailable: requires the id to be on the list. With no match the source destructures `undefined` and throws before sending anything; that path is not modelled.
- What the server does with a request, e.g. that a toggle's answer really has `available` flipped, is outside the page. The model states only what the page sends and how it uses whatever comes back.
- `name`, `image`, `description` and `price` are opaque strings. `id` is an unbounded integer, where JavaScript has a double.
