# Todo list demo: error classification and todo-list contract

A Dafny model of the core of a Leptos/SQLite full-stack todo demo:

- **Error classification** (`src/errors.rs`): `AppError` is a closed set of three kinds, `NotFound`, `InternalServerError` and `NotImplementedError`. Each kind has a fixed message and a fixed HTTP status code (404, 500 and 501, from sections 15.5.5, 15.6.1 and 15.6.2 of RFC 9110). The model is module `Errors`. It checks the status codes against a reference table of the RFC 9110 reason phrases, and each kind's message is the reason phrase of its code.
- **Todo table and server functions** (`src/app.rs`): the `todos` table is a class `TodoStore.Store` holding a sequence of `Todo(id, title, completed)` rows. `get_todos`, `add_todo` and `delete_todo` are methods on it. Each way the database can fail is an explicit parameter: opening the connection (`DbStep`), running the statement (`DbStep`), or reading the row stream (`FetchStep`). Every database error becomes `ServerFnError::ServerError(message)`, as the conversion behind `?` does.
- **Refetch key and cache** (`src/app.rs:115-125`): the read resource is keyed on the tuple `(delete version, add version, delete version)`. `TodoResource.TodosResource` remembers the last result and calls `get_todos` again only when the key changes.
- **Displayed list** (`src/app.rs:127-179`): `TodoDisplay.Render` builds the list in three parts. First comes the committed list: the "No tasks were found." paragraph when it is empty, otherwise one item per todo. Then comes one item for each submission that is still pending, in submission order. A failed read shows only the error.
- **The `Todos` component** (`src/app.rs:109-186`): `TodosComponent.TodosPage` ties the parts together. It holds the store, the resource, the add submissions and the two action version counters. Actions settle one at a time.
- **Diagnostic endpoints** (`src/app.rs:200-218`, `293-301`): constant functions that always fail.

## Model

| member | source | states |
|---|---|---|
| `Errors.Message` | src/errors.rs:6-11 | every kind has a non-empty message (with `StatusCodeOf`: the message is the RFC 9110 reason phrase of the kind's code) |
| `Errors.StatusCodeOf` | src/errors.rs:15-21 | total over all three kinds with no default arm; the code is one of 404, 500 and 501; only `NotFound` is a client error (4xx), the other two are server errors (5xx); the kind's message is the reason phrase of its code in the RFC 9110 table |
| `Errors.StatusCodeRoundTrip` | src/errors.rs:17-19 | reading a kind's code back with `FromStatusCode` gives that kind: NotFound maps to 404, InternalServerError to 500, NotImplementedError to 501 |
| `Errors.StatusCodeInjective` | src/errors.rs:17-19 | distinct kinds have distinct status codes |
| `Errors.MessageInjective` | src/errors.rs:6-11 | distinct kinds have distinct messages |
| `TodoStore.FetchResult` | src/app.rs:62-76 | a read returns every row once, in table order; a connection failure is returned as its error; a read succeeds iff the connection opens and no read of the row stream fails |
| `TodoStore.Store.GetTodos` | src/app.rs:49-77 | the push loop returns exactly `FetchResult` for the current table: every row, in order, with the table unchanged; the loop invariant is that the result is the prefix of rows read so far |
| `TodoStore.Inserted` | src/app.rs:87-94 | an insert keeps the old rows as a prefix and adds one row with the given id and title and `completed = false` |
| `TodoStore.Store.AddTodo` | src/app.rs:79-95 | on a connection or insert failure, returns that error and leaves the table unchanged; otherwise returns `Ok` and the table is the old one plus the new row; the ids stay unique |
| `TodoStore.Deleted` | src/app.rs:102-106 | after a delete, a row is present iff it was present and its id differs; the id is gone; the table does not grow |
| `TodoStore.DeletedAppend` | src/app.rs:102-106 | deleting keeps the remaining rows in their old order |
| `TodoStore.DeleteAbsent` | src/app.rs:102-106 | deleting an absent id leaves the table unchanged |
| `TodoStore.DeletePresent` | src/app.rs:102-106 | with unique ids, deleting a present id removes exactly one row |
| `TodoStore.DeletedKeepsUniqueIds` | src/app.rs:102-106 | deleting keeps the primary-key invariant |
| `TodoStore.InsertedKeepsUniqueIds` | src/app.rs:87-94 | inserting a row with a fresh id keeps ids unique and adds exactly that id |
| `TodoStore.Store.DeleteTodo` | src/app.rs:97-107 | on a connection or statement failure, returns that error and leaves the table unchanged; otherwise returns `Ok`, even for an absent id, and the table is `Deleted(old, id)`: unchanged when the id was absent, one row shorter when it was present |
| `TodoStore.AddThenDelete` | src/app.rs:87-106 | adding a row and then deleting its id restores the table |
| `TodoStore.AddAll` | src/app.rs:87-94 | after N successful adds, the table is the old table followed by one new uncompleted row per add, in call order |
| `TodoStore.AddAllKeepsUniqueIds` | src/app.rs:87-94 | a sequence of adds with distinct fresh ids leaves every id unique |
| `TodoDisplay.Items` | src/app.rs:135-150 | one list item per committed todo, in order, with its id and title |
| `TodoDisplay.ExistingTodos` | src/app.rs:131-151 | an empty committed list shows only the "No tasks were found." paragraph; otherwise one item per todo |
| `TodoDisplay.PendingEntries` | src/app.rs:166-179 | only pending submissions are shown, each as a pending item; nothing is shown iff no submission is pending |
| `TodoDisplay.PendingEntriesAppend` | src/app.rs:166-179 | pending items keep submission order: the items for a concatenation are the items for each part, concatenated |
| `TodoDisplay.PendingEntriesSingle` | src/app.rs:170-175 | one submission is shown, with its own input, exactly when its pending flag is set |
| `TodoDisplay.Render` | src/app.rs:162-183 | a failed read shows only its error; an empty list shows the message, then the pending items; a non-empty list shows one item per todo in order, then exactly the pending items |
| `TodoDisplay.ItemsCount` | src/app.rs:136-149 | the committed part has as many list items as there are todos |
| `TodoDisplay.AddedTodosAllShown` | end2end/tests/todo.spec.ts:75-95 | from an empty table, after N adds (N may be 0) with nothing pending, the list has N items, the k-th showing the k-th title |
| `TodoResource.KeyChangesIff` | src/app.rs:116-125 | for the key `Key` built at src/app.rs:117-123, the key changes iff the add version or the delete version changes; listing the delete version twice does not change when a read happens |
| `TodoResource.TodosResource.Read` | src/app.rs:115-125 | under an unchanged key, returns the remembered result without reading; under a new key, reads the store once (`FetchResult` of its rows) and remembers the result under that key |
| `TodosComponent.TodosPage.SubmitAdd` | src/app.rs:157-160 | submitting the add form (the multi-action and its `submissions` signal are created at src/app.rs:111-112) appends one pending submission with that title; no version changes |
| `TodosComponent.TodosPage.SettleAdd` | src/app.rs:111-125 | a settled add runs `add_todo` on the store, clears that submission's pending flag and advances the add version by one, whether it succeeded or failed |
| `TodosComponent.TodosPage.Delete` | src/app.rs:113-125 | a settled delete runs `delete_todo` on the store and advances the delete version by one, whether it succeeded or failed |
| `TodosComponent.TodosPage.Show` | src/app.rs:127-183 | the list shown is `Render` of the resource's value under the current versions. If no version changed, the memo and the fetch count are unchanged. Otherwise the memo holds a fresh read of the store (`FetchResult`) under the new key, and the fetch count goes up by one |
| `TodosComponent.BuyMilkScenario` | src/app.rs:109-186 | adding "Buy milk" to an empty list first shows the empty-list message and one pending "Buy milk"; after the add settles, it shows one committed "Buy milk" and nothing pending |
| `Diagnostics.CauseInternalServerError` | src/app.rs:200-208 | always fails with `ServerError("Generic Server Error")`, which carries no application error kind |
| `Diagnostics.CauseNotImplementedError` | src/app.rs:210-218 | always fails with `ServerError("Not Implemented Server Error")`, which carries no application error kind |
| `Diagnostics.NotImplementedEndpointLosesKind` | src/app.rs:210-218 | the endpoint named NotImplementedError does not report the NotImplementedError kind, whose code is 501 |
| `Diagnostics.CauseNotImplementedErrorIntended` | src/app.rs:210-218 | the intended endpoint fails with the NotImplementedError kind, status 501, message "Not Implemented" |
| `Diagnostics.ReturnsServerError` | src/app.rs:293-296 | always `Err(InternalServerError)`, status 500 |
| `Diagnostics.ReturnsNotImplementedError` | src/app.rs:298-301 | always `Err(NotImplementedError)`, status 501 |

Points where the code does something other than one might expect, and the model follows the code:

- `get_todos` runs `SELECT * FROM todos` with no `ORDER BY`. The model returns rows in table order, not "ordered by id".
- The resource key lists the delete version twice. The model keeps the triple and proves the duplicate harmless (`KeyChangesIff`).
- The pending overlay is filtered by each submission's `pending` flag. There is no reconciliation against the committed rows. A settled submission stops showing as soon as its flag clears.
- `cause_not_implemented_error` does not fail with `NotImplementedError` (see Findings).

## Left out

- `TodoStore.Store.AddTodo`: the new row's id is chosen by the table's schema, which is not part of this model. The method takes it as a parameter, `assignedId`, and requires it to be fresh, as an auto-assigned primary key is. How ids are picked (autoincrement, reuse) is not modelled.
- `TodoStore.Store.GetTodos`: ids are `u16` in the model. The database's integer ids could exceed 65535 and then fail to decode. That failure is not modelled.
- `TodosComponent.TodosPage.SettleAdd` and `TodosComponent.TodosPage.Delete`: the action version bookkeeping belongs to the Leptos runtime, which is not part of this model. Versions are plain counters that advance by one per settled call.
- `TodoDisplay.Render` and `TodosComponent.TodosPage.Show`: the loading states of `Transition` and `Suspend` (the "Loading..." fallback at src/app.rs:162) are not modelled. `Show` always finishes the read at once.
- Concurrency: simultaneous in-flight submissions and interleaved store calls are modelled sequentially, one settlement at a time.
- `ServerFnError`: the application only ever produces `ServerError`, directly at src/app.rs:93, 205 and 215 and through `?` at src/app.rs:44, 67 and 106. The model's `WrappedServerError` exists only for the corrected endpoint `Diagnostics.CauseNotImplementedErrorIntended`. In the source, a bare `ServerFnError` cannot carry an `AppError`: that would need the return type `ServerFnError<AppError>`. Request, serialisation and registration errors are not modelled.
- `ErrorTemplate` is not part of this model. How an error shown by the error boundary becomes an HTTP response status is not modelled.
- `src/main.rs` (logging, database connection, migrations, router, serving) is I/O setup. The policy of only logging a failed migration has nothing to verify.
- The server functions and `Returns*` components in `src/error.rs` duplicate those in `src/app.rs`. They are modelled once.
- The fake delays (`std::thread::sleep`) and the request-URI logging in `get_todos` have no effect on results.
- `shell`, `App`, `ExampleErrors` and all HTML markup are presentation.

## Findings

| source | as written | input that shows it | evidently intended | confidence | as-written member | corrected member |
|---|---|---|---|---|---|---|
| src/app.rs:210-218 | the server function registered as `NotImplementedError` fails with `ServerFnError::ServerError("Not Implemented Server Error")`, a generic error with no application kind | any call (it takes no arguments) | fail with `AppError::NotImplementedError`, which maps to status 501; this also needs the return type changed to `ServerFnError<AppError>` so the error can carry an `AppError` | low: the only evidence is the name `NotImplementedError` given to the server function; nothing in the source calls it; not executed | `Diagnostics.NotImplementedEndpointLosesKind` | `Diagnostics.CauseNotImplementedErrorIntended` |
