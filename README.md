# To-do API: the todo store and its request handlers

This project models the core of a small to-do service written in Go with Gin
and SQLite (`main.go`). It has two parts.

- **The store.** `DatabaseInterface` is implemented by `Database` over a SQLite
  table `todos(id INTEGER PRIMARY KEY AUTOINCREMENT, title, done)`. The table
  becomes a map from id to `(title, done)`, plus the AUTOINCREMENT counter: the
  id the next insert receives. That counter only grows, and the next create
  always takes its current value, so no sequence of later store calls, whatever
  their outcomes, stores a row under a deleted id again.
  - Module `TodoTable` (`table.dfy`) has one step function per store call other
    than `GetTodos`. Each step function gives the call's result and the table it
    leaves. The result of `GetTodos` is specified by the predicate `IsListing`
    instead: every row exactly once, in no particular order.
  - The class `TodoDatabase.Database` (`database.dfy`) holds the map and the
    counter as fields. Its methods change them step by step. `GetTodoByID`,
    `CreateTodo`, `UpdateTodo` and `DeleteTodo` are each proved to agree with
    their step function, and `GetTodos` is proved to return a listing in the
    sense of `IsListing`. The constructor yields the empty table.
  - `GetTodos` is a loop that walks every integer id from 1 to the counter
    minus 1 and appends the row stored under it, if any, one row at a time.
- **The handlers.** `SetupRouter` registers GET, POST, PUT and DELETE closures;
  module `TodoRouter` (`router.dfy`) models them.
  - Each handler gets an already-decoded request: the `:id` token as
    `Option<int>` (None where `strconv.Atoi` rejects it), and the JSON body as
    `Bound(todo)` or `Unbound(error text)`.
  - It also gets one `Backend` outcome, `Up` or `Down(error text)`, for each SQL
    statement it may run.
  - It answers with a status and a payload. For POST, PUT and DELETE a function
    also gives the table left behind, and a method that calls the `Database`
    object is proved equal to that function.
  - The property the handlers are built around is the order of checks: parse
    the id, then bind the body (PUT only), then look the row up, then answer
    404 or mutate. No 400, 404 or 500-on-lookup answer changes the table.

Where the code and its tests disagree, or where the code is silent, the model
follows the code:

- `UpdateTodo` on a missing id returns the todo with its id set, not nil. The
  test at `main_test.go:482-488` expects nil; `main.go:106-107` returns the value.
- No title check. The `Todo` struct has no binding constraints, so a body
  without a title binds with the empty title and is created. It is not a 400.
- No order for the listing. The SELECT has no ORDER BY, so `GetTodos` promises
  no order even though a test checks insertion order.
- A failing `LastInsertId` after a successful INSERT answers 500 while the row
  stays inserted.

## Model

| member | source | states |
|---|---|---|
| `TodoTable.LookupStep` | main.go:117-127 | A present id yields its row with the same id, title and done. An absent id yields "no todo" with no error. Only a failing query is an error, carrying the query's error text. |
| `TodoTable.CreateStep` | main.go:83-96 | If the INSERT runs, the new row gets the counter's id: positive, held by no existing row, stored with the todo's title and done. On success the returned todo carries that id. A failing INSERT or an exhausted counter changes nothing and is an error. A failing LastInsertId leaves the row inserted and still reports its error. Existing rows are unchanged, the counter never decreases, and consistency is kept. |
| `TodoTable.UpdateStep` | main.go:99-108 | Unless the UPDATE fails, the result is the given todo with its id replaced by `id`, whether or not the row exists. Only the row with key `id` gets the new title and done; every other row is untouched. A missing id fabricates no row; a failure changes nothing. |
| `TodoTable.DeleteStep` | main.go:111-114 | Unless the DELETE fails, the result is no error, even for a missing id, and afterwards the id is absent. Only that key is removed and the counter is untouched. A failure changes nothing and returns the error text. |
| `TodoTable.ListingLength` | main.go:62-80 | A listing of the table (distinct ids, each entry exactly a stored row, every row present) has as many entries as the table has rows. |
| `TodoTable.CreateAll` | main.go:45 | Any run of successful creates keeps the table consistent: every stored id is positive and below the counter. |
| `TodoTable.CreateAllCount` | main.go:83-96 | While ids last, N successful creates add exactly N rows and advance the counter by N. Rows that existed before keep their contents. |
| `TodoTable.RetiredIdStaysFree` | main.go:43-49 | An id below the counter that no row holds stays unheld, and below the counter, through one create with any statement outcomes; a successful create never returns it. |
| `TodoTable.Replay` | main.go:83-114 | Any sequence of creates, updates and deletes, with any statement outcomes, keeps the table consistent: every stored id is positive and below the counter. |
| `TodoTable.NoReuseAfterDelete` | main.go:43-49 | After a row is deleted, no later sequence of creates, updates and deletes, however long and whatever its statements' outcomes, stores a row under its id again. |
| `TodoDatabase.Database.constructor` | main.go:43-49 | A freshly created table is empty, its counter is at 1, and it is consistent. |
| `TodoDatabase.Database.GetTodos` | main.go:63-80 | A failing query is an error with its text. If the table is non-empty, a failing row scan is an error. Otherwise the result lists every row exactly once, with distinct ids, and has as many entries as the table has rows. |
| `TodoDatabase.Database.GetTodoByID` | main.go:117-128 | The result is exactly `LookupStep` on the object's table, and nothing changes. |
| `TodoDatabase.Database.CreateTodo` | main.go:83-96 | The result and the new rows and counter are those of `CreateStep` on the old table, and consistency is kept. |
| `TodoDatabase.Database.UpdateTodo` | main.go:99-108 | The result and the new rows are those of `UpdateStep` on the old table. |
| `TodoDatabase.Database.DeleteTodo` | main.go:111-114 | The returned error and the new rows are those of `DeleteStep` on the old table. |
| `TodoRouter.ServeGet` | main.go:134-141 | A backend failure answers 500 with its error text. Otherwise the answer is 200 with a list holding every stored row exactly once. |
| `TodoRouter.Post` | main.go:143-156 | An unbound body answers 400 with the binding error and leaves the table unchanged. The answer is 201 exactly when the insert and LastInsertId both succeed. A 201 carries the body's title and done under the counter's id, whatever id the body held. That id is now stored, it is the only row added, and the counter moves up by exactly one. For any bound body the table left is the one `CreateStep` leaves. Every other case with a bound body answers 500 with the failing statement's error text ("database or disk is full" when ids are exhausted) and leaves the table `CreateStep` leaves. The table changes only when the INSERT ran, existing rows are never altered, and the counter never decreases. |
| `TodoRouter.ServePost` | main.go:143-156 | Calling `Database.CreateTodo` gives the answer and table of `Post`. |
| `TodoRouter.Put` | main.go:158-188 | A bad id answers 400 "Invalid ID" whatever the body, so the id check comes first. A bad body then answers 400, and a failed lookup 500. The answer is 404 "Todo not found" exactly when the lookup finds no row. None of these changes the table. If the row exists but the UPDATE fails, the answer is 500 with the UPDATE's error text and the table is unchanged. The answer is 200 exactly when the row exists and the UPDATE succeeds. It carries the request body with its id replaced by the path id, which is now the stored row. No other row changes, and no non-200 answer changes the table. |
| `TodoRouter.ServePut` | main.go:158-188 | Calling `Database.GetTodoByID` and then, only for an existing row, `Database.UpdateTodo` gives the answer and table of `Put`. |
| `TodoRouter.Delete` | main.go:190-213 | A bad id answers 400 "Invalid ID", and a failed lookup 500. The answer is 404 exactly when the row does not exist, although `DeleteStep` would accept the missing id. None of these changes the table. If the row exists but the DELETE fails, the answer is 500 with the DELETE's error text and the table is unchanged. The answer is 200 "Todo deleted" exactly when the row exists and the DELETE succeeds; afterwards a lookup of the id finds nothing and only that key is gone. No non-200 answer changes the table. |
| `TodoRouter.ServeDelete` | main.go:190-213 | Calling `Database.GetTodoByID` and then, only for an existing row, `Database.DeleteTodo` gives the answer and table of `Delete`. |
| `TodoRouter.PostTestCases` | main_test.go:137-193 | TestPostTodo's cases on a fresh table: a bound "New Todo" answers 201 with that title, done false and a non-zero id. An unparsable body answers 400, and a failing INSERT 500. |
| `TodoRouter.PutTestCases` | main_test.go:195-310 | TestPutTodo's cases: on a table holding "Test Todo" under id 1, PUT /todos/1 answers 200 with Todo(1, "Updated Todo", true), now stored. A bad id or body answers 400, PUT /todos/999 on a fresh table 404, and a failing lookup or UPDATE 500. |
| `TodoRouter.DeleteTestCases` | main_test.go:312-396 | TestDeleteTodo's cases: on a table holding id 1, DELETE /todos/1 answers 200 "Todo deleted" and the row is gone. A bad id answers 400, DELETE /todos/999 on a fresh table 404, and a failing lookup or DELETE 500. |

## Left out

- Gin routing, `ShouldBindJSON` and `httptest` are not modelled. A request comes in already decoded, and a response goes out as a status and a payload value.
- JSON encoding is not modelled. In Go an empty listing is a nil slice, so GET on an empty table sends `null` rather than `[]`; the model does not tell the two apart.
- `strconv.Atoi`'s rules are not modelled. The id token arrives as `Option<int>`.
- The SQL text, the sqlite3 driver, `NewDatabase`, `Close` and `main` are input/output and resource handling. Only the table's meaning is modelled.
- `Database.constructor`: models opening a new, empty `todos.db`.
  - Opening an existing file with rows already in it is not modelled.
  - The error paths of `NewDatabase` are not modelled.
- Backend errors are opaque error texts passed in as `Backend` outcomes. Only GetTodoByID's `sql.ErrNoRows` case, "no such row", is given a meaning.
- `Database.GetTodos`: a scan failure is treated as the same for every row, so it fails the call exactly when the table has a row.
  - `rows.Err()` is never checked in the code. An iteration that stops early with an error would therefore return a short list and no error; the model has no such early stop.
  - The order of the listing is not promised.
- `Database.CreateTodo`: Go writes the new id into the caller's struct through a pointer.
  - The model returns the updated todo as the `Ok` value instead.
  - On an error the caller's struct keeps its old id, which the `Err` case matches.
- Ids are unbounded integers. The model bounds them only by SQLite's largest rowid, 2^63-1; past it the insert fails with "database or disk is full".
- Races between the lookup and the mutation under concurrent requests are not modelled. Each handler runs start to finish on one table state, because the code uses no transaction and the concurrency is outside this model.
- `MockDatabase` and `setupTestDB` are test doubles. The model's `Backend` parameters play the mocks' part: they let any single statement fail.
