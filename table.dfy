/**
 * The `todos` table behind `DatabaseInterface`, as a value.
 *
 * The SQLite table `todos(id INTEGER PRIMARY KEY AUTOINCREMENT, title, done)`
 * becomes a map from id to the row's other two columns, together with the
 * AUTOINCREMENT counter: the id the next insert will receive. Every store call
 * of `DatabaseInterface` other than `GetTodos` has a step function here that
 * says what the call returns and which table it leaves; the result of
 * `GetTodos` is specified by the predicate `IsListing`. Each SQL statement's
 * success or failure is a `Backend` parameter, since the handlers branch on it.
 */
module TodoTable {
  import opened Wrappers

  /** A to-do item as the handlers and the store exchange it. */
  datatype Todo = Todo(id: int, title: string, done: bool)

  /** The columns of a stored row other than its primary key. */
  datatype Row = Row(title: string, done: bool)

  /** The table: rows by primary key, and the id the next insert is given. */
  datatype Table = Table(rows: map<int, Row>, nextId: int)

  /** Whether one SQL statement succeeds or fails with the given error text. */
  datatype Backend = Up | Down(message: string)

  /** A Go `(value, error)` pair: a value, or the error's text. */
  datatype Outcome<T> = Ok(value: T) | Err(message: string)

  /** What a store call returns, and the table it leaves behind. */
  datatype Step<T> = Step(out: T, table: Table)

  /** The largest rowid SQLite hands out (a signed 64-bit integer). */
  const MaxRowId: int := 0x7fff_ffff_ffff_ffff

  /** SQLite's error text when AUTOINCREMENT has no id left to give. */
  const FullMessage: string := "database or disk is full"

  /** The freshly created, empty table. */
  const Empty: Table := Table(map[], 1)

  /** AUTOINCREMENT's guarantee: every stored id is positive and below the counter. */
  predicate Consistent(t: Table)
  {
    && 1 <= t.nextId <= MaxRowId + 1
    && forall id :: id in t.rows ==> 1 <= id < t.nextId
  }

  function RowOf(x: Todo): Row
  {
    Row(x.title, x.done)
  }

  /** The row with key `id`, read back as a Todo, if there is one. */
  function Find(t: Table, id: int): (r: Option<Todo>)
    ensures r.Some? <==> id in t.rows
    ensures r.Some? ==> r.value.id == id && RowOf(r.value) == t.rows[id]
  {
    if id in t.rows then Some(Todo(id, t.rows[id].title, t.rows[id].done)) else None
  }

  /** The same table, except possibly at key `id`. */
  ghost predicate SameElsewhere(t: Table, t': Table, id: int)
  {
    forall k :: k != id ==> Find(t', k) == Find(t, k)
  }

  /**
   * GetTodoByID: a present id yields its row, an absent id yields "no todo" and
   * no error; only a failing query is an error. The table is not changed.
   */
  function LookupStep(t: Table, id: int, query: Backend): (r: Outcome<Option<Todo>>)
    ensures r.Err? <==> query.Down?
    ensures r.Err? ==> r.message == query.message
    ensures r.Ok? ==> (r.value.Some? <==> id in t.rows)
    ensures r.Ok? && r.value.Some? ==> r.value.value.id == id && RowOf(r.value.value) == t.rows[id]
  {
    if query.Down? then Err(query.message) else Ok(Find(t, id))
  }

  /** Whether CreateTodo's INSERT statement adds a row. */
  predicate InsertRuns(t: Table, exec: Backend)
  {
    exec.Up? && t.nextId <= MaxRowId
  }

  /**
   * CreateTodo: the INSERT stores the title and done of `todo` (its id is
   * ignored) under a fresh, positive id; LastInsertId then reads that id back
   * and the caller's todo receives it. A failing INSERT, or an exhausted
   * counter, changes nothing; a failing LastInsertId leaves the row inserted
   * but still reports the error.
   */
  function CreateStep(t: Table, todo: Todo, exec: Backend, lastInsertId: Backend): (r: Step<Outcome<Todo>>)
    requires Consistent(t)
    ensures Consistent(r.table) && t.nextId <= r.table.nextId
    ensures r.out.Ok? <==> InsertRuns(t, exec) && lastInsertId.Up?
    ensures exec.Down? ==> r.out == Err(exec.message)
    ensures exec.Up? && !InsertRuns(t, exec) ==> r.out == Err(FullMessage)
    ensures InsertRuns(t, exec) && lastInsertId.Down? ==> r.out == Err(lastInsertId.message)
    ensures !InsertRuns(t, exec) ==> r.table == t
    ensures InsertRuns(t, exec) ==>
      && t.nextId !in t.rows
      && r.table.rows.Keys == t.rows.Keys + {t.nextId}
      && |r.table.rows| == |t.rows| + 1
      && r.table.nextId == t.nextId + 1
      && Find(r.table, t.nextId) == Some(todo.(id := t.nextId))
    ensures r.out.Ok? ==>
      && r.out.value.id == t.nextId
      && r.out.value.id >= 1
      && r.out.value.id !in t.rows
      && RowOf(r.out.value) == RowOf(todo)
      && Find(r.table, r.out.value.id) == Some(r.out.value)
    ensures forall id :: id in t.rows ==> Find(r.table, id) == Find(t, id)
  {
    if exec.Down? then Step(Err(exec.message), t)
    else if t.nextId > MaxRowId then Step(Err(FullMessage), t)
    else
      var id := t.nextId;
      var t' := Table(t.rows[id := RowOf(todo)], id + 1);
      if lastInsertId.Down? then Step(Err(lastInsertId.message), t')
      else Step(Ok(todo.(id := id)), t')
  }

  /**
   * UpdateTodo: the UPDATE overwrites title and done of the row with key `id`
   * and of no other row; for a missing id it changes nothing and fabricates no
   * row. Unless the statement fails, the call returns `todo` with its id set to
   * `id`, whether or not such a row exists.
   */
  function UpdateStep(t: Table, id: int, todo: Todo, exec: Backend): (r: Step<Outcome<Todo>>)
    ensures Consistent(t) ==> Consistent(r.table)
    ensures r.table.nextId == t.nextId
    ensures exec.Down? ==> r == Step(Err(exec.message), t)
    ensures exec.Up? ==> r.out == Ok(todo.(id := id))
    ensures exec.Up? && id in t.rows ==> Find(r.table, id) == Some(todo.(id := id))
    ensures id !in t.rows ==> r.table == t
    ensures r.table.rows.Keys == t.rows.Keys
    ensures SameElsewhere(t, r.table, id)
  {
    if exec.Down? then Step(Err(exec.message), t)
    else
      var t' := if id in t.rows then t.(rows := t.rows[id := RowOf(todo)]) else t;
      Step(Ok(todo.(id := id)), t')
  }

  /**
   * DeleteTodo: the DELETE removes the row with key `id`, if any, and no other;
   * deleting a missing id is not an error. The result is the Go error: None
   * for nil. The counter is untouched, so a deleted id is never handed out again.
   */
  function DeleteStep(t: Table, id: int, exec: Backend): (r: Step<Option<string>>)
    ensures Consistent(t) ==> Consistent(r.table)
    ensures r.table.nextId == t.nextId
    ensures exec.Down? ==> r == Step(Some(exec.message), t)
    ensures exec.Up? ==> r.out == None && Find(r.table, id) == None
    ensures exec.Up? && id !in t.rows ==> r == Step(None, t)
    ensures exec.Up? ==> r.table.rows.Keys == t.rows.Keys - {id}
    ensures SameElsewhere(t, r.table, id)
  {
    if exec.Down? then Step(Some(exec.message), t)
    else Step(None, t.(rows := t.rows - {id}))
  }

  /** No two todos of the list share an id. */
  predicate DistinctIds(todos: seq<Todo>)
  {
    forall i, j :: 0 <= i < j < |todos| ==> todos[i].id != todos[j].id
  }

  /**
   * `todos` lists the table: every row exactly once, read back as a Todo, in
   * no particular order (the SELECT has no ORDER BY).
   */
  ghost predicate IsListing(t: Table, todos: seq<Todo>)
  {
    && DistinctIds(todos)
    && forall x :: x in todos <==> Find(t, x.id) == Some(x)
  }

  function IdSet(todos: seq<Todo>): set<int>
  {
    set i | 0 <= i < |todos| :: todos[i].id
  }

  lemma {:induction false} DistinctIdCount(todos: seq<Todo>)
    requires DistinctIds(todos)
    ensures |IdSet(todos)| == |todos|
  {
    if todos != [] {
      var n := |todos| - 1;
      var rest := todos[..n];
      assert DistinctIds(rest);
      DistinctIdCount(rest);
      assert IdSet(todos) == IdSet(rest) + {todos[n].id} by {
        forall y | y in IdSet(todos) ensures y in IdSet(rest) + {todos[n].id} {
          var i :| 0 <= i < |todos| && todos[i].id == y;
          if i < n { assert rest[i] == todos[i]; }
        }
      }
      assert todos[n].id !in IdSet(rest);
    }
  }

  /** A listing of a table has exactly as many entries as the table has rows. */
  lemma ListingLength(t: Table, todos: seq<Todo>)
    requires IsListing(t, todos)
    ensures |todos| == |t.rows|
  {
    DistinctIdCount(todos);
    assert IdSet(todos) == t.rows.Keys by {
      forall id | id in IdSet(todos) ensures id in t.rows {
        var i :| 0 <= i < |todos| && todos[i].id == id;
        assert todos[i] in todos;
      }
      forall id | id in t.rows ensures id in IdSet(todos) {
        var x := Find(t, id).value;
        assert x in todos;
        var i :| 0 <= i < |todos| && todos[i] == x;
      }
    }
    assert |t.rows.Keys| == |t.rows|;
  }

  /** The table after successfully creating each of `todos` in turn. */
  function CreateAll(t: Table, todos: seq<Todo>): (r: Table)
    requires Consistent(t)
    ensures Consistent(r)
    decreases |todos|
  {
    if todos == [] then t
    else CreateAll(CreateStep(t, todos[0], Up, Up).table, todos[1..])
  }

  /**
   * While ids last, N successful creates add exactly N rows, and every row
   * that existed before is still there unchanged.
   */
  lemma {:induction false} CreateAllCount(t: Table, todos: seq<Todo>)
    requires Consistent(t)
    requires t.nextId + |todos| <= MaxRowId + 1
    ensures |CreateAll(t, todos).rows| == |t.rows| + |todos|
    ensures CreateAll(t, todos).nextId == t.nextId + |todos|
    ensures forall id :: id in t.rows ==> Find(CreateAll(t, todos), id) == Find(t, id)
    decreases |todos|
  {
    if todos != [] {
      var t1 := CreateStep(t, todos[0], Up, Up).table;
      CreateAllCount(t1, todos[1..]);
    }
  }

  /**
   * An id below the counter that no row holds stays free through any create,
   * whatever its statements' outcomes: the create never hands it out.
   */
  lemma RetiredIdStaysFree(t: Table, id: int, todo: Todo, exec: Backend, lastInsertId: Backend)
    requires Consistent(t)
    requires id < t.nextId && id !in t.rows
    ensures var c := CreateStep(t, todo, exec, lastInsertId);
      && id < c.table.nextId
      && id !in c.table.rows
      && (c.out.Ok? ==> c.out.value.id != id)
  {
  }

  /** One call of a store operation that changes the table, with its statements' outcomes. */
  datatype StoreCall =
    | CreateCall(todo: Todo, exec: Backend, lastInsertId: Backend)
    | UpdateCall(id: int, todo: Todo, exec: Backend)
    | DeleteCall(id: int, exec: Backend)

  /** The table after running `calls` in turn, each through its step function. */
  function Replay(t: Table, calls: seq<StoreCall>): (r: Table)
    requires Consistent(t)
    ensures Consistent(r)
    decreases |calls|
  {
    if calls == [] then t
    else
      var next := match calls[0]
        case CreateCall(todo, exec, lastInsertId) => CreateStep(t, todo, exec, lastInsertId).table
        case UpdateCall(id, todo, exec) => UpdateStep(t, id, todo, exec).table
        case DeleteCall(id, exec) => DeleteStep(t, id, exec).table;
      Replay(next, calls[1..])
  }

  /**
   * Ids are never reused: once a row is deleted, no sequence of later store
   * calls, whatever their statements' outcomes, stores a row under its id again.
   */
  lemma {:induction false} NoReuseAfterDelete(t: Table, id: int, calls: seq<StoreCall>)
    requires Consistent(t)
    requires id in t.rows
    ensures Find(Replay(DeleteStep(t, id, Up).table, calls), id) == None
  {
    StaysFree(DeleteStep(t, id, Up).table, id, calls);
  }

  /** A free id below the counter stays free through any sequence of store calls. */
  lemma {:induction false} StaysFree(t: Table, id: int, calls: seq<StoreCall>)
    requires Consistent(t)
    requires id < t.nextId && id !in t.rows
    ensures id !in Replay(t, calls).rows
    decreases |calls|
  {
    if calls != [] {
      match calls[0]
      case CreateCall(todo, exec, lastInsertId) =>
        RetiredIdStaysFree(t, id, todo, exec, lastInsertId);
        StaysFree(CreateStep(t, todo, exec, lastInsertId).table, id, calls[1..]);
      case UpdateCall(k, todo, exec) =>
        StaysFree(UpdateStep(t, k, todo, exec).table, id, calls[1..]);
      case DeleteCall(k, exec) =>
        StaysFree(DeleteStep(t, k, exec).table, id, calls[1..]);
    }
  }
}
