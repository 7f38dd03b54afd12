/**
 * `Database`, the SQLite implementation of `DatabaseInterface`, as an object
 * whose state is the table: its rows and its AUTOINCREMENT counter. Each method
 * changes that state the way its SQL statement does, and is proved to agree
 * with the step function of TodoTable that describes the call.
 */
module TodoDatabase {
  import opened Wrappers
  import opened TodoTable

  class Database {
    var rows: map<int, Row>
    var nextId: int

    /** The table this object holds. */
    function Snapshot(): Table
      reads this
    {
      Table(rows, nextId)
    }

    ghost predicate Valid()
      reads this
    {
      Consistent(Snapshot())
    }

    /** A connection to a freshly created, empty `todos` table. */
    constructor ()
      ensures Valid() && Snapshot() == Empty
    {
      rows := map[];
      nextId := 1;
    }

    /**
     * GetTodos: SELECT every row and append each scanned row to the result.
     * A failing query, or a failing scan of any row, makes the whole call an
     * error; otherwise the result lists every row once. The loop walks the
     * keys upwards, as SQLite's scan of a rowid table does, but the contract
     * promises no order: the SELECT has no ORDER BY.
     */
    method GetTodos(query: Backend, scan: Backend) returns (r: Outcome<seq<Todo>>)
      requires Valid()
      ensures query.Down? ==> r == Err(query.message)
      ensures query.Up? && scan.Down? && rows != map[] ==> r == Err(scan.message)
      ensures query.Up? && (scan.Up? || rows == map[]) ==>
        r.Ok? && IsListing(Snapshot(), r.value) && |r.value| == |rows|
    {
      if query.Down? {
        return Err(query.message);
      }
      var todos: seq<Todo> := [];
      var id := 1;
      while id < nextId
        invariant 1 <= id <= nextId
        invariant scan.Down? ==> forall k :: k in rows ==> id <= k
        invariant forall i :: 0 <= i < |todos| ==> todos[i].id < id
        invariant DistinctIds(todos)
        invariant forall x :: x in todos ==> Find(Snapshot(), x.id) == Some(x)
        invariant forall k :: k in rows && k < id ==> Todo(k, rows[k].title, rows[k].done) in todos
      {
        if id in rows {
          if scan.Down? {
            return Err(scan.message);
          }
          todos := todos + [Todo(id, rows[id].title, rows[id].done)];
        }
        id := id + 1;
      }
      if scan.Down? {
        assert rows.Keys == {};
      }
      ListingLength(Snapshot(), todos);
      r := Ok(todos);
    }

    /** GetTodoByID: the row with key `id`, or none; an error only if the query fails. */
    method GetTodoByID(id: int, query: Backend) returns (r: Outcome<Option<Todo>>)
      ensures r == LookupStep(Snapshot(), id, query)
    {
      if query.Down? {
        return Err(query.message);
      }
      if id in rows {
        r := Ok(Some(Todo(id, rows[id].title, rows[id].done)));
      } else {
        r := Ok(None);
      }
    }

    /**
     * CreateTodo: INSERT the title and done of `todo`, then read back the id
     * the row received. The Ok value is the caller's todo as Go leaves it after
     * `todo.ID = int(id)`; on an error the caller's todo keeps its old id.
     */
    method CreateTodo(todo: Todo, exec: Backend, lastInsertId: Backend) returns (r: Outcome<Todo>)
      requires Valid()
      modifies this
      ensures Valid()
      ensures r == CreateStep(old(Snapshot()), todo, exec, lastInsertId).out
      ensures Snapshot() == CreateStep(old(Snapshot()), todo, exec, lastInsertId).table
    {
      if exec.Down? {
        return Err(exec.message);
      }
      if nextId > MaxRowId {
        return Err(FullMessage);
      }
      var id := nextId;
      rows := rows[id := Row(todo.title, todo.done)];
      nextId := id + 1;
      if lastInsertId.Down? {
        return Err(lastInsertId.message);
      }
      r := Ok(todo.(id := id));
    }

    /** UpdateTodo: UPDATE the row with key `id`, if any; return `updated` with its id set to `id`. */
    method UpdateTodo(id: int, updated: Todo, exec: Backend) returns (r: Outcome<Todo>)
      requires Valid()
      modifies this
      ensures Valid()
      ensures r == UpdateStep(old(Snapshot()), id, updated, exec).out
      ensures Snapshot() == UpdateStep(old(Snapshot()), id, updated, exec).table
    {
      if exec.Down? {
        return Err(exec.message);
      }
      if id in rows {
        rows := rows[id := Row(updated.title, updated.done)];
      }
      r := Ok(updated.(id := id));
    }

    /** DeleteTodo: DELETE the row with key `id`, if any; the result is the Go error. */
    method DeleteTodo(id: int, exec: Backend) returns (err: Option<string>)
      requires Valid()
      modifies this
      ensures Valid()
      ensures err == DeleteStep(old(Snapshot()), id, exec).out
      ensures Snapshot() == DeleteStep(old(Snapshot()), id, exec).table
    {
      if exec.Down? {
        return Some(exec.message);
      }
      rows := rows - {id};
      err := None;
    }
  }
}
