/**
 * The four request handlers that `SetupRouter` registers, as check-then-act
 * state machines over the todo store.
 *
 * A request arrives already decoded: the `:id` path token as the integer
 * `strconv.Atoi` accepts (None when it rejects the token), the JSON body as
 * bound or not, and one `Backend` outcome for each SQL statement the handler
 * may run. A handler answers with a status and a payload. For POST, PUT and
 * DELETE a function gives the answer and the table left behind, and a method
 * that calls the `Database` object is proved to agree with it. GET changes
 * nothing and is a method only.
 */
module TodoRouter {
  import opened Wrappers
  import opened TodoTable
  import opened TodoDatabase

  const StatusOK := 200
  const StatusCreated := 201
  const StatusBadRequest := 400
  const StatusNotFound := 404
  const StatusInternalServerError := 500

  const InvalidIdMessage := "Invalid ID"
  const NotFoundMessage := "Todo not found"
  const DeletedMessage := "Todo deleted"

  /** The JSON value a handler answers with. */
  datatype Payload =
    | TodoItem(todo: Todo)
    | TodoList(todos: seq<Todo>)
    | ErrorBody(error: string)
    | MessageBody(message: string)

  datatype Response = Response(status: int, payload: Payload)

  /** The request body after `ShouldBindJSON`: the todo it bound, or the binding error. */
  datatype Body = Bound(todo: Todo) | Unbound(message: string)

  function Failure(status: int, message: string): Response
  {
    Response(status, ErrorBody(message))
  }

  /**
   * GET /todos: 200 with the listing, or 500 with the backend's error text.
   */
  method ServeGet(db: Database, query: Backend, scan: Backend) returns (resp: Response)
    requires db.Valid()
    ensures query.Down? ==> resp == Failure(StatusInternalServerError, query.message)
    ensures query.Up? && scan.Down? && db.rows != map[] ==> resp == Failure(StatusInternalServerError, scan.message)
    ensures query.Up? && (scan.Up? || db.rows == map[]) ==>
      && resp.status == StatusOK
      && resp.payload.TodoList?
      && IsListing(db.Snapshot(), resp.payload.todos)
      && |resp.payload.todos| == |db.rows|
  {
    var todos := db.GetTodos(query, scan);
    if todos.Err? {
      return Failure(StatusInternalServerError, todos.message);
    }
    resp := Response(StatusOK, TodoList(todos.value));
  }

  /**
   * POST /todos: an unbindable body is 400 and touches nothing; otherwise the
   * store creates the todo and the answer is 201 with it, carrying a fresh,
   * positive id in place of whatever id the body held. A store failure is 500.
   */
  function Post(t: Table, body: Body, exec: Backend, lastInsertId: Backend): (r: Step<Response>)
    requires Consistent(t)
    ensures Consistent(r.table)
    ensures body.Unbound? ==> r == Step(Failure(StatusBadRequest, body.message), t)
    ensures r.out.status == StatusCreated <==> body.Bound? && InsertRuns(t, exec) && lastInsertId.Up?
    ensures r.out.status == StatusCreated ==>
      && r.out.payload.TodoItem?
      && var x := r.out.payload.todo;
      && x.id >= 1
      && x.id !in t.rows
      && x.title == body.todo.title
      && x.done == body.todo.done
      && Find(r.table, x.id) == Some(x)
    ensures r.out.status == StatusCreated ==>
      && r.out.payload.TodoItem?
      && r.out.payload.todo.id == t.nextId
      && r.table.rows.Keys == t.rows.Keys + {t.nextId}
      && r.table.nextId == t.nextId + 1
    ensures body.Bound? ==> r.table == CreateStep(t, body.todo, exec, lastInsertId).table
    ensures body.Bound? && !(InsertRuns(t, exec) && lastInsertId.Up?) ==>
      var created := CreateStep(t, body.todo, exec, lastInsertId);
      r == Step(Failure(StatusInternalServerError, created.out.message), created.table)
    ensures t.nextId <= r.table.nextId
    ensures r.table != t ==> body.Bound? && InsertRuns(t, exec)
    ensures forall id :: id in t.rows ==> Find(r.table, id) == Find(t, id)
  {
    if body.Unbound? then Step(Failure(StatusBadRequest, body.message), t)
    else
      var created := CreateStep(t, body.todo, exec, lastInsertId);
      if created.out.Err? then Step(Failure(StatusInternalServerError, created.out.message), created.table)
      else Step(Response(StatusCreated, TodoItem(created.out.value)), created.table)
  }

  method ServePost(db: Database, body: Body, exec: Backend, lastInsertId: Backend) returns (resp: Response)
    requires db.Valid()
    modifies db
    ensures db.Valid()
    ensures resp == Post(old(db.Snapshot()), body, exec, lastInsertId).out
    ensures db.Snapshot() == Post(old(db.Snapshot()), body, exec, lastInsertId).table
  {
    if body.Unbound? {
      return Failure(StatusBadRequest, body.message);
    }
    var newTodo := body.todo;
    var created := db.CreateTodo(newTodo, exec, lastInsertId);
    if created.Err? {
      return Failure(StatusInternalServerError, created.message);
    }
    newTodo := created.value;
    resp := Response(StatusCreated, TodoItem(newTodo));
  }

  /**
   * PUT /todos/:id: the id is parsed first, then the body is bound, then the
   * row is looked up, and only an existing row is updated. A bad id or body is
   * 400, a failed lookup 500, a missing row 404; none of these reaches
   * UpdateTodo, and none changes the table. Success is 200 with the request
   * body whose id is replaced by the path id; a failing UPDATE is 500.
   */
  function Put(t: Table, idToken: Option<int>, body: Body, lookup: Backend, update: Backend): (r: Step<Response>)
    ensures Consistent(t) ==> Consistent(r.table)
    ensures r.table.nextId == t.nextId && r.table.rows.Keys == t.rows.Keys
    ensures idToken.None? ==> r == Step(Failure(StatusBadRequest, InvalidIdMessage), t)
    ensures idToken.Some? && body.Unbound? ==> r == Step(Failure(StatusBadRequest, body.message), t)
    ensures idToken.Some? && body.Bound? && lookup.Down? ==>
      r == Step(Failure(StatusInternalServerError, lookup.message), t)
    ensures r.out.status == StatusNotFound <==>
      idToken.Some? && body.Bound? && lookup.Up? && idToken.value !in t.rows
    ensures r.out.status == StatusNotFound ==> r == Step(Failure(StatusNotFound, NotFoundMessage), t)
    ensures r.out.status != StatusOK ==> r.table == t
    ensures r.out.status == StatusOK <==>
      idToken.Some? && body.Bound? && lookup.Up? && idToken.value in t.rows && update.Up?
    ensures idToken.Some? && body.Bound? && lookup.Up? && idToken.value in t.rows && update.Down? ==>
      r == Step(Failure(StatusInternalServerError, update.message), t)
    ensures r.out.status == StatusOK ==>
      && r.out.payload == TodoItem(body.todo.(id := idToken.value))
      && Find(r.table, idToken.value) == Some(body.todo.(id := idToken.value))
    ensures idToken.Some? ==> SameElsewhere(t, r.table, idToken.value)
  {
    if idToken.None? then Step(Failure(StatusBadRequest, InvalidIdMessage), t)
    else if body.Unbound? then Step(Failure(StatusBadRequest, body.message), t)
    else
      var id := idToken.value;
      var existing := LookupStep(t, id, lookup);
      if existing.Err? then Step(Failure(StatusInternalServerError, existing.message), t)
      else if existing.value.None? then Step(Failure(StatusNotFound, NotFoundMessage), t)
      else
        var updatedTodo := body.todo.(id := id);
        var updated := UpdateStep(t, id, updatedTodo, update);
        if updated.out.Err? then Step(Failure(StatusInternalServerError, updated.out.message), updated.table)
        else Step(Response(StatusOK, TodoItem(updatedTodo)), updated.table)
  }

  method ServePut(db: Database, idToken: Option<int>, body: Body, lookup: Backend, update: Backend)
    returns (resp: Response)
    requires db.Valid()
    modifies db
    ensures db.Valid()
    ensures resp == Put(old(db.Snapshot()), idToken, body, lookup, update).out
    ensures db.Snapshot() == Put(old(db.Snapshot()), idToken, body, lookup, update).table
  {
    if idToken.None? {
      return Failure(StatusBadRequest, InvalidIdMessage);
    }
    var id := idToken.value;
    if body.Unbound? {
      return Failure(StatusBadRequest, body.message);
    }
    var updatedTodo := body.todo;
    var existing := db.GetTodoByID(id, lookup);
    if existing.Err? {
      return Failure(StatusInternalServerError, existing.message);
    }
    if existing.value.None? {
      return Failure(StatusNotFound, NotFoundMessage);
    }
    updatedTodo := updatedTodo.(id := id);
    var updated := db.UpdateTodo(id, updatedTodo, update);
    if updated.Err? {
      return Failure(StatusInternalServerError, updated.message);
    }
    resp := Response(StatusOK, TodoItem(updatedTodo));
  }

  /**
   * DELETE /todos/:id: the id is parsed, the row looked up, and only an
   * existing row is deleted. A bad id is 400, a failed lookup 500 and a missing
   * row 404, although DeleteTodo itself would accept a missing id; none of
   * these reaches DeleteTodo or changes the table. Success is 200 with the
   * message "Todo deleted", after which the id is absent.
   */
  function Delete(t: Table, idToken: Option<int>, lookup: Backend, delete: Backend): (r: Step<Response>)
    ensures Consistent(t) ==> Consistent(r.table)
    ensures r.table.nextId == t.nextId
    ensures idToken.None? ==> r == Step(Failure(StatusBadRequest, InvalidIdMessage), t)
    ensures idToken.Some? && lookup.Down? ==> r == Step(Failure(StatusInternalServerError, lookup.message), t)
    ensures r.out.status == StatusNotFound <==> idToken.Some? && lookup.Up? && idToken.value !in t.rows
    ensures r.out.status == StatusNotFound ==> r == Step(Failure(StatusNotFound, NotFoundMessage), t)
    ensures r.out.status != StatusOK ==> r.table == t
    ensures r.out.status == StatusOK <==> idToken.Some? && lookup.Up? && idToken.value in t.rows && delete.Up?
    ensures idToken.Some? && lookup.Up? && idToken.value in t.rows && delete.Down? ==>
      r == Step(Failure(StatusInternalServerError, delete.message), t)
    ensures r.out.status == StatusOK ==>
      && r.out.payload == MessageBody(DeletedMessage)
      && LookupStep(r.table, idToken.value, Up) == Ok(None)
      && r.table.rows.Keys == t.rows.Keys - {idToken.value}
    ensures idToken.Some? ==> SameElsewhere(t, r.table, idToken.value)
  {
    if idToken.None? then Step(Failure(StatusBadRequest, InvalidIdMessage), t)
    else
      var id := idToken.value;
      var existing := LookupStep(t, id, lookup);
      if existing.Err? then Step(Failure(StatusInternalServerError, existing.message), t)
      else if existing.value.None? then Step(Failure(StatusNotFound, NotFoundMessage), t)
      else
        var deleted := DeleteStep(t, id, delete);
        if deleted.out.Some? then Step(Failure(StatusInternalServerError, deleted.out.value), deleted.table)
        else Step(Response(StatusOK, MessageBody(DeletedMessage)), deleted.table)
  }

  method ServeDelete(db: Database, idToken: Option<int>, lookup: Backend, delete: Backend)
    returns (resp: Response)
    requires db.Valid()
    modifies db
    ensures db.Valid()
    ensures resp == Delete(old(db.Snapshot()), idToken, lookup, delete).out
    ensures db.Snapshot() == Delete(old(db.Snapshot()), idToken, lookup, delete).table
  {
    if idToken.None? {
      return Failure(StatusBadRequest, InvalidIdMessage);
    }
    var id := idToken.value;
    var existing := db.GetTodoByID(id, lookup);
    if existing.Err? {
      return Failure(StatusInternalServerError, existing.message);
    }
    if existing.value.None? {
      return Failure(StatusNotFound, NotFoundMessage);
    }
    var err := db.DeleteTodo(id, delete);
    if err.Some? {
      return Failure(StatusInternalServerError, err.value);
    }
    resp := Response(StatusOK, MessageBody(DeletedMessage));
  }

  /**
   * The cases of TestPostTodo, each on its own fresh table: a bound body is
   * created under a non-zero id with its title and done, an unparsable body is
   * 400, and a failing INSERT is 500.
   */
  lemma PostTestCases()
    ensures
      var ok := Post(Empty, Bound(Todo(0, "New Todo", false)), Up, Up);
      && ok.out.status == StatusCreated
      && ok.out.payload.TodoItem?
      && ok.out.payload.todo.title == "New Todo"
      && ok.out.payload.todo.done == false
      && ok.out.payload.todo.id != 0
    ensures Post(Empty, Unbound("invalid character"), Up, Up).out.status == StatusBadRequest
    ensures Post(Empty, Bound(Todo(0, "New Todo", false)), Down("database error"), Up).out.status
      == StatusInternalServerError
  {
  }

  /**
   * The cases of TestPutTodo. The success case runs on a table holding one
   * row, "Test Todo" under id 1; the failure cases run on a fresh table, or on
   * one whose row 1 is "Old" where the lookup must succeed.
   */
  lemma PutTestCases()
    ensures
      var seeded := Table(map[1 := Row("Test Todo", false)], 2);
      var ok := Put(seeded, Some(1), Bound(Todo(0, "Updated Todo", true)), Up, Up);
      && ok.out == Response(StatusOK, TodoItem(Todo(1, "Updated Todo", true)))
      && Find(ok.table, 1) == Some(Todo(1, "Updated Todo", true))
    ensures Put(Empty, None, Bound(Todo(0, "Updated Todo", true)), Up, Up).out.status == StatusBadRequest
    ensures Put(Empty, Some(1), Unbound("invalid character"), Up, Up).out.status == StatusBadRequest
    ensures Put(Empty, Some(999), Bound(Todo(0, "Updated Todo", true)), Up, Up).out.status == StatusNotFound
    ensures Put(Empty, Some(1), Bound(Todo(0, "Updated Todo", true)), Down("database error"), Up).out.status
      == StatusInternalServerError
    ensures
      var old1 := Table(map[1 := Row("Old", false)], 2);
      Put(old1, Some(1), Bound(Todo(0, "Updated Todo", true)), Up, Down("database error")).out.status
        == StatusInternalServerError
  {
  }

  /**
   * The cases of TestDeleteTodo, on the same tables as those of TestPutTodo:
   * deleting the one stored row answers "Todo deleted", a bad id is 400, a
   * missing row 404, and a failing lookup or DELETE 500.
   */
  lemma DeleteTestCases()
    ensures
      var seeded := Table(map[1 := Row("Test Todo", false)], 2);
      var ok := Delete(seeded, Some(1), Up, Up);
      && ok.out == Response(StatusOK, MessageBody("Todo deleted"))
      && Find(ok.table, 1) == None
    ensures Delete(Empty, None, Up, Up).out.status == StatusBadRequest
    ensures Delete(Empty, Some(999), Up, Up).out.status == StatusNotFound
    ensures Delete(Empty, Some(1), Down("database error"), Up).out.status == StatusInternalServerError
    ensures
      var test1 := Table(map[1 := Row("Test", false)], 2);
      Delete(test1, Some(1), Up, Down("database error")).out.status == StatusInternalServerError
  {
  }
}
