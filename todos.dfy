/**
 * The todo table. The `Todo` entity class is not part of this model: a todo
 * is a value row, and updating it in place replaces its row.
 */
module Todos {
  import opened Common
  import opened Users

  datatype Todo = Todo(id: NullableId, title: NullableString, contents: NullableString,
                       weather: string, user: UserRef)

  class TodoRepository {
    var rows: map<int, Todo>
    var nextId: int

    /** Each row carries its own key, and keys were issued by the IDENTITY counter. */
    ghost predicate Valid()
      reads this
    {
      forall k | k in rows :: rows[k].id == Some(k) && k < nextId
    }

    constructor ()
      ensures Valid() && rows == map[]
    {
      rows := map[];
      nextId := 1;
    }

    /** `save` of a new todo: the database assigns the next IDENTITY id. */
    method Save(todo: Todo) returns (saved: Todo)
      requires Valid() && todo.id == None
      modifies this
      ensures Valid()
      ensures saved == todo.(id := Some(old(nextId))) && old(nextId) !in old(rows)
      ensures rows == old(rows)[old(nextId) := saved] && nextId == old(nextId) + 1
    {
      saved := todo.(id := Some(nextId));
      rows := rows[nextId := saved];
      nextId := nextId + 1;
    }
  }
}

/** TodoService (todo/service/TodoService.java), without the paged listing. */
module TodoService {
  import opened Common
  import opened Users
  import opened Todos

  const TODO_NOT_FOUND: string := "Todo not found"
  const NOT_TODO_WRITER: string := "일정 작성자가 아닙니다."

  datatype TodoRequest = TodoRequest(title: NullableString, contents: NullableString)
  datatype TodoSaveResponse = TodoSaveResponse(id: NullableId, title: NullableString, contents: NullableString,
                                               weather: string, user: UserResponse)
  datatype TodoResponse = TodoResponse(id: NullableId, title: NullableString, contents: NullableString,
                                       weather: string, user: UserResponse)

  /** `requested == null ? stored : requested`. */
  function Merge(stored: NullableString, requested: NullableString): (r: NullableString)
    ensures requested.Some? ==> r == requested
    ensures requested.None? ==> r == stored
  {
    if requested.None? then stored else requested
  }

  /** The todo as `updateTodo` leaves it: title and contents null-merged, all else kept. */
  function Updated(todo: Todo, request: TodoRequest): Todo
  {
    todo.(title := Merge(todo.title, request.title), contents := Merge(todo.contents, request.contents))
  }

  /** Updating changes title and contents only; a request of two nulls changes nothing; a repeat changes nothing more. */
  lemma UpdatedKeepsOwnerAndWeather(todo: Todo, request: TodoRequest)
    ensures var t := Updated(todo, request);
      t.id == todo.id && t.weather == todo.weather && t.user == todo.user
    ensures Updated(todo, TodoRequest(None, None)) == todo
    ensures Updated(Updated(todo, request), request) == Updated(todo, request)
  {
  }

  /** `findTodoByIdOrElseThrow`: the stored todo under `todoId`. */
  method FindTodoByIdOrElseThrow(repo: TodoRepository, todoId: int) returns (r: Result<Todo>)
    requires repo.Valid()
    ensures r.Ok? <==> todoId in repo.rows
    ensures r.Ok? ==> r.value == repo.rows[todoId] && r.value.id == Some(todoId)
    ensures r.Err? ==> r.error == InvalidRequest(TODO_NOT_FOUND)
  {
    if todoId in repo.rows {
      var todo := repo.rows[todoId];
      assert todo.id == Some(todoId);
      r := Ok(todo);
    } else {
      r := Err(InvalidRequest(TODO_NOT_FOUND));
    }
  }

  /**
   * `saveTodo`: inserts one todo owned by the caller, with the request's
   * title and contents and today's weather (passed in), and echoes them.
   */
  method SaveTodo(repo: TodoRepository, authUser: AuthUser, request: TodoRequest, weather: string)
    returns (r: TodoSaveResponse)
    requires repo.Valid()
    modifies repo
    ensures repo.Valid()
    ensures old(repo.nextId) !in old(repo.rows)
    ensures repo.rows == old(repo.rows)[old(repo.nextId) :=
      Todo(Some(old(repo.nextId)), request.title, request.contents, weather, UserRef(authUser.id, authUser.email))]
    ensures r == TodoSaveResponse(Some(old(repo.nextId)), request.title, request.contents, weather,
                                  UserResponse(authUser.id, authUser.email))
  {
    var user := FromAuthUser(authUser);
    var newTodo := Todo(None, request.title, request.contents, weather, UserRef(user.id, user.email));
    var savedTodo := repo.Save(newTodo);
    r := TodoSaveResponse(savedTodo.id, savedTodo.title, savedTodo.contents, weather,
                          UserResponse(user.id, user.email));
  }

  /** `getTodo`: the stored fields of the todo and its owner. Reads only. */
  method GetTodo(repo: TodoRepository, todoId: int) returns (r: Result<TodoResponse>)
    requires repo.Valid()
    ensures r.Err? <==> todoId !in repo.rows
    ensures r.Err? ==> r.error == InvalidRequest(TODO_NOT_FOUND)
    ensures r.Ok? ==> var t := repo.rows[todoId];
      r.value == TodoResponse(Some(todoId), t.title, t.contents, t.weather, UserResponse(t.user.id, t.user.email))
  {
    var todo :- FindTodoByIdOrElseThrow(repo, todoId);
    var user := todo.user;
    r := Ok(TodoResponse(todo.id, todo.title, todo.contents, todo.weather, UserResponse(user.id, user.email)));
  }

  /**
   * `updateTodo`: only the owner (null-safe id equality) may update; a
   * null title or contents keeps the stored one. Weather and owner are
   * never changed, and no other todo is touched.
   */
  method UpdateTodo(repo: TodoRepository, authUser: AuthUser, todoId: int, request: TodoRequest)
    returns (r: Result<TodoResponse>)
    requires repo.Valid()
    modifies repo
    ensures repo.Valid() && repo.nextId == old(repo.nextId)
    ensures todoId !in old(repo.rows) ==>
      r == Err(InvalidRequest(TODO_NOT_FOUND)) && repo.rows == old(repo.rows)
    ensures todoId in old(repo.rows) && old(repo.rows[todoId]).user.id != authUser.id ==>
      r == Err(InvalidRequest(NOT_TODO_WRITER)) && repo.rows == old(repo.rows)
    ensures todoId in old(repo.rows) && old(repo.rows[todoId]).user.id == authUser.id ==>
      var t := Updated(old(repo.rows[todoId]), request);
      && repo.rows == old(repo.rows)[todoId := t]
      && r == Ok(TodoResponse(Some(todoId), t.title, t.contents, t.weather, UserResponse(authUser.id, authUser.email)))
  {
    var todo :- FindTodoByIdOrElseThrow(repo, todoId);
    if !NullSafeEquals(todo.user.id, authUser.id) {
      return Err(InvalidRequest(NOT_TODO_WRITER));
    }
    var todoTitle := if request.title.None? then todo.title else request.title;
    var todoContents := if request.contents.None? then todo.contents else request.contents;
    todo := todo.(title := todoTitle, contents := todoContents);
    repo.rows := repo.rows[todoId := todo];
    r := Ok(TodoResponse(todo.id, todo.title, todo.contents, todo.weather,
                         UserResponse(authUser.id, authUser.email)));
  }

  /** `deleteTodo(userId, todoId)`: removes the todo exactly when `userId` owns it. */
  method DeleteTodo(repo: TodoRepository, userId: NullableId, todoId: int) returns (r: Outcome)
    requires repo.Valid()
    modifies repo
    ensures repo.Valid() && repo.nextId == old(repo.nextId)
    ensures todoId !in old(repo.rows) ==>
      r == Fail(InvalidRequest(TODO_NOT_FOUND)) && repo.rows == old(repo.rows)
    ensures todoId in old(repo.rows) && old(repo.rows[todoId]).user.id != userId ==>
      r == Fail(InvalidRequest(NOT_TODO_WRITER)) && repo.rows == old(repo.rows)
    ensures todoId in old(repo.rows) && old(repo.rows[todoId]).user.id == userId ==>
      r == Pass && repo.rows == old(repo.rows) - {todoId}
  {
    var found := FindTodoByIdOrElseThrow(repo, todoId);
    if found.Err? {
      return Fail(found.error);
    }
    if !NullSafeEquals(found.value.user.id, userId) {
      return Fail(InvalidRequest(NOT_TODO_WRITER));
    }
    repo.rows := repo.rows - {todoId};
    r := Pass;
  }
}

/** TodoAdminService (todo/service/TodoAdminService.java). */
module TodoAdminService {
  import opened Todos

  /**
   * `deleteTodo(todoId)`: `deleteById` with no lookup and no owner check;
   * a missing id deletes nothing. Every other todo is kept.
   */
  method DeleteTodo(repo: TodoRepository, todoId: int)
    requires repo.Valid()
    modifies repo
    ensures repo.Valid() && repo.nextId == old(repo.nextId)
    ensures repo.rows == old(repo.rows) - {todoId}
  {
    repo.rows := repo.rows - {todoId};
  }
}
