/**
 * The comment table. The `Comment` entity class is not part of this model:
 * a comment is a value row holding its author and the id of its todo, and
 * updating it in place replaces its row.
 */
module Comments {
  import opened Common
  import opened Users

  datatype Comment = Comment(id: NullableId, contents: NullableString, user: UserRef, todoId: NullableId)

  class CommentRepository {
    var rows: map<int, Comment>
    var nextId: int

    /** Each row carries its own key, and keys were issued by the IDENTITY counter. */
    ghost predicate Valid()
      reads this
    {
      forall k | k in rows :: rows[k].id == Some(k) && k < nextId
    }

    constructor ()
      ensures Valid() && rows == map[]
    {
      rows := map[];
      nextId := 1;
    }

    /** `save` of a new comment: the database assigns the next IDENTITY id. */
    method Save(comment: Comment) returns (saved: Comment)
      requires Valid() && comment.id == None
      modifies this
      ensures Valid()
      ensures saved == comment.(id := Some(old(nextId))) && old(nextId) !in old(rows)
      ensures rows == old(rows)[old(nextId) := saved] && nextId == old(nextId) + 1
    {
      saved := comment.(id := Some(nextId));
      rows := rows[nextId := saved];
      nextId := nextId + 1;
    }
  }

  /**
   * What `findByTodoIdWithUser(todoId)` returns: stored comments of that
   * todo, each of them exactly once, in the order the query yields them.
   */
  ghost predicate IsCommentsOfTodo(rows: map<int, Comment>, todoId: int, list: seq<Comment>)
  {
    && (forall i | 0 <= i < |list| ::
          list[i].id.Some? && list[i].id.value in rows && rows[list[i].id.value] == list[i]
          && list[i].todoId == Some(todoId))
    && (forall k | k in rows && rows[k].todoId == Some(todoId) ::
          exists i :: 0 <= i < |list| && list[i].id == Some(k))
    && (forall i, j | 0 <= i < j < |list| :: list[i].id != list[j].id)
  }
}

/** CommentService (comment/service/CommentService.java). */
module CommentService {
  import opened Common
  import opened Users
  import opened Todos
  import opened Comments
  import TodoService

  const COMMENT_NOT_FOUND: string := "Comment not found"
  const NOT_COMMENT_WRITER: string := "댓글 작성자가 아닙니다."

  datatype CommentRequest = CommentRequest(contents: NullableString)
  datatype CommentSaveResponse = CommentSaveResponse(id: NullableId, contents: NullableString, user: UserResponse)
  datatype CommentResponse = CommentResponse(id: NullableId, contents: NullableString, user: UserResponse)

  /** `findCommentByIdOrElseThrow`: the stored comment under `commentId`. */
  method FindCommentByIdOrElseThrow(repo: CommentRepository, commentId: int) returns (r: Result<Comment>)
    requires repo.Valid()
    ensures r.Ok? <==> commentId in repo.rows
    ensures r.Ok? ==> r.value == repo.rows[commentId] && r.value.id == Some(commentId)
    ensures r.Err? ==> r.error == InvalidRequest(COMMENT_NOT_FOUND)
  {
    if commentId in repo.rows {
      var comment := repo.rows[commentId];
      assert comment.id == Some(commentId);
      r := Ok(comment);
    } else {
      r := Err(InvalidRequest(COMMENT_NOT_FOUND));
    }
  }

  /**
   * `saveComment`: fails, saving nothing, when the todo does not exist;
   * otherwise inserts one comment with the request's contents, the caller
   * as author and the found todo.
   */
  method SaveComment(comments: CommentRepository, todos: TodoRepository, authUser: AuthUser,
                     todoId: int, request: CommentRequest) returns (r: Result<CommentSaveResponse>)
    requires comments.Valid() && todos.Valid()
    modifies comments
    ensures comments.Valid()
    ensures todoId !in todos.rows ==>
      r == Err(InvalidRequest(TodoService.TODO_NOT_FOUND)) && unchanged(comments)
    ensures todoId in todos.rows ==>
      var id := old(comments.nextId);
      && id !in old(comments.rows)
      && comments.rows == old(comments.rows)[id :=
           Comment(Some(id), request.contents, UserRef(authUser.id, authUser.email), Some(todoId))]
      && r == Ok(CommentSaveResponse(Some(id), request.contents, UserResponse(authUser.id, authUser.email)))
  {
    var user := FromAuthUser(authUser);
    var todo :- TodoService.FindTodoByIdOrElseThrow(todos, todoId);
    var newComment := Comment(None, request.contents, UserRef(user.id, user.email), todo.id);
    var savedComment := comments.Save(newComment);
    r := Ok(CommentSaveResponse(savedComment.id, savedComment.contents, UserResponse(user.id, user.email)));
  }

  /**
   * `getComments(todoId)`: one response per comment the query returned, in
   * the same order, with its id, contents and author. `commentList` is what
   * `findByTodoIdWithUser(todoId)` returned; when it lists the todo's
   * stored comments, every one of them gets its response.
   */
  method GetComments(ghost repo: CommentRepository, todoId: int, commentList: seq<Comment>)
    returns (dtoList: seq<CommentResponse>)
    ensures |dtoList| == |commentList|
    ensures forall i | 0 <= i < |commentList| ::
      dtoList[i] == CommentResponse(commentList[i].id, commentList[i].contents,
                                    UserResponse(commentList[i].user.id, commentList[i].user.email))
    ensures IsCommentsOfTodo(repo.rows, todoId, commentList) ==>
      forall k | k in repo.rows && repo.rows[k].todoId == Some(todoId) ::
        exists i :: 0 <= i < |dtoList| && dtoList[i].id == Some(k) && dtoList[i].contents == repo.rows[k].contents
  {
    dtoList := [];
    for i := 0 to |commentList|
      invariant |dtoList| == i
      invariant forall j | 0 <= j < i ::
        dtoList[j] == CommentResponse(commentList[j].id, commentList[j].contents,
                                      UserResponse(commentList[j].user.id, commentList[j].user.email))
    {
      var comment := commentList[i];
      var user := comment.user;
      var dto := CommentResponse(comment.id, comment.contents, UserResponse(user.id, user.email));
      dtoList := dtoList + [dto];
    }
  }

  /**
   * `updateComment`: only the author (null-safe id equality) may update,
   * and the contents become exactly the request's, null included.
   */
  method UpdateComment(repo: CommentRepository, authUser: AuthUser, commentId: int, request: CommentRequest)
    returns (r: Result<CommentResponse>)
    requires repo.Valid()
    modifies repo
    ensures repo.Valid() && repo.nextId == old(repo.nextId)
    ensures commentId !in old(repo.rows) ==>
      r == Err(InvalidRequest(COMMENT_NOT_FOUND)) && repo.rows == old(repo.rows)
    ensures commentId in old(repo.rows) && old(repo.rows[commentId]).user.id != authUser.id ==>
      r == Err(InvalidRequest(NOT_COMMENT_WRITER)) && repo.rows == old(repo.rows)
    ensures commentId in old(repo.rows) && old(repo.rows[commentId]).user.id == authUser.id ==>
      && repo.rows == old(repo.rows)[commentId := old(repo.rows[commentId]).(contents := request.contents)]
      && r == Ok(CommentResponse(Some(commentId), request.contents, UserResponse(authUser.id, authUser.email)))
  {
    var comment :- FindCommentByIdOrElseThrow(repo, commentId);
    if !NullSafeEquals(comment.user.id, authUser.id) {
      return Err(InvalidRequest(NOT_COMMENT_WRITER));
    }
    comment := comment.(contents := request.contents);
    repo.rows := repo.rows[commentId := comment];
    r := Ok(CommentResponse(comment.id, comment.contents, UserResponse(authUser.id, authUser.email)));
  }

  /** `deleteComment(userId, commentId)`: removes the comment exactly when `userId` wrote it. */
  method DeleteComment(repo: CommentRepository, userId: NullableId, commentId: int) returns (r: Outcome)
    requires repo.Valid()
    modifies repo
    ensures repo.Valid() && repo.nextId == old(repo.nextId)
    ensures commentId !in old(repo.rows) ==>
      r == Fail(InvalidRequest(COMMENT_NOT_FOUND)) && repo.rows == old(repo.rows)
    ensures commentId in old(repo.rows) && old(repo.rows[commentId]).user.id != userId ==>
      r == Fail(InvalidRequest(NOT_COMMENT_WRITER)) && repo.rows == old(repo.rows)
    ensures commentId in old(repo.rows) && old(repo.rows[commentId]).user.id == userId ==>
      r == Pass && repo.rows == old(repo.rows) - {commentId}
  {
    var found := FindCommentByIdOrElseThrow(repo, commentId);
    if found.Err? {
      return Fail(found.error);
    }
    if !NullSafeEquals(found.value.user.id, userId) {
      return Fail(InvalidRequest(NOT_COMMENT_WRITER));
    }
    repo.rows := repo.rows - {commentId};
    r := Pass;
  }
}

/** CommentAdminService (comment/service/CommentAdminService.java). */
module CommentAdminService {
  import opened Common
  import opened Comments
  import CommentService

  /**
   * `deleteComment(commentId)`: fails, deleting nothing, when the comment
   * does not exist; otherwise removes it with no owner check. Every other
   * comment is kept.
   */
  method DeleteComment(repo: CommentRepository, commentId: int) returns (r: Outcome)
    requires repo.Valid()
    modifies repo
    ensures repo.Valid() && repo.nextId == old(repo.nextId)
    ensures commentId !in old(repo.rows) ==>
      r == Fail(InvalidRequest(CommentService.COMMENT_NOT_FOUND)) && repo.rows == old(repo.rows)
    ensures commentId in old(repo.rows) ==> r == Pass && repo.rows == old(repo.rows) - {commentId}
  {
    var found := CommentService.FindCommentByIdOrElseThrow(repo, commentId);
    if found.Err? {
      return Fail(found.error);
    }
    repo.rows := repo.rows - {commentId};
    r := Pass;
  }
}
