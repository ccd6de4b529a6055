# Authentication, admin gate and owner-guarded CRUD of `spring-advanced`, in Dafny

This project models the deterministic core of a Spring Boot todo application:

- the refresh-token lifecycle (`RefreshToken`, `TokenService`);
- sign-up and sign-in (`AuthService`);
- the `User` entity and the administrator's role change (`User`, `UserAdminService`);
- the admin access gate (`AdminAuthInterceptor`);
- the mapping from exceptions to HTTP error bodies (`GlobalExceptionHandler`);
- owner-guarded create, read, update and delete on todos and comments, with their admin variants (`TodoService`, `TodoAdminService`, `CommentService`, `CommentAdminService`).

Each JPA repository is a class that holds a `map` from primary key to record, plus `nextId`, the database's IDENTITY counter. Every call is one atomic step on these maps.

Entities are modelled in two ways:

- `RefreshToken` and `User` are classes, because the source overwrites their fields in place (`updateStatus`, `updateRole`, `changePassword`). Each one has a `Row()` value view. Each repository has a `Records()` view of the whole table and a `Valid()` invariant: every key equals the id its entity carries, every key was issued by the counter, and emails and tokens are unique.
- Todo and comment rows are datatype values, because their entity classes are not part of this model. An in-place `update` replaces the row.

The refresh-token operations are first defined on the table as a value (`TokenTable`): `Created`, `Revoked` and `ReissueCheck`. `Step` and `Run` apply any sequence of service calls. The lifecycle properties are proved there:

- INVALIDATED is final;
- a row's owner and token never change;
- logout followed by reissue is refused;
- issuing a token supersedes nothing.

The repository methods are then proved to perform exactly those value operations.

External primitives are parameters, and nothing is assumed about them:

- `PasswordEncoder.encode` and `matches`;
- `JwtUtil.createToken` and `createAccessToken`;
- the random UUID of a new refresh token (assumed unused);
- today's weather;
- `UserRole.of`, whose source is not part of this model.

Nullable `Long` ids are `Option` values. So are the nullable text columns: a todo's title and contents, a comment's contents, and a user's stored password. Emails, the weather, the refresh token's UUID and the raw password passed to the public `User` constructor are plain strings (see "## Left out"). `ObjectUtils.nullSafeEquals` is `Common.NullSafeEquals`, which is proved to be plain equality of `Option`s, so two null ids compare equal.

Notable behaviours of the code:

- A new refresh token never replaces an older row of the same user. Older tokens stay usable (`TokenService.CreateDoesNotSupersede`).
- Logout looks the row up by its own primary key, not by the user id (`TokenService.RevokeKeyIsRowId`).
- `reissueToken` returns the owning user only. It creates no access or refresh token itself; `TokenService.ReissuedAccessToken` composes it with `createAccessToken`.
- `signup` returns a bearer token only. It creates no refresh token.
- Every failure the services raise themselves is an `InvalidRequestException` (HTTP 400) or an `AuthException` (HTTP 401). A failure of `UserRole.of` is passed on unchanged, as whatever error the parser yields.

## Model

| member | source | states |
|---|---|---|
| `Common.NullSafeEquals` | src/main/java/org/example/expert/domain/todo/service/TodoService.java:88 | the owner comparison holds exactly when the two nullable ids are equal, so two nulls compare equal |
| `Users.User.constructor` | src/main/java/org/example/expert/domain/user/entity/User.java:35-39 | a new user has the given email, password and role, no id yet, and empty `todos` and `managers` |
| `Users.User.FromIdentity` | src/main/java/org/example/expert/domain/user/entity/User.java:41-45 | the private constructor sets id, email and role and leaves the password null |
| `Users.FromAuthUser` | src/main/java/org/example/expert/domain/user/entity/User.java:47-49 | the projected user has the identity's id, email and role and no password |
| `Users.User.ChangePassword` | src/main/java/org/example/expert/domain/user/entity/User.java:51-53 | the password becomes the argument; id, email and role are unchanged |
| `Users.User.UpdateRole` | src/main/java/org/example/expert/domain/user/entity/User.java:55-57 | the role becomes the argument; id, email and password are unchanged |
| `Users.UserRepository.ExistsByEmail` | src/main/java/org/example/expert/domain/auth/service/AuthService.java:29 | true exactly when some stored user has the email |
| `Users.UserRepository.FindByEmail` | src/main/java/org/example/expert/domain/auth/service/AuthService.java:67 | returns a stored user with that email, or nothing exactly when none has it |
| `Users.UserRepository.Save` | src/main/java/org/example/expert/domain/auth/service/AuthService.java:42 | adds exactly one row, keyed by the next IDENTITY id, keeps every other row, and keeps emails unique |
| `Users.FindUserByIdOrElseThrow` | src/test/java/org/example/expert/domain/user/service/UserServiceTest.java:52-61 | the user stored under the id, or InvalidRequestException "User not found" exactly when there is none |
| `RefreshTokens.WithStatus` | src/main/java/org/example/expert/domain/auth/entity/RefreshToken.java:37-39 | a status update sets the status and keeps owner and token |
| `RefreshTokens.WithStatusIdempotent` | src/main/java/org/example/expert/domain/auth/entity/RefreshToken.java:37-39 | applying the same status twice equals applying it once |
| `RefreshTokens.RefreshToken.constructor` | src/main/java/org/example/expert/domain/auth/entity/RefreshToken.java:31-35 | a new token records exactly the given user id and the drawn UUID, is VALID and has no id yet; owner and token are `const`, so nothing else ever writes them |
| `RefreshTokens.RefreshToken.UpdateStatus` | src/main/java/org/example/expert/domain/auth/entity/RefreshToken.java:37-39 | sets the status and leaves id, owner and token unchanged |
| `RefreshTokens.RefreshTokenRepository.Save` | src/main/java/org/example/expert/domain/auth/service/TokenService.java:30 | adds exactly one row under the next IDENTITY id and keeps every other row and the table invariant |
| `RefreshTokens.RefreshTokenRepository.FindById` | src/main/java/org/example/expert/domain/auth/service/TokenService.java:36 | returns the row whose primary key is the argument, or nothing exactly when there is none |
| `RefreshTokens.RefreshTokenRepository.FindByToken` | src/main/java/org/example/expert/domain/auth/service/TokenService.java:44 | returns the row holding the token string, or nothing exactly when no row holds it |
| `TokenService.StepKeepsRow` | src/main/java/org/example/expert/domain/auth/service/TokenService.java:28-52 | one service call keeps every existing row with its owner and token and never turns INVALIDATED back to VALID |
| `TokenService.RunKeepsRow` | src/main/java/org/example/expert/domain/auth/service/TokenService.java:28-52 | over any sequence of calls, rows persist, owner and token never change, and INVALIDATED is absorbing, because only INVALIDATED is ever written (line 38) |
| `TokenService.ReissueCheckByRow` | src/main/java/org/example/expert/domain/auth/service/TokenService.java:44-51 | with unique tokens, reissue refuses an INVALIDATED row as expired and otherwise yields that row's owner id |
| `TokenService.ReissueCheckUnknownToken` | src/main/java/org/example/expert/domain/auth/service/TokenService.java:44-45 | a token no row holds is refused with InvalidRequestException |
| `TokenService.RevokedKeepsWf` | src/main/java/org/example/expert/domain/auth/service/TokenService.java:35-39 | revocation keeps every key and token, so the table invariant holds afterwards |
| `TokenService.RevokeThenReissueFails` | src/main/java/org/example/expert/domain/auth/service/TokenService.java:35-49 | revoking an existing key succeeds, and then reissue with that row's token is refused as expired |
| `TokenService.RevokeIsIdempotent` | src/main/java/org/example/expert/domain/auth/service/TokenService.java:35-39 | a second revocation of the same key also succeeds and changes nothing more |
| `TokenService.RevokeKeyIsRowId` | src/main/java/org/example/expert/domain/auth/service/TokenService.java:36 | logout looks up a row's primary key, not its owner: a user id that is no row key fails, and revoking key 1 invalidates user 2's token |
| `TokenService.CreateDoesNotSupersede` | src/main/java/org/example/expert/domain/auth/service/TokenService.java:28-32 | issuing keeps every earlier row, same user included; reissue judges every earlier token exactly as before and accepts the new one for its user |
| `TokenService.ReissuedAccessToken` | src/main/java/org/example/expert/domain/auth/service/TokenService.java:24-52 | `reissueToken` followed by `createAccessToken`: for the row holding the presented token, the result is refused as expired when that row is INVALIDATED; it succeeds exactly when the row is VALID and its owner is a stored user; and the access token is then signed over the owner id recorded in the credential and that user's email and role. An unknown token is refused |
| `TokenService.CreateRefreshToken` | src/main/java/org/example/expert/domain/auth/service/TokenService.java:28-32 | adds exactly one VALID row for the user's id under a new key, changes no existing row, and returns its token string |
| `TokenService.RevokeRefreshToken` | src/main/java/org/example/expert/domain/auth/service/TokenService.java:35-39 | fails with InvalidRequestException when no row has the primary key, changing nothing; otherwise sets that row to INVALIDATED and changes no other row |
| `TokenService.ReissueToken` | src/main/java/org/example/expert/domain/auth/service/TokenService.java:41-52 | refuses an unknown token or an INVALIDATED row with InvalidRequestException; otherwise returns the user whose id is the row's owner; changes nothing |
| `AuthService.Signup` | src/main/java/org/example/expert/domain/auth/service/AuthService.java:27-50 | a registered email fails with InvalidRequestException and saves nothing; otherwise saves exactly one user with the email, `encode(password)` and `UserRole.of(requested)` (any role), and returns a token over the new id, email and role |
| `AuthService.FindUserByEmailOrElseThrow` | src/main/java/org/example/expert/domain/auth/service/AuthService.java:66-69 | the stored user with that email, or InvalidRequestException exactly when none has it |
| `AuthService.Signin` | src/main/java/org/example/expert/domain/auth/service/AuthService.java:53-64 | an unknown email fails with InvalidRequestException; a password `matches` rejects fails with AuthException exactly then; otherwise a token over the stored user's id, email and role; the table is not modified |
| `AuthService.SignupThenSignin` | src/main/java/org/example/expert/domain/auth/service/AuthService.java:27-64 | after sign-up, sign-in with the same password succeeds with the same claims, for any encoder whose `matches` accepts `encode(password)` |
| `UserAdminService.ChangeUserRole` | src/main/java/org/example/expert/domain/user/service/UserAdminService.java:17-20 | an unknown id fails and changes nothing; otherwise that user's role becomes `UserRole.of(role)`, its email and password stay, and no other user changes; no user's `todos` or `managers` change |
| `AdminAuthInterceptor.PreHandle` | src/main/java/org/example/expert/config/AdminAuthInterceptor.java:19-30 | allows (true) exactly when the attribute parses to ADMIN, by a single equality; any other role throws the gate's AuthException; it never returns false and reads only |
| `GlobalExceptionHandler.GetErrorResponse` | src/main/java/org/example/expert/config/exception/GlobalExceptionHandler.java:47-54 | the body has exactly the keys status, code and message, holding the status name, its numeric value and the message; the response carries that status |
| `GlobalExceptionHandler.NamesAndValuesDistinct` | src/main/java/org/example/expert/config/exception/GlobalExceptionHandler.java:49-50 | distinct statuses have distinct names and distinct codes |
| `GlobalExceptionHandler.ErrorBodyDeterminesStatus` | src/main/java/org/example/expert/config/exception/GlobalExceptionHandler.java:47-54 | two equal error bodies were built from the same status and message |
| `GlobalExceptionHandler.ValidationMessages` | src/main/java/org/example/expert/config/exception/GlobalExceptionHandler.java:39-42 | one `field + ": " + message` string per field error, in field-error order |
| `GlobalExceptionHandler.Handle` | src/main/java/org/example/expert/config/exception/GlobalExceptionHandler.java:19-45 | InvalidRequestException maps to 400 BAD_REQUEST, AuthException to 401 UNAUTHORIZED, ServerException to 500 INTERNAL_SERVER_ERROR, a validation failure to 400 with the message list; messages pass through unchanged; the gate's AuthException has no handler here |
| `Todos.TodoRepository.Save` | src/main/java/org/example/expert/domain/todo/service/TodoService.java:41 | adds exactly one row under the next IDENTITY id and keeps every other row |
| `TodoService.Merge` | src/main/java/org/example/expert/domain/todo/service/TodoService.java:92-93 | a null request value keeps the stored one; a non-null one replaces it |
| `TodoService.UpdatedKeepsOwnerAndWeather` | src/main/java/org/example/expert/domain/todo/service/TodoService.java:92-95 | an update changes title and contents only; a request of two nulls changes nothing; repeating an update changes nothing more |
| `TodoService.FindTodoByIdOrElseThrow` | src/main/java/org/example/expert/domain/todo/service/TodoService.java:118-121 | the stored todo with that id, or InvalidRequestException "Todo not found" exactly when there is none |
| `TodoService.SaveTodo` | src/main/java/org/example/expert/domain/todo/service/TodoService.java:30-50 | inserts one todo owned by the caller, with the request's title and contents and the weather, keeps every other todo, and echoes them |
| `TodoService.GetTodo` | src/main/java/org/example/expert/domain/todo/service/TodoService.java:68-82 | returns the stored fields and the owner's id and email, or fails when the todo is missing; reads only |
| `TodoService.UpdateTodo` | src/main/java/org/example/expert/domain/todo/service/TodoService.java:85-106 | a missing todo or another owner fails with InvalidRequestException and changes nothing; otherwise null-merges title and contents, never changes weather or owner, and changes no other todo |
| `TodoService.DeleteTodo` | src/main/java/org/example/expert/domain/todo/service/TodoService.java:109-116 | removes the todo exactly when its owner id equals the caller's; otherwise fails and the table is unchanged |
| `TodoAdminService.DeleteTodo` | src/main/java/org/example/expert/domain/todo/service/TodoAdminService.java:13-15 | removes the todo under the id, with no lookup and no owner check; all other todos are unchanged |
| `Comments.CommentRepository.Save` | src/main/java/org/example/expert/domain/comment/service/CommentService.java:40 | adds exactly one row under the next IDENTITY id and keeps every other row |
| `CommentService.FindCommentByIdOrElseThrow` | src/main/java/org/example/expert/domain/comment/service/CommentService.java:92-95 | the stored comment with that id, or InvalidRequestException "Comment not found" exactly when there is none |
| `CommentService.SaveComment` | src/main/java/org/example/expert/domain/comment/service/CommentService.java:30-47 | fails and saves nothing when the todo is missing; otherwise inserts one comment with the request's contents, the caller as author and the found todo |
| `CommentService.GetComments` | src/main/java/org/example/expert/domain/comment/service/CommentService.java:50-64 | one response per listed comment, in the same order, with the same id, contents and author; every stored comment of the todo gets one when the query lists them |
| `CommentService.UpdateComment` | src/main/java/org/example/expert/domain/comment/service/CommentService.java:67-80 | a missing comment or another author fails and changes nothing; otherwise the contents become exactly the request's, null included, and nothing else changes |
| `CommentService.DeleteComment` | src/main/java/org/example/expert/domain/comment/service/CommentService.java:83-90 | removes the comment exactly when the caller wrote it; otherwise fails and the table is unchanged |
| `CommentAdminService.DeleteComment` | src/main/java/org/example/expert/domain/comment/service/CommentAdminService.java:16-19 | a missing comment fails with "Comment not found" and nothing is deleted; otherwise removes it with no owner check, keeping all others |

## Left out

- The HTTP layer: controllers, `WebConfig` (including the `/admin/**` path pattern), `LoggingInterceptor` and the gate's log lines.
- `AuthController`'s calls to `login`, `logout` and `reissueAccessToken`: `AuthService` defines none of them, so they are not modelled.
- `getTodos`: it is Spring Data paging ordered by modification time.
- The `createdAt` and `modifiedAt` timestamps: responses omit them.
- Password hashing, JWT signing, UUID generation, the weather client and `UserRole.of` are parameters with no assumed properties. The only exception is that a new refresh token's UUID is assumed to be unused.
- UserService is not part of this model. Its `findUserByIdOrElseThrow` is the lookup its tests describe, and a null id is treated as not found.
- ManagerService is not part of this model.
- The Todo and Comment entity classes are not part of this model. Their rows are values, so in-place updates through aliases of the same entity are not captured. A row refers to its user by id and email and to its todo by id. The JPA cascades on `User.todos` and `User.managers` are not modelled.
- `findByTodoIdWithUser` is an external query. `CommentService.GetComments` receives its result as a list, and `Comments.IsCommentsOfTodo` states what that list is expected to be.
- Null `Long` ids where the source unboxes them or passes them to `findById`. This covers `revokeRefreshToken`, `updateTodo`, `deleteTodo`'s `todoId` (unboxed into `findTodoByIdOrElseThrow(long)`), `updateComment`, `deleteComment`'s `commentId` and `findCommentByIdOrElseThrow`. These raise framework exceptions outside the modelled kinds, so those ids are plain integers.
- A null email, weather string, refresh-token UUID or raw password given to the public `User` constructor: these are plain strings in the model.
- A null default message in a field error: `ValidationMessages` takes it as a string, so the text "null" that Java's string concatenation would produce is not modelled.
- `UserRole.of` is given an attribute string. A missing `userRole` request attribute (null) is not modelled.
- Bean-validation annotations on the request DTOs.
- `@Transactional` semantics, concurrency and persistence flushing: each operation is one atomic step.
- Spring Data `deleteById` on a missing id is modelled as deleting nothing.
