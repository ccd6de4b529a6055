/**
 * The `User` entity (user/entity/User.java), the user table it is stored in,
 * and the two user lookups the services depend on.
 */
module Users {
  import opened Common

  datatype UserRole = ADMIN | USER

  /**
   * `UserRole.of(String)`. Its body is not part of this model, so every
   * caller receives it as a parameter: it yields a role or throws.
   */
  type RoleParser = string -> Result<UserRole>

  /**
   * JwtUtil's token builders (`createToken`, `createAccessToken`): they sign
   * the claims (user id, email, role). Signing is not part of this model, so
   * callers receive them as parameters.
   */
  type ClaimsSigner = (NullableId, string, UserRole) -> string

  /** The request-scoped identity extracted from an access token. */
  datatype AuthUser = AuthUser(id: NullableId, email: string, userRole: UserRole)

  /** `UserResponse(id, email)`: the part of a user that responses echo. */
  datatype UserResponse = UserResponse(id: NullableId, email: string)

  /** A todo's or comment's associated user, by the two columns the services read. */
  datatype UserRef = UserRef(id: NullableId, email: string)

  /** The persisted columns of one user, as a value. */
  datatype UserRow = UserRow(email: string, password: NullableString, userRole: UserRole)

  class User {
    var id: NullableId
    const email: string
    var password: NullableString
    var userRole: UserRole
    // The two one-to-many associations, by the ids of the owned rows.
    var todos: seq<int>
    var managers: seq<int>

    function Row(): (r: UserRow)
      reads this
      ensures r.email == email && r.password == password && r.userRole == userRole
    {
      UserRow(email, password, userRole)
    }

    /** The public constructor: the id stays unset until the user is saved. */
    constructor (email: string, password: string, userRole: UserRole)
      ensures id == None
      ensures Row() == UserRow(email, Some(password), userRole)
      ensures todos == [] && managers == []
    {
      this.id := None;
      this.email := email;
      this.password := Some(password);
      this.userRole := userRole;
      this.todos := [];
      this.managers := [];
    }

    /** The private constructor behind `fromAuthUser`: no password. */
    constructor FromIdentity(id: NullableId, email: string, userRole: UserRole)
      ensures this.id == id
      ensures Row() == UserRow(email, None, userRole)
      ensures todos == [] && managers == []
    {
      this.id := id;
      this.email := email;
      this.password := None;
      this.userRole := userRole;
      this.todos := [];
      this.managers := [];
    }

    /** Overwrites the password; the id and every other column are kept. */
    method ChangePassword(password: string)
      modifies this`password
      ensures Row() == old(Row()).(password := Some(password))
      ensures id == old(id)
    {
      this.password := Some(password);
    }

    /** Overwrites the role; the id and every other column are kept. */
    method UpdateRole(userRole: UserRole)
      modifies this`userRole
      ensures Row() == old(Row()).(userRole := userRole)
      ensures id == old(id)
    {
      this.userRole := userRole;
    }
  }

  /** `User.fromAuthUser`: a detached user carrying the identity's id, email and role. */
  method FromAuthUser(authUser: AuthUser) returns (user: User)
    ensures fresh(user)
    ensures user.id == authUser.id && user.email == authUser.email
    ensures user.userRole == authUser.userRole && user.password == None
    ensures user.todos == [] && user.managers == []
  {
    user := new User.FromIdentity(authUser.id, authUser.email, authUser.userRole);
  }

  /**
   * The user table: rows keyed by their IDENTITY id, `nextId` the id the
   * database hands out next, and the unique constraint on `email`.
   */
  class UserRepository {
    var rows: map<int, User>
    var nextId: int

    ghost predicate Valid()
      reads this, rows.Values
    {
      && (forall k | k in rows :: rows[k].id == Some(k) && k < nextId)
      && EmailsUnique()
    }

    /** The unique constraint on `email` (a `const` column, so only the map is read). */
    ghost predicate EmailsUnique()
      reads this
    {
      forall i, j | i in rows && j in rows && rows[i].email == rows[j].email :: i == j
    }

    /** The table's contents as values. */
    ghost function Records(): (m: map<int, UserRow>)
      reads this, rows.Values
      ensures m.Keys == rows.Keys
    {
      map k | k in rows :: rows[k].Row()
    }

    ghost predicate HasEmail(email: string)
      reads this
    {
      exists k :: k in rows && rows[k].email == email
    }

    constructor ()
      ensures Valid() && rows == map[]
    {
      rows := map[];
      nextId := 1;
    }

    /** `existsByEmail`. */
    method ExistsByEmail(email: string) returns (b: bool)
      ensures b <==> HasEmail(email)
    {
      b := exists k :: k in rows && rows[k].email == email;
    }

    /** `findByEmail`: the one user with that email, if any. */
    method FindByEmail(email: string) returns (r: Option<User>)
      requires Valid()
      ensures r.None? <==> !HasEmail(email)
      ensures r.Some? ==> exists k :: k in rows && rows[k] == r.value && r.value.email == email
    {
      if exists k :: k in rows && rows[k].email == email {
        var k :| k in rows && rows[k].email == email;
        r := Some(rows[k]);
      } else {
        r := None;
      }
    }

    /**
     * `save` of a new user: the database assigns the next IDENTITY id.
     * A second row with the same email would break the unique constraint,
     * which the caller rules out first.
     */
    method Save(user: User)
      requires Valid() && user.id == None
      requires !HasEmail(user.email)
      modifies this, user`id
      ensures Valid()
      ensures user.id == Some(old(nextId)) && old(nextId) !in old(rows)
      ensures rows == old(rows)[old(nextId) := user] && nextId == old(nextId) + 1
      ensures Records() == old(Records())[old(nextId) := user.Row()]
    {
      ghost var before := Records();
      ghost var key := nextId;
      forall k | k in rows
        ensures rows[k] != user
      {
        assert rows[k].id == Some(k);
      }
      user.id := Some(nextId);
      rows := rows[nextId := user];
      nextId := nextId + 1;
      RecordsFrom(this, before[key := user.Row()]);
    }
  }

  /** `Records()` is the map of the rows' values, given pointwise. */
  lemma RecordsFrom(repo: UserRepository, m: map<int, UserRow>)
    requires repo.rows.Keys == m.Keys
    requires forall k | k in repo.rows :: repo.rows[k].Row() == m[k]
    ensures repo.Records() == m
  {
    var r := repo.Records();
    assert r.Keys == m.Keys;
    assert forall k | k in r :: r[k] == m[k];
  }

  const USER_NOT_FOUND: string := "User not found"

  /**
   * `UserService.findUserByIdOrElseThrow`. UserService itself is not part of
   * this model: this is the lookup its tests describe, failing with
   * InvalidRequestException when no stored user has the id (a null id
   * included, since every stored user has one).
   */
  method FindUserByIdOrElseThrow(users: UserRepository, userId: NullableId) returns (r: Result<User>)
    requires users.Valid()
    ensures r.Err? <==> userId.None? || userId.value !in users.rows
    ensures r.Err? ==> r.error == InvalidRequest(USER_NOT_FOUND)
    ensures r.Ok? ==> r.value == users.rows[userId.value] && r.value.id == userId
  {
    if userId.Some? && userId.value in users.rows {
      var k := userId.value;
      assert users.rows[k].id == Some(k);
      r := Ok(users.rows[k]);
    } else {
      r := Err(InvalidRequest(USER_NOT_FOUND));
    }
  }
}
