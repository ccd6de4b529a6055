/** UserAdminService (user/service/UserAdminService.java): an administrator changes a user's role. */
module UserAdminService {
  import opened Common
  import opened Users

  datatype UserRoleChangeRequest = UserRoleChangeRequest(role: string)

  /**
   * `changeUserRole(userId, request)`: the user under `userId` gets the role
   * `UserRole.of(request.role)`; its email and password, and every other
   * user, stay as they were. An unknown id or an unparsable role changes
   * nothing.
   */
  method ChangeUserRole(users: UserRepository, userId: int, request: UserRoleChangeRequest,
                        roleOf: RoleParser) returns (r: Outcome)
    requires users.Valid()
    modifies users.rows.Values
    ensures users.Valid()
    ensures userId !in old(users.rows) ==>
      r == Fail(InvalidRequest(USER_NOT_FOUND)) && users.Records() == old(users.Records())
    ensures userId in old(users.rows) && roleOf(request.role).Err? ==>
      r == Fail(roleOf(request.role).error) && users.Records() == old(users.Records())
    ensures userId in old(users.rows) && roleOf(request.role).Ok? ==>
      && r == Pass
      && users.Records() == old(users.Records())[userId := old(users.Records())[userId].(userRole := roleOf(request.role).value)]
    // The associations are left alone: no todo or manager is detached.
    ensures forall k | k in users.rows ::
      users.rows[k].todos == old(users.rows[k].todos) && users.rows[k].managers == old(users.rows[k].managers)
  {
    var found := FindUserByIdOrElseThrow(users, Some(userId));
    if found.Err? {
      return Fail(found.error);
    }
    var user := found.value;
    var parsed := roleOf(request.role);
    if parsed.Err? {
      return Fail(parsed.error);
    }
    ghost var before := users.Records();
    user.UpdateRole(parsed.value);
    forall k | k in users.rows && k != userId
      ensures users.rows[k].id == Some(k) && users.rows[k].Row() == before[k]
    {
      assert old(users.rows[k].id) != old(users.rows[userId].id);
    }
    RecordsFrom(users, before[userId := before[userId].(userRole := parsed.value)]);
    r := Pass;
  }
}
