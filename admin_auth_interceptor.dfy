/**
 * AdminAuthInterceptor (config/AdminAuthInterceptor.java): the gate in front
 * of the admin endpoints. It reads the `userRole` request attribute and
 * nothing else; its log lines are left out.
 */
module AdminAuthInterceptor {
  import opened Common
  import opened Users

  const NON_ADMIN_ACCESS: string := "관리자가 아닌 사용자 접근"

  /**
   * `preHandle`: lets the request through (true) exactly when the attribute
   * parses to ADMIN. Any other role is denied by throwing the gate's own
   * AuthException, never by returning false; a parse failure propagates.
   */
  function PreHandle(userRoleAttribute: string, roleOf: RoleParser): (r: Result<bool>)
    ensures r == Ok(true) <==> roleOf(userRoleAttribute) == Ok(ADMIN)
    ensures r != Ok(false)
    ensures roleOf(userRoleAttribute).Ok? && roleOf(userRoleAttribute).value != ADMIN ==>
      r == Err(AccessDenied(NON_ADMIN_ACCESS))
    ensures roleOf(userRoleAttribute).Err? ==> r == Err(roleOf(userRoleAttribute).error)
  {
    match roleOf(userRoleAttribute)
    case Err(e) => Err(e)
    case Ok(userRole) =>
      if ADMIN != userRole then Err(AccessDenied(NON_ADMIN_ACCESS)) else Ok(true)
  }
}
