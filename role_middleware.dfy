/** roleMiddleware(allowedRole) (src/middlewares/role.middleware.ts). */
module RoleMiddleware {
  import opened Wrappers
  import opened Schema
  import opened Http

  /** Either next() is called, or the request ends with a status and message. */
  datatype GateOutcome = Next | Stop(status: int, message: string)

  const UnauthorizedMessage := "Unauthorized"
  const ForbiddenMessage := "Forbidden: insufficient permissions"

  /** 401 without a user, 403 for any other role, next() otherwise: the
      match is exact, so no role stands above another. */
  function RoleGate(allowed: Role, user: Option<AuthUser>): (g: GateOutcome)
    ensures g == Next <==> user.Some? && user.value.role == allowed
    ensures user.None? ==> g == Stop(401, UnauthorizedMessage)
    ensures user.Some? && user.value.role != allowed ==> g == Stop(403, ForbiddenMessage)
  {
    if user.None? then Stop(401, UnauthorizedMessage)
    else if user.value.role != allowed then Stop(403, ForbiddenMessage)
    else Next
  }

  /** An admin does not pass a customer gate. */
  lemma NoRoleHierarchy(userId: int)
    ensures RoleGate(Customer, Some(AuthUser(userId, Admin))) == Stop(403, ForbiddenMessage)
    ensures RoleGate(Admin, Some(AuthUser(userId, Customer))) == Stop(403, ForbiddenMessage)
  {
  }
}
