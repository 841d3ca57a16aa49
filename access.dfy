/**
 * `UserRole` and the role requirements the routes put in front of their
 * handlers: an administrator passes every requirement, anyone else only the
 * one naming their own role.
 */
module Access {
  import opened Wrappers

  const UNAUTHORIZED := 401
  const FORBIDDEN := 403

  /** `UserRole` */
  datatype Role = Admin | User | Moderator

  /** The string value of a role, as stored in `users.role` and in tokens. */
  function RoleValue(r: Role): string
  {
    match r
    case Admin => "admin"
    case User => "user"
    case Moderator => "moderator"
  }

  /** `UserRole(s)`: the role whose value is `s`, if any. */
  function ParseRole(s: string): (r: Option<Role>)
    ensures r.Some? ==> RoleValue(r.value) == s
  {
    if s == "admin" then Some(Admin)
    else if s == "user" then Some(User)
    else if s == "moderator" then Some(Moderator)
    else None
  }

  /** Every role is recognised from its own value, so values and roles correspond one to one. */
  lemma RoleValueRoundTrip(r: Role)
    ensures ParseRole(RoleValue(r)) == Some(r)
  {
  }

  /** `TokenData`: who is calling. */
  datatype TokenData = TokenData(userId: int, email: string, role: Role)

  /** The outcome of a role requirement: the caller passes, or an `HTTPException`. */
  datatype Gate = Admitted(user: TokenData) | Refused(code: int, detail: string)

  /** The caller's role is the required one or administrator. */
  predicate HasRole(t: TokenData, required: Role)
  {
    t.role == required || t.role == Admin
  }

  /**
   * `require_role` of the route dependencies: a failed authentication or a
   * missing user is 401; a role other than the required one or administrator
   * is 403; otherwise the caller passes.
   */
  function RequireRole(required: Role, current: Option<TokenData>, authStatus: int): (g: Gate)
    ensures authStatus != 200 || current.None? ==> g == Refused(UNAUTHORIZED, "Authentication failed")
    ensures authStatus == 200 && current.Some? ==>
      (HasRole(current.value, required) <==> g == Admitted(current.value)) &&
      (!HasRole(current.value, required) <==> g == Refused(FORBIDDEN, "Insufficient permissions"))
  {
    if authStatus != 200 || current.None? then Refused(UNAUTHORIZED, "Authentication failed")
    else if current.value.role != required && current.value.role != Admin then Refused(FORBIDDEN, "Insufficient permissions")
    else Admitted(current.value)
  }

  /** `require_admin` */
  function RequireAdmin(current: Option<TokenData>, authStatus: int): Gate
  {
    RequireRole(Admin, current, authStatus)
  }

  /** `require_user` */
  function RequireUser(current: Option<TokenData>, authStatus: int): Gate
  {
    RequireRole(User, current, authStatus)
  }

  /** An authenticated administrator passes every role requirement. */
  lemma AdminPassesEveryRequirement(required: Role, t: TokenData)
    requires t.role == Admin
    ensures RequireRole(required, Some(t), 200) == Admitted(t)
  {
  }

  /**
   * `require_user` admits exactly users and administrators, and
   * `require_admin` exactly administrators: a moderator gets 403 from both.
   */
  lemma RequirementsByRole(t: TokenData)
    ensures RequireUser(Some(t), 200).Admitted? <==> t.role == User || t.role == Admin
    ensures RequireAdmin(Some(t), 200).Admitted? <==> t.role == Admin
    ensures t.role == Moderator ==>
      RequireUser(Some(t), 200).code == FORBIDDEN && RequireAdmin(Some(t), 200).code == FORBIDDEN
  {
  }

  /** Whoever passes `require_admin` passes every other requirement too. */
  lemma AdminRequirementIsStrictest(required: Role, current: Option<TokenData>, authStatus: int)
    requires RequireAdmin(current, authStatus).Admitted?
    ensures RequireRole(required, current, authStatus) == RequireAdmin(current, authStatus)
  {
  }

  /**
   * `role_checker` of the user routes, whose caller the token dependency has
   * already authenticated: the required role or administrator passes,
   * everyone else gets 403.
   */
  function RoleChecker(required: Role, current: TokenData): (g: Gate)
    ensures g.Admitted? <==> HasRole(current, required)
    ensures g.Refused? ==> g.code == FORBIDDEN
  {
    if current.role != required && current.role != Admin then Refused(FORBIDDEN, "Insufficient permissions")
    else Admitted(current)
  }

  /** For an authenticated caller the two role checks of the code base agree. */
  lemma RoleCheckersAgree(required: Role, t: TokenData)
    ensures RoleChecker(required, t) == RequireRole(required, Some(t), 200)
  {
  }
}
