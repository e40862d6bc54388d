/** The session and the two guards every protected route runs first. */
module Gate {
  import opened Wrappers
  import opened Http

  /** What login and registration store in `req.session.user`. */
  datatype SessionUser = SessionUser(
    id: int, role: string, fullName: string, groupName: Option<string>, subject: Option<string>)

  /** `req.session`: the signed-in user, if any. */
  class Session {
    var user: Option<SessionUser>

    constructor ()
      ensures user.None?
    {
      user := None;
    }
  }

  /** `requireAuth`: `None` lets the request through (`next()`), otherwise the answer it gets. */
  function RequireAuth(user: Option<SessionUser>): (stop: Option<Outcome>)
    ensures stop.None? <==> user.Some?
    ensures stop.Some? ==> stop.value == ToLogin
  {
    if user.None? then Some(ToLogin) else None
  }

  /** `requireRole(...roles)`: signed-out users go to the login page, other roles get 403. */
  function RequireRole(roles: seq<string>, user: Option<SessionUser>): (stop: Option<Outcome>)
    ensures stop.None? <==> user.Some? && user.value.role in roles
    ensures stop == Some(ToLogin) <==> user.None?
    ensures stop == Some(Forbidden) <==> user.Some? && user.value.role !in roles
  {
    if user.None? then Some(ToLogin)
    else if user.value.role !in roles then Some(Forbidden)
    else None
  }

  /** A request `requireRole` lets through also passes `requireAuth`, and so does one with more roles allowed. */
  lemma RoleGateStronger(roles: seq<string>, more: seq<string>, user: Option<SessionUser>)
    requires forall r :: r in roles ==> r in more
    ensures RequireRole(roles, user).None? ==> RequireAuth(user).None? && RequireRole(more, user).None?
  {
  }
}
