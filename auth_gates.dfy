/** The session gates put in front of routes: `requireAuth`,
    `redirectIfAuthed` and `requireRoles(...roles)`. Each decides, from the
    session alone, whether the request goes on to the handler. */
module AuthGates {
  import opened Domain

  /** What a gate does with a request: hand it to `next`, redirect, or answer
      with an HTTP status and a body. */
  datatype Gate = Next | Redirect(location: string) | Refuse(status: int, body: string)

  /** `requireAuth`: a signed-in caller proceeds, anyone else is sent to sign in. */
  function RequireAuth(session: Session): (g: Gate)
    ensures g == Next <==> session.Some?
    ensures g != Next ==> g == Redirect("/login")
  {
    if session.Some? then Next else Redirect("/login")
  }

  /** `redirectIfAuthed`: guards the sign-in page; a signed-in caller is sent
      to the dashboard. */
  function RedirectIfAuthed(session: Session): (g: Gate)
    ensures g == Next <==> session.None?
    ensures g != Next ==> g == Redirect("/dashboard")
  {
    if session.Some? then Redirect("/dashboard") else Next
  }

  /** `requireRoles(...roles)`: sign-in is checked first, then membership of
      the caller's role in the list. */
  function RequireRoles(roles: seq<Role>, session: Session): (g: Gate)
    ensures session.None? ==> g == Redirect("/login")
    ensures g == Next <==> session.Some? && session.value.role in roles
    ensures session.Some? && session.value.role !in roles ==> g == Refuse(403, "Forbidden")
  {
    if session.None? then Redirect("/login")
    else if session.value.role in roles then Next
    else Refuse(403, "Forbidden")
  }

  /** The two session gates are complements: exactly one of them lets a given
      request through. */
  lemma GatesComplementary(session: Session)
    ensures RequireAuth(session).Next? != RedirectIfAuthed(session).Next?
  {
  }

  /** `requireRoles()` with no roles lets nobody through: a signed-in caller
      gets 403, never a redirect to sign in. */
  lemma EmptyRoleListRejectsAll(session: Session)
    ensures session.Some? ==> RequireRoles([], session) == Refuse(403, "Forbidden")
    ensures session.None? ==> RequireRoles([], session) == Redirect("/login")
  {
  }

  /** Whatever the role list, a caller that `requireRoles` lets through would
      also have passed `requireAuth`. */
  lemma RequireRolesImpliesAuth(roles: seq<Role>, session: Session)
    ensures RequireRoles(roles, session).Next? ==> RequireAuth(session).Next?
  {
  }
}
