/**
 * The session the authentication library hands to a handler, and the two
 * role gates the handlers apply to it.
 */
module Auth {
  import opened Schema

  /**
   * The user part of a session. The session stores the user id as a string;
   * parsedId is what parseInt makes of it, None standing for NaN.
   */
  datatype SessionUser = SessionUser(parsedId: Option<int>, role: Role)

  /**
   * getCommerceId followed by the handlers' `!comercioId` test: the caller's
   * commerce id, or None when there is no session, the role is not COMERCIO,
   * or the id parses to a falsy number (0 or NaN).
   */
  function CommerceId(session: Option<SessionUser>): (r: Option<int>)
    ensures session.None? ==> r.None?
    ensures session.Some? && session.value.role == ADMIN ==> r.None?
    ensures r.Some? ==> r.value != 0 && session == Some(SessionUser(Some(r.value), COMERCIO))
    ensures (session.Some? && session.value.role == COMERCIO && session.value.parsedId.Some?
             && session.value.parsedId.value != 0) ==> r.Some?
  {
    match session
    case None => None
    case Some(user) =>
      if user.role != COMERCIO then None
      else match user.parsedId
        case None => None
        case Some(id) => if id == 0 then None else Some(id)
  }

  /** checkAdmin: a session whose role is ADMIN. */
  predicate IsAdmin(session: Option<SessionUser>) {
    session.Some? && session.value.role == ADMIN
  }
}
