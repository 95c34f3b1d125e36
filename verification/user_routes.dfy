/**
 * backend/src/routes/user.js: the routes behind the user guard. Both read
 * the row of the id in the caller's token afresh from the table; the token's
 * own status is never consulted.
 */
module UserRoutes {
  import opened Common
  import opened Schema
  import opened Errors
  import opened UserModel
  import opened AuthService
  import opened ErrorHandler
  import opened Http

  /** GET /profile: the caller's row without its password hash, or 404 when the id is gone. */
  function Profile(rows: map<int, UserRow>, principal: Claims): (r: Response)
    ensures r.code == 404 <==> principal.id !in rows
    ensures r.code == 404 ==> r.body == ErrorBody("User not found")
    ensures r.code != 404 ==> r == Response(200, ProfileBody(ViewOf(rows[principal.id])))
  {
    match FindById(rows, principal.id)
    case None => Response(404, ErrorBody("User not found"))
    case Some(user) => Response(200, ProfileBody(user))
  }

  /**
   * GET /status: the status and approval time read from the table. There is
   * no 404 branch: for an id that is gone, reading `user.status` of
   * `undefined` throws and the error handler answers 500.
   */
  function StatusOf(rows: map<int, UserRow>, principal: Claims): (r: Response)
    ensures principal.id in rows ==> r == Response(200, StatusBody(rows[principal.id].status, rows[principal.id].approvedAt))
    ensures principal.id !in rows ==> r == Response(500, ErrorBody("Cannot read properties of undefined (reading 'status')"))
  {
    match FindById(rows, principal.id)
    case None => HandleError(ReadOfUndefined("status"))
    case Some(user) => Response(200, StatusBody(user.status, user.approvedAt))
  }

  /** Both routes answer from the table, not from the token: the claims other than the id do not matter. */
  lemma AnswersIgnoreTokenClaims(rows: map<int, UserRow>, principal: Claims, email: string, role: Role, status: Status)
    ensures var p := principal.(email := email, role := role, status := status);
            Profile(rows, p) == Profile(rows, principal) && StatusOf(rows, p) == StatusOf(rows, principal)
  {
  }

  /** A user approved after the token was issued sees APPROVED through a token that still says PENDING. */
  lemma StaleTokenSeesFreshStatus(s: UserModel.Snapshot, userId: int, actorId: int, principal: Claims)
    requires userId in s.rows && s.rows[userId].status == Pending && principal.id == userId && principal.status == Pending
    ensures var rows' := s.rows[userId := Stamp(s.rows[userId], Approved, Some(actorId), s.clock)];
            StatusOf(rows', principal) == Response(200, StatusBody(Approved, Some(s.clock)))
  {
  }

  /** The fallback answer for a vanished user is a server error, never a 404. */
  lemma VanishedUserStatusIs500(rows: map<int, UserRow>, principal: Claims)
    requires principal.id !in rows
    ensures StatusOf(rows, principal).code == 500 && Profile(rows, principal).code == 404
  {
    assert HandleError(ReadOfUndefined("status")).code == 500;
  }
}
