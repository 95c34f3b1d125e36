/**
 * The HTTP responses of the backend's route handlers: a status code and the
 * JSON body `res.json(...)` sends, one constructor per body shape.
 */
module Http {
  import opened Common
  import opened Schema
  import opened UserModel
  import opened AuthService

  /** `{ id, email, status }`: the user as register, approve and reject report it. */
  datatype Brief = Brief(id: int, email: string, status: Status)

  /** The user projection of a successful login. */
  datatype LoginUser = LoginUser(id: int, email: string, firstName: string, lastName: string, role: Role, status: Status)

  datatype Body =
    | ErrorBody(error: string)                           // { error }
    | ValidationFailed(details: seq<string>)             // { error: 'Validation failed', details }
    | NotApproved(status: Status)                        // { error: 'Account not approved yet', status }
    | Registered(user: Brief)                            // { message: 'Registration successful. Awaiting admin approval.', user }
    | LoggedIn(token: Token, account: LoginUser)         // { token, user }
    | TokenVerdict(valid: bool, claims: Option<Claims>)  // { valid, user }
    | TokenMissing                                       // { valid: false }
    | PendingList(total: int, users: seq<PendingUser>)   // { total, users }
    | Decided(message: string, user: Brief)              // { message, user }
    | Stats(pending: int)                                // { stats: { pending } }
    | ProfileBody(profile: UserView)                     // { user }
    | StatusBody(status: Status, approvedAt: Option<nat>) // { status, approvedAt }

  datatype Response = Response(code: int, body: Body)
}
