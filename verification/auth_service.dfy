/**
 * The visible contracts of backend/src/services/authService.js. bcrypt and
 * jsonwebtoken are foreign code: hashing is a function passed in by the
 * caller, and a signed token is represented by the claims it carries.
 */
module AuthService {
  import opened Common
  import opened Schema
  import opened Errors

  /** The payload generateToken signs: id, email, role and status, nothing else. */
  datatype Claims = Claims(id: int, email: string, role: Role, status: Status)

  /** A token signed with the server secret (24h expiry); signature and expiry are not modelled. */
  datatype Token = Signed(claims: Claims)

  /**
   * hashPassword: refuses an empty or shorter-than-8 password with a plain
   * Error, otherwise returns bcrypt's hash of it.
   */
  function HashPassword(password: string, bcrypt: string -> string): (r: Result<string, JsError>)
    ensures r.Success? <==> |password| >= 8
    ensures r.Success? ==> r.value == bcrypt(password)
    ensures r.Failure? ==> r.error == PlainError("Password must be at least 8 characters")
  {
    if |password| < 8 then Failure(PlainError("Password must be at least 8 characters"))
    else Success(bcrypt(password))
  }

  /** generateToken: the claims are a snapshot of the row's id, email, role and status at signing time. */
  function GenerateToken(row: UserRow): (t: Token)
    ensures t.claims.id == row.id && t.claims.email == row.email
    ensures t.claims.role == row.role && t.claims.status == row.status
  {
    Signed(Claims(row.id, row.email, row.role, row.status))
  }
}
