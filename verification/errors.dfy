/**
 * The error objects that reach backend/src/middleware/errorHandler.js: a
 * JavaScript `Error` with the fields the handler inspects.
 */
module Errors {
  import opened Common

  /**
   * `name` ("Error", "TypeError", "ValidationError", ...), the driver's
   * SQLSTATE `code`, an optional `statusCode`, the `message` and the
   * validation `details`.
   */
  datatype JsError = JsError(
    name: string,
    code: Option<string>,
    statusCode: Option<int>,
    message: string,
    details: seq<string>)

  /** An error raised by the Postgres driver: name "error" and a SQLSTATE code. */
  function PgError(code: string, message: string): JsError
  {
    JsError("error", Some(code), None, message, [])
  }

  /** INSERT of an email already present: SQLSTATE 23505 on the users_email_key constraint. */
  function EmailUniqueViolation(): JsError
  {
    PgError("23505", "duplicate key value violates unique constraint \"users_email_key\"")
  }

  /** A plain `new Error(message)`. */
  function PlainError(message: string): JsError
  {
    JsError("Error", None, None, message, [])
  }

  /** What JavaScript throws when a handler reads a property of `undefined`. */
  function ReadOfUndefined(property: string): JsError
  {
    JsError("TypeError", None, None, "Cannot read properties of undefined (reading '" + property + "')", [])
  }
}
