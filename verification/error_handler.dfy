/**
 * backend/src/middleware/errorHandler.js: the last middleware, mapping an
 * error passed to `next(err)` to a status code and a JSON body. The rules
 * are tried in order and the first that matches answers.
 */
module ErrorHandler {
  import opened Common
  import opened Errors
  import opened Http

  /** JavaScript truthiness of `err.statusCode`: present and not 0. */
  predicate StatusCodeSet(err: JsError)
  {
    err.statusCode.Some? && err.statusCode.value != 0
  }

  /** The status code the fallback rule answers with: `err.statusCode || 500`. */
  function FallbackCode(err: JsError): int
  {
    if StatusCodeSet(err) then err.statusCode.value else 500
  }

  function HandleError(err: JsError): (r: Response)
    // only a validation error carries details, and it carries its own
    ensures r.body.ValidationFailed? <==> err.name == "ValidationError"
    ensures r.body.ValidationFailed? ==> r == Response(400, ValidationFailed(err.details))
    // every other error answers `{ error }` with a non-empty string
    ensures !r.body.ValidationFailed? ==> r.body.ErrorBody? && r.body.error != ""
    // the code is one of the handler's own, or the error's statusCode
    ensures r.code in {400, 401, 409, 500} || (StatusCodeSet(err) && r.code == err.statusCode.value)
    // a unique violation is a conflict unless the name matched first
    ensures err.name != "ValidationError" && err.name != "UnauthorizedError" && err.code == Some("23505") ==>
              r == Response(409, ErrorBody("Resource already exists"))
  {
    if err.name == "ValidationError" then Response(400, ValidationFailed(err.details))
    else if err.name == "UnauthorizedError" then Response(401, ErrorBody("Unauthorized"))
    else if err.code == Some("23505") then Response(409, ErrorBody("Resource already exists"))
    else if err.code == Some("23503") then Response(400, ErrorBody("Invalid reference"))
    else Response(FallbackCode(err), ErrorBody(if err.message != "" then err.message else "Internal server error"))
  }

  /** A name match beats a code match: the SQLSTATE code and statusCode of a ValidationError or UnauthorizedError do not matter. */
  lemma NameBeatsCode(err: JsError, code: Option<string>, statusCode: Option<int>)
    requires err.name == "ValidationError" || err.name == "UnauthorizedError"
    ensures HandleError(err.(code := code, statusCode := statusCode)) == HandleError(err)
    ensures err.name == "UnauthorizedError" ==> HandleError(err) == Response(401, ErrorBody("Unauthorized"))
  {
  }

  /** A foreign-key violation answers 400 "Invalid reference" whatever its statusCode and message. */
  lemma ForeignKeyViolation(message: string, statusCode: Option<int>)
    ensures HandleError(PgError("23503", message).(statusCode := statusCode)) == Response(400, ErrorBody("Invalid reference"))
  {
  }

  /** An error matching no rule answers its statusCode (500 when unset or 0) and its message (a fixed text when empty). */
  lemma Fallback(err: JsError)
    requires err.name != "ValidationError" && err.name != "UnauthorizedError"
    requires err.code != Some("23505") && err.code != Some("23503")
    ensures HandleError(err).code == (if StatusCodeSet(err) then err.statusCode.value else 500)
    ensures HandleError(err).body == ErrorBody(if err.message == "" then "Internal server error" else err.message)
  {
  }

  /** The unique violation of the users' email constraint reaches the client as 409. */
  lemma EmailConflictIs409()
    ensures HandleError(EmailUniqueViolation()) == Response(409, ErrorBody("Resource already exists"))
  {
  }
}
