/** Small value wrappers shared by every module of the model. */
module Common {

  /** A value that may be absent: SQL NULL, a JavaScript `null`/`undefined`, an empty query result. */
  datatype Option<T> = None | Some(value: T)

  /** The outcome of an operation that can throw: the value, or what was thrown. */
  datatype Result<T, E> = Success(value: T) | Failure(error: E)

  function Min(a: int, b: int): int
  {
    if a < b then a else b
  }
}
