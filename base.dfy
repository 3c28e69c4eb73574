/** Outcomes shared by both repositories: the typed errors the models throw and
    the optional values a request may omit. */
module Base {

  /** The error classes the models throw (HTTP 404, 400 and 401 at the boundary). */
  datatype Error = NotFound | BadRequest | Unauthorized

  datatype Option<T> = None | Some(value: T)

  /** Either the value an operation returns or the error it throws. */
  datatype Result<T> = Ok(value: T) | Err(error: Error)

  /** The supplied value of a partial update, or the current one when none is supplied. */
  function Override<T>(current: T, supplied: Option<T>): T
  {
    if supplied.Some? then supplied.value else current
  }
}
