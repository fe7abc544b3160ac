/** Go's error-returning conventions, as values. */
module Results {

  /** A Go `error` value, identified by its message. */
  datatype Error = Error(message: string)

  /** What a Go function of result type `error` returns: nil (Pass) or an error. */
  datatype Outcome = Pass | Fail(error: Error)

  /** A Go `(T, error)` pair in which exactly one half is meaningful. */
  datatype Result<+T> = Ok(value: T) | Err(error: Error)

  /** A value that may be absent (a nil slice or an unset flag). */
  datatype Option<+T> = None | Some(value: T) {
    function GetOr(default: T): T {
      if Some? then value else default
    }
  }
}
