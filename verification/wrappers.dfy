/** Failure-carrying values shared by every module of the model: the source
    signals its error paths with exceptions (ValidationError, DoesNotExist,
    database constraint violations); here they are ordinary results. */
module Wrappers {

  /** A value that may be absent (Python's None). */
  datatype Option<+T> = None | Some(value: T) {

    /** The carried value, or `default` when absent. */
    function GetOr(default: T): T {
      match this
      case Some(v) => v
      case None => default
    }
  }

  /** Either the value an operation computes or the error it raises. */
  datatype Result<+T, +E> = Ok(value: T) | Err(error: E)

  /** The result of a check that either passes or names what is wrong. */
  datatype Outcome<+E> = Pass | Fail(error: E)
}
