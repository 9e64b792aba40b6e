/** Failure-carrying values: the model's stand-in for Go's `(value, error)`
    pairs and for JavaScript exceptions. */
module Wrappers {

  datatype Option<+T> = None | Some(value: T) {
    /** The value, or `default` when there is none. */
    function GetOr(default: T): T {
      match this
      case Some(v) => v
      case None => default
    }
  }

  datatype Result<+T, +E> = Ok(value: T) | Err(error: E)

  /** An operation that returns only an error (Go's `error` result): `Pass` is `nil`. */
  datatype Outcome<+E> = Pass | Fail(error: E)
}
