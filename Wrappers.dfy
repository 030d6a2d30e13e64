/** Absent values and thrown errors, as data. */
module Wrappers {

  /** A value that may be `undefined`/`null` in the source. */
  datatype Option<+T> = None | Some(value: T) {
    function GetOr(default: T): T {
      match this
      case Some(v) => v
      case None => default
    }
  }

  /** The outcome of a computation that may throw an error of type `E`. */
  datatype Result<+T, +E> = Ok(value: T) | Err(error: E)
}
