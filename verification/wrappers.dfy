/** Option and Result datatypes used for the nullable values and thrown errors of the system. */
module Wrappers {

  /** A value that may be absent: `null`/`undefined` in TypeScript, `null` in Java. */
  datatype Option<+T> = None | Some(value: T) {
    function GetOr(default: T): T {
      match this
      case Some(v) => v
      case None => default
    }
  }

  /** The outcome of an operation that either returns a value or throws. */
  datatype Result<+T, +E> = Ok(value: T) | Err(error: E)
}
