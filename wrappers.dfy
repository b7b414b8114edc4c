/** Option and Result values used across the model for absent values, error paths and network outcomes. */
module Wrappers {

  datatype Option<+T> = None | Some(value: T) {
    /** The wrapped value, or `default` when absent (JavaScript's `x ?? default`). */
    function GetOr(default: T): T {
      match this
      case Some(v) => v
      case None => default
    }
  }

  /** Outcome of an operation that resolves with a value or rejects with an error message. */
  datatype Result<+R> = Ok(value: R) | Err(message: string)
}
