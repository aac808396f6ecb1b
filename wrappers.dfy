/** Option and Result, the failure-carrying values the model uses in place of
    Python's None and exceptions. */
module Wrappers {

  datatype Option<+T> = None | Some(value: T) {
    /** The value, or `default` when there is none (Python's `x or default`). */
    function GetOr(default: T): T {
      match this
      case Some(v) => v
      case None => default
    }
  }

  datatype Result<+T, +E> = Ok(value: T) | Err(error: E) {
    /** The success value, if any. */
    function ToOption(): Option<T> {
      match this
      case Ok(v) => Some(v)
      case Err(_) => None
    }

    /** The error, if any. */
    function ErrorOption(): Option<E> {
      match this
      case Ok(_) => None
      case Err(e) => Some(e)
    }
  }
}
