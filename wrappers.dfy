/** Optional values and success/failure results shared by the other modules. */
module Wrappers {

  datatype Option<+T> = None | Some(value: T) {
    function GetOr(default: T): T {
      match this
      case Some(v) => v
      case None => default
    }
  }

  /** The outcome of an operation that either succeeds or raises one of the source's errors. */
  datatype Result<+T, +E> = Ok(value: T) | Err(error: E)
}
