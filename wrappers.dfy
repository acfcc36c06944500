/** Optional values and results shared by every module of the model. */
module Wrappers {

  /** A value that may be absent: JavaScript's `null`/`undefined`, Python's `None`. */
  datatype Option<+T> = None | Some(value: T) {
    function GetOr(default: T): T {
      match this
      case Some(v) => v
      case None => default
    }
  }

  /** The outcome of an operation that can raise an exception. */
  datatype Result<+T> = Ok(value: T) | Err(message: string)
}
