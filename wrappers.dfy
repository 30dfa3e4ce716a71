/** Optional values and results with an error message, shared by all modules. */
module Wrappers {

  datatype Option<+T> = None | Some(value: T) {
    function GetOr(default: T): T {
      match this
      case Some(v) => v
      case None => default
    }
  }

  /** The outcome of an operation that the source reports either as a value or as an error message. */
  datatype Result<+T> = Ok(value: T) | Err(message: string)
}
