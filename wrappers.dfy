/** Option and Result values for the source's `None` returns and raised exceptions. */
module Wrappers {

  datatype Option<+T> = None | Some(value: T) {
    function GetOr(default: T): T {
      match this
      case Some(v) => v
      case None => default
    }
  }

  /** An operation that either yields a value or raises; `Err` carries the exception's message. */
  datatype Result<+T> = Ok(value: T) | Err(error: string)
}
