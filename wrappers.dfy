/** Option and Result values: a missing Python value (`None`) and a raised exception. */
module Wrappers {

  datatype Option<+T> = None | Some(value: T) {
    function GetOr(default: T): T {
      match this
      case Some(v) => v
      case None => default
    }
  }

  /** `Err` carries the text of the exception the source raises. */
  datatype Result<+T> = Ok(value: T) | Err(msg: string)
}
