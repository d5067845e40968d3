/** Option and Result: the source's `None` returns and its raised exceptions. */
module Wrappers {

  datatype Option<+T> = None | Some(value: T) {
    function GetOr(default: T): T {
      match this
      case Some(v) => v
      case None => default
    }
  }

  /** `Failure(msg)` stands for an exception the source raises and does not catch. */
  datatype Result<+T> = Success(value: T) | Failure(error: string)
}
