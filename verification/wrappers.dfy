/** Failure-compatible wrappers shared by every module of the model:
    `Option` stands for Python's `None`-or-value, `Result` for a value or a raised exception. */
module Wrappers {

  datatype Option<+T> = None | Some(value: T) {
    /** The wrapped value, or `default` for `None`. */
    function GetOr(default: T): T {
      match this
      case Some(v) => v
      case None => default
    }
  }

  datatype Result<+R, +E> = Success(value: R) | Failure(error: E)
}
