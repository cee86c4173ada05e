/** Option and Result, the shapes JavaScript expresses with `undefined` and `throw`. */
module Wrappers {

  /** `None` stands for a JavaScript value that is `undefined` (or absent). */
  datatype Option<+T> = None | Some(value: T) {
    function GetOr(default: T): T {
      match this
      case Some(v) => v
      case None => default
    }
  }

  /** `Failure` stands for an exception thrown with the given message. */
  datatype Result<+R, +E> = Success(value: R) | Failure(error: E)
}
