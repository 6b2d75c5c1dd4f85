/** Option and Result values used for the source's "null" fields and its error returns. */
module Wrappers {

  datatype Option<+T> = None | Some(value: T) {

    /** The value when there is one, `default` when there is none (JavaScript's `x || default` on an object). */
    function GetOr(default: T): T
    {
      match this
      case Some(v) => v
      case None => default
    }
  }

  datatype Result<+R, +E> = Success(value: R) | Failure(error: E)
}
