/** Option and Result, for Ruby's nil and for the exceptions the servlet lets escape. */
module Wrappers {

  datatype Option<+T> = None | Some(value: T) {
    /** The value, or the given default in place of nil. */
    function GetOr(default: T): T {
      match this
      case Some(v) => v
      case None => default
    }
  }

  datatype Result<+R, +E> = Success(value: R) | Failure(error: E)
}
