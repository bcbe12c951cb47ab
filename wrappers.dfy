/** Option and Result, the two failure-carrying shapes the model uses. */
module Wrappers {

  /** A value that may be absent: a missing dictionary key, a JSON null, a file that does not exist. */
  datatype Option<+T> = None | Some(value: T) {
    function GetOr(default: T): T {
      match this
      case Some(v) => v
      case None => default
    }
  }

  /** The outcome of an operation that raises in the source: `Failure` carries the exception's message. */
  datatype Result<+R, +E> = Success(value: R) | Failure(error: E)
}
