/** Option and Result, the two failure-carrying shapes the catalog uses:
    `null`/`undefined` becomes `None`, an Observable that errors becomes `Failure`. */
module Wrappers {

  datatype Option<+T> = None | Some(value: T) {

    /** The value, or `default` when there is none. */
    function GetOr(default: T): T {
      match this
      case Some(v) => v
      case None => default
    }
  }

  datatype Result<+R, +E> = Success(value: R) | Failure(error: E)
}
