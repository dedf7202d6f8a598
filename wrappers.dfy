/** Optional values and results with an error, for JavaScript's `undefined`/`null`
    and for the requests the gateway cannot handle. */
module Wrappers {

  datatype Option<+T> = None | Some(value: T) {
    /** `x || default` for a value that is either present or missing */
    function GetOr(default: T): T {
      match this
      case Some(v) => v
      case None => default
    }
  }

  datatype Result<+T, +E> = Success(value: T) | Failure(error: E)
}
