/** Optional values and typed results, used by every module of the model. */
module Wrappers {

  /** An optional value. */
  datatype Option<+T> = None | Some(value: T) {

    /** The wrapped value, or `default` when there is none. */
    function GetOr(default: T): T {
      if Some? then value else default
    }
  }

  /** Either a value or a typed error. */
  datatype Result<+R, +E> = Success(value: R) | Failure(error: E)
}
