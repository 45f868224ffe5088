/** Optional values and results, standing for Swift's `T?` and `throws`. */
module Wrappers {

  datatype Option<+T> = None | Some(value: T) {
    /** `self ?? default` */
    function GetOr(default: T): T {
      match this
      case Some(v) => v
      case None => default
    }
  }

  /** The outcome of a throwing call: the returned value or the thrown error. */
  datatype Result<+R, +E> = Success(value: R) | Failure(error: E)
}
