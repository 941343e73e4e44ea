/** Option and Result, the two shapes the model uses for Kotlin's nullable
    values and for calls that either return or throw. */
module Wrappers {

  /** A Kotlin nullable `T?`: `None` is `null`. */
  datatype Option<+T> = None | Some(value: T) {

    /** Kotlin's elvis operator `this ?: default`. */
    function GetOr(default: T): T {
      match this
      case Some(v) => v
      case None => default
    }
  }

  /** The outcome of a Kotlin call that either returns a value or throws. */
  datatype Result<+R, +E> = Success(value: R) | Failure(error: E)
}
