/**
 * Kotlin's nullable values (`T?`) are modelled as `Option<T>`; a call that
 * either returns a value or throws is modelled as `Result<T>`.
 */
module Wrappers {

  datatype Option<+T> = None | Some(value: T) {

    /** Kotlin's `x ?: default` */
    function GetOr(default: T): T {
      match this
      case Some(v) => v
      case None => default
    }
  }

  datatype Result<+T> = Success(value: T) | Failure(message: string)
}
