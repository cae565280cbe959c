/** Optional values (TypeScript's `T | null | undefined`) and results of operations that can throw. */
module Wrappers {

  datatype Option<+T> = None | Some(value: T) {
    /** `x ?? d` in TypeScript. */
    function GetOr(default: T): T {
      match this
      case Some(v) => v
      case None => default
    }

    /** `x ?? y` where `y` may itself be null. */
    function OrElse(other: Option<T>): Option<T> {
      if Some? then this else other
    }
  }

  /** The outcome of a service call: the value it resolves to, or the exception it throws. */
  datatype Result<+T, +E> = Success(value: T) | Failure(error: E)
}
