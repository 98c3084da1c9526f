/** Option and Result datatypes used across the model in place of the
    TypeScript's `null`/`undefined` values and of caught exceptions. */
module Wrappers {

  /** A value that may be absent (`null` or `undefined` in TypeScript). */
  datatype Option<+T> = None | Some(value: T) {

    /** The value, or `default` when absent (JavaScript's `x || default`
        for values that are never falsy when present). */
    function GetOr(default: T): T {
      match this
      case Some(v) => v
      case None => default
    }
  }

  /** The outcome of a call that may throw: a value or the caught error. */
  datatype Result<+R, +E> = Ok(value: R) | Err(error: E)
}
