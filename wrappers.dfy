/** Optional values and the outcome of an operation that may throw. */
module Wrappers {

  /** A value or JavaScript's `undefined`. */
  datatype Option<T> = None | Some(value: T)

  /** The outcome of an operation that may throw a JavaScript `TypeError` part-way through
      (reading a property of `null`, or `in` on `null`). */
  datatype Result<T> = Ok(value: T) | TypeError
}
