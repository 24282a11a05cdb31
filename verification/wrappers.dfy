/** Option and Result: the "not found" and "thrown error" outcomes of the store. */
module Wrappers {

  /** A value that may be absent, as JavaScript's `undefined` result of `Array.prototype.find`. */
  datatype Option<+T> = None | Some(value: T)

  /** Either a value or the error the source would have thrown. */
  datatype Result<+R, +E> = Success(value: R) | Failure(error: E)
}
