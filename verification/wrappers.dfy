/** Option and Result, the two failure-carrying datatypes the model uses for
    JavaScript's `null` and for calls that can throw. */
module Wrappers {

  /** A value that may be absent (`null` or `undefined` in the exporter). */
  datatype Option<+T> = None | Some(value: T)

  /** The outcome of a call that either returns a value or throws an error. */
  datatype Result<+R, +E> = Success(value: R) | Failure(error: E)
}
