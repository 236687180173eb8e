/** Small failure-carrying datatypes shared by the other modules. */
module Wrappers {

  /** A value that may be absent: an optional JSON field, an empty slot. */
  datatype Option<T> = None | Some(value: T)

  /** The outcome of an operation that can throw: the value, or the thrown message. */
  datatype Result<T, E> = Success(value: T) | Failure(error: E)
}
