/** Option and Result types shared by the sampler and the display masks. */
module Wrappers {

  /** A value that may be absent, as Python's `None` default arguments are. */
  datatype Option<T> = None | Some(value: T)

  /** The outcome of an operation that either produces a value or raises an error. */
  datatype Result<T, E> = Success(value: T) | Failure(error: E)
}
