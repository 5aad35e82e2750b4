/** The result of a call that either returns or raises. */
module Wrappers {

  /** `Failure` stands for a Python exception that leaves the call. */
  datatype Result<+T, +E> = Success(value: T) | Failure(error: E)
}
