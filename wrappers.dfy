/** The outcome of an operation that can raise an error instead of returning a value. */
module Wrappers {

  datatype Result<+T, +E> = Success(value: T) | Failure(error: E)
}
