/** Failure-carrying results shared by the whole project. */
module Wrappers {

  datatype Option<+T> = None | Some(value: T)

  /** The (value, error) pairs of the Go code: exactly one of the two is meaningful. */
  datatype Result<+T> = Success(value: T) | Failure(error: string)
}
