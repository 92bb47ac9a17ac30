/** Failure-carrying result types shared by the ingestion and analytics modules. */
module Wrappers {

  /** A value that may be absent: an optional payload field, an optional alert. */
  datatype Option<+T> = None | Some(value: T)

  /** The outcome of a service call: a value, or the error the service throws. */
  datatype Result<+T, +E> = Success(value: T) | Failure(error: E)
}
