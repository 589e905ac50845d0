/** Optional values and results with an error, as used throughout the model. */
module Wrappers {

  /** `undefined`/`null` versus a present value. */
  datatype Option<+T> = None | Some(value: T)

  /** A value or the message of the error that was thrown instead. */
  datatype Result<+T> = Success(value: T) | Failure(error: string)
}
