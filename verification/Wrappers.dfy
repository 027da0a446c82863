/** Results of calls that may fail: the exceptions of the C++ code are `Failure` values here. */
module Wrappers {

  datatype Option<+T> = None | Some(value: T)

  /** A failure carries the text that `what()` returns. */
  datatype Result<+T> = Success(value: T) | Failure(error: string)
}
