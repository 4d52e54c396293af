/** Option and Result, for JavaScript's `undefined`/`null` and for the exceptions the script throws. */
module Wrappers {

  /** `None` stands for JavaScript's `undefined` or `null`. */
  datatype Option<+T> = None | Some(value: T)

  /** `Failure` stands for an exception that aborts the script. */
  datatype Result<+R, +E> = Success(value: R) | Failure(error: E)
}
