/** Option and Result, used for JavaScript's `null`/`undefined` values and thrown errors. */
module Wrappers {

  /** `None` stands for a JavaScript `null` or `undefined`. */
  datatype Option<+T> = None | Some(value: T)

  /** `Failure` stands for an `Error` thrown with the given message. */
  datatype Result<+R> = Success(value: R) | Failure(error: string)
}
