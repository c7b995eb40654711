/** Option and Result values standing in for the TypeScript client's `null` returns and thrown errors. */
module Wrappers {

  datatype Option<+T> = None | Some(value: T)

  /** `Failure(message)` is a thrown `Error` whose message is `message`. */
  datatype Result<+R> = Success(value: R) | Failure(message: string)
}
