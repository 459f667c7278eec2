/** Failure-carrying results shared by the barcode modules. */
module Wrappers {

  /** A value that may be missing: Kotlin's nullable result (`T?`). */
  datatype Option<+T> = None | Some(value: T)

  /** A value or an error: a computation that may throw. */
  datatype Result<+T, +E> = Ok(value: T) | Err(error: E)
}
