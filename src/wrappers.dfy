/** Failure-compatible wrappers: a nullable value and the exceptions the runtime can throw. */
module Wrappers {

  /** A C# nullable value (`T?`): `None` is `null`. */
  datatype Option<+T> = None | Some(value: T)

  /** The result of an operation that may throw an exception of kind `E`. */
  datatype Result<+T, +E> = Ok(value: T) | Err(error: E)

  /** The outcome of an operation without a result that may throw an exception of kind `E`. */
  datatype Outcome<+E> = Pass | Fail(error: E)
}
