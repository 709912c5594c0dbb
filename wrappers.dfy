/** Failure-carrying result types shared by the other modules. */
module Wrappers {

  datatype Option<+T> = None | Some(value: T)

  /** The outcome of an operation that either succeeds or raises `error`. */
  datatype Outcome<+E> = Pass | Fail(error: E)

  /** The outcome of an operation that either returns `value` or raises `error`. */
  datatype Result<+R, +E> = Ok(value: R) | Err(error: E)
}
