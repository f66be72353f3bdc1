/** The error paths of both scripts: an operation either succeeds or stops with an error value. */
module Outcomes {

  /** A value, or the error that prevented computing it. */
  datatype Result<+T, +E> = Ok(value: T) | Err(error: E)

  /** Success without a value, or the error that ended the run. */
  datatype Outcome<+E> = Pass | Fail(error: E)
}
