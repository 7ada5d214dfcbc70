/** The success-or-error value every fallible operation of the codec returns. */
module Outcomes {
  datatype Result<+T, +E> = Ok(value: T) | Err(error: E)
}
