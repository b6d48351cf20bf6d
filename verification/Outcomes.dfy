/** The outcome of an operation that may throw. */
module Outcomes {
  datatype Result<+T> = Ok(value: T) | Err(error: string)
}
