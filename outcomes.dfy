/** Optional values and the outcome of a call that may throw. */
module Outcomes {

  /** A JavaScript value that may be `null` or `undefined`. */
  datatype Option<+T> = None | Some(value: T)

  /** The settled state of a call: it returned a value or it threw an error with a message. */
  datatype Outcome<+T> = Ok(value: T) | Fail(error: string)
}
