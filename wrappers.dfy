/** Optional values and results with an error message. */
module Wrappers {

  /** A value that may be missing: TypeScript's `T | null`, and `NaN` for a failed number parse. */
  datatype Option<+T> = None | Some(value: T)

  /** The outcome of a `try` block: the value it produced, or the message of the error it threw. */
  datatype Result<+T> = Success(value: T) | Failure(error: string)
}
