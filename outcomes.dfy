/** Optional values and the outcome of a call that may raise an exception. */
module Outcomes {

  /** A value that may be absent (Python's `None`). */
  datatype Option<+T> = None | Some(value: T)

  /** What a call produced: the value it returned, or an exception it raised. */
  datatype Outcome<+T> = Returned(value: T) | Raised
}
