/** Failure-carrying datatypes shared by the modules of the chord-chart model. */
module Wrappers {

  /** A value that may be absent: JavaScript's `undefined` (or `NaN` for numbers). */
  datatype Option<+T> = None | Some(value: T)

  /** The outcome of an edit that can throw: the new state, or the error it raises. */
  datatype Result<+T, +E> = Ok(value: T) | Err(error: E)
}
