/** Optional values, and calls that may panic instead of returning. */
module Wrappers {
  datatype Option<T> = None | Some(value: T)

  /** The outcome of a call that either returns a value or panics (an `unwrap` on a failure, an index out of bounds). */
  datatype Run<T> = Done(value: T) | Panicked
}
