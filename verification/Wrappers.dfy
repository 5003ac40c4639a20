/** The two results that are not values. */
module Wrappers {
  /** A value that may be missing: a nil pointer, a NULL, Python's None. */
  datatype Option<+T> = None | Some(value: T)

  /** What a computation gives, unless it ends in an uncaught exception. */
  datatype Result<+T> = Ok(value: T) | Crash
}
