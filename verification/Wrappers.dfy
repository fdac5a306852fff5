/** The two result shapes used throughout: a value that may be absent
    (`undefined` or `null` in the source) and a call that may throw. */
module Wrappers {
  datatype Option<+T> = None | Some(value: T)

  datatype Result<+T, +E> = Success(value: T) | Failure(error: E)
}
