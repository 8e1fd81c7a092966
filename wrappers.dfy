/** Optional values and results, for Go's nil pointers and (value, error) returns. */
module Wrappers {

  /** A value that may be absent: a nil pointer or a nil `error` in the source. */
  datatype Option<+T> = None | Some(value: T)

  /** The outcome of an operation that returns either a value or an error. */
  datatype Result<+T, +E> = Ok(value: T) | Err(error: E)
}
