/** Optional values, and results of operations that may raise. */
module Wrappers {

  datatype Option<+T> = Some(value: T) | None

  datatype Result<+T, +E> = Ok(value: T) | Raises(error: E)
}
