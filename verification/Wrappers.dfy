/** Optional values and results, in the shape of the Rust types of the same names. */
module Wrappers {

  datatype Option<+T> = None | Some(value: T)

  datatype Result<+T, +E> = Ok(value: T) | Err(error: E)

  /** The value, or the given default. */
  function UnwrapOr<T>(o: Option<T>, default: T): T {
    match o
    case Some(v) => v
    case None => default
  }
}
