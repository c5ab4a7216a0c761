// The two outcome shapes the source spells as `T | undefined` and `Result<T, E>`.
module Wrappers {
  datatype Option<+T> = None | Some(value: T)

  datatype Result<+T, +E> = Ok(value: T) | Err(error: E)
}
