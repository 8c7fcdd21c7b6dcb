/** Optional values and fallible results shared by the whole model. */
module Wrappers {
  datatype Option<T> = None | Some(value: T)

  /** A computation that either yields a value or fails where the engine would panic. */
  datatype Result<T> = Ok(value: T) | Err(message: string)
  {
    predicate IsOk() { Ok? }
  }
}
