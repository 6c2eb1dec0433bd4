/** Option and Result, the two failure-carrying shapes the engine returns. */
module Wrappers {

  datatype Option<+T> = None | Some(value: T)

  /** `Err` carries one of the engine's error kinds (the source returns a static message). */
  datatype Result<+T, +E> = Ok(value: T) | Err(error: E)
}
