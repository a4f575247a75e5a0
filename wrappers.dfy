/** Option and Result values standing in for Go's nil results and `error` returns. */
module Wrappers {

  datatype Option<+T> = None | Some(value: T)

  /** `Ok(v)` is a call that returned a nil error; `Err(e)` one that returned `e`. */
  datatype Result<+T, +E> = Ok(value: T) | Err(error: E)
}
