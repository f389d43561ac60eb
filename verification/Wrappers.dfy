/** Result types shared by the other modules. */
module Wrappers {

  datatype Option<+T> = None | Some(value: T)

  /** The error cmd.Wait returned; None is Go's nil. */
  type WaitError = Option<string>

  /** A value, or the error a Go function returned instead. */
  datatype Result<+T, +E> = Ok(value: T) | Err(error: E)
}
