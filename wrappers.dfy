/** Small stock datatypes shared by the other modules. */
module Wrappers {

  /** A value that may be absent: Go's nil pointer or a missing map entry. */
  datatype Option<+T> = None | Some(value: T)

  /** Outcome of an operation that can fail: Go's `(T, error)` pair. */
  datatype Result<+T> = Ok(value: T) | Err(message: string)
}
