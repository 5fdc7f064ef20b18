/** Types shared by every part of the model. */
module Common {

  /** A value that may be absent: TypeScript's `undefined`, and `null` where the program reads it as absent. */
  datatype Option<+T> = None | Some(value: T)

  /** A call that either returns or throws. */
  datatype Result<+T, +E> = Ok(value: T) | Err(error: E)

  type byte = x: int | 0 <= x < 256
}
