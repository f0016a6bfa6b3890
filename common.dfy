/** Shared failure-compatible wrappers and the byte type used by the encoders. */
module Common {

  datatype Option<+T> = None | Some(value: T)

  datatype Result<+T, +E> = Ok(value: T) | Err(error: E)

  /** A byte as Python's `bytes` holds it: an integer in 0..255. */
  type byte = b: int | 0 <= b < 256
}
