/** Small shared vocabulary: bytes and the two failure-carrying wrappers. */
module Common {

  /** An unsigned 8-bit value, as read from or written to the byte stream. */
  type byte = x: int | 0 <= x < 256

  /** Rust's `Option<T>`. */
  datatype Option<+T> = None | Some(value: T)

  /** Rust's `Result<T, E>`. */
  datatype Result<+T, +E> = Ok(value: T) | Err(error: E)
}
