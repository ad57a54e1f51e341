/** Small shared vocabulary: optional values, results and bytes. */
module Prelude {

  datatype Option<+T> = None | Some(value: T)

  datatype Result<+T, +E> = Ok(value: T) | Err(error: E)

  /** An unsigned 8-bit value; every `&[u8]` of the source is a `seq<byte>`. */
  type byte = x: int | 0 <= x < 256
}
