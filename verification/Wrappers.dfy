/** Optional values, results that may be errors, and bytes. */
module Wrappers {
  datatype Option<+T> = None | Some(value: T)

  datatype Result<+T, +E> = Ok(value: T) | Err(error: E)

  type Byte = bv8

  type Bytes = seq<Byte>
}
