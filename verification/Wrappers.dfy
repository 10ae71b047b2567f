/** Small result types shared by the models. */
module Wrappers {
  datatype Option<+T> = None | Some(value: T)

  datatype Result<+T, +E> = Success(value: T) | Failure(error: E)
}

/** Octets, and the pieces of unsigned arithmetic that truncate. */
module Bytes {
  newtype byte = x: int | 0 <= x < 256

  const TWO_32: int := 0x1_0000_0000
}
