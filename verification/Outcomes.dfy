/** The stock Option and Result datatypes shared by the other modules. */
module Outcomes {
  datatype Option<+T> = None | Some(value: T)

  datatype Result<+T, +E> = Ok(value: T) | Err(error: E)

  // A byte, as stored in files and in UTF-8 text.
  newtype byte = x: int | 0 <= x < 256

  type Bytes = seq<byte>
}
