/** Byte-level vocabulary shared by the model: Go's `byte` and `string`, and the
    usual Option and Result wrappers for outcomes that can fail. */
module Bytes {

  /** Go's `byte` (`uint8`). */
  type Byte = b: int | 0 <= b < 0x100

  /** A Go `string`: an immutable sequence of bytes, not necessarily valid UTF-8. */
  type GoString = seq<Byte>

  datatype Option<+T> = None | Some(value: T)

  datatype Result<+T, +E> = Ok(value: T) | Err(error: E)

  /** True when every byte of `s` is a 7-bit ASCII byte. */
  predicate IsAscii(s: seq<Byte>)
  {
    forall i | 0 <= i < |s| :: s[i] < 0x80
  }
}
