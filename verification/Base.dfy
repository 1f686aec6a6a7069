/** Stock result types and the machine-level types the library is written in terms of. */
module Base {
  datatype Option<+T> = None | Some(value: T)

  datatype Result<+T, +E> = Ok(value: T) | Err(error: E)

  /** One `unsigned char`. */
  type byte = b: int | 0 <= b < 0x100

  /** A `std::string`: any bytes, NUL included. */
  type bytes = seq<byte>

  const INT64_MIN: int := -0x8000_0000_0000_0000
  const INT64_MAX: int := 0x7fff_ffff_ffff_ffff

  type int64 = i: int | INT64_MIN <= i <= INT64_MAX

  /** The character read at `i`; past the end the readers of the library see NUL. */
  function CharAt(s: bytes, i: nat): byte {
    if i < |s| then s[i] else 0
  }
}
