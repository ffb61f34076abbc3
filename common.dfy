/** Shared vocabulary: Go strings as byte sequences, Go's 64-bit `int`, optional values. */
module Common {

  /** One byte of a Go string. A `char` below 256 stands for the byte with that value,
      so ASCII literals such as "male" can be written directly. */
  type byte = c: char | c as int < 256 witness '\0'

  /** A Go `string`: Go's `len` counts its bytes, which is `|s|` here. */
  type Bytes = seq<byte>

  /** An instant on the server clock (the value of `time.Now().UTC()`). */
  type Time = int

  const INT64_MIN: int := -0x8000_0000_0000_0000
  const INT64_MAX: int := 0x7FFF_FFFF_FFFF_FFFF
  const TWO_TO_64: int := 0x1_0000_0000_0000_0000

  /** Go's `int` and `int64` on a 64-bit platform. */
  type int64 = x: int | -0x8000_0000_0000_0000 <= x < 0x8000_0000_0000_0000

  /** The value a 64-bit two's-complement machine keeps of the mathematical result `x`. */
  function WrapInt64(x: int): (r: int64)
    ensures (r - x) % TWO_TO_64 == 0
    ensures INT64_MIN <= x <= INT64_MAX ==> r == x
  {
    ((x - INT64_MIN) % TWO_TO_64) + INT64_MIN
  }

  datatype Option<T> = None | Some(value: T)
}
