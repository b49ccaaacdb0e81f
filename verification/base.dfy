/** Java value types the mod's code works with, and the failure-carrying
    wrappers the model uses in place of exceptions and null. */
module Base {

  /** Java `int`: 32-bit two's complement. */
  newtype Int32 = x: int | -0x8000_0000 <= x < 0x8000_0000

  /** Java `byte`: 8-bit two's complement. */
  newtype Byte = x: int | -0x80 <= x < 0x80

  /** Java `char`: one UTF-16 code unit. */
  newtype Char16 = x: int | 0 <= x < 0x1_0000

  /** A Java `String` as its sequence of UTF-16 code units; `length()`,
      `substring` and `trim` all count code units. */
  type JString = seq<Char16>

  /** `Integer.MAX_VALUE`, which also bounds the length of a Java array. */
  const IntMax: int := 0x7fff_ffff

  function Min(a: int, b: int): int {
    if a <= b then a else b
  }

  datatype Option<+T> = None | Some(value: T)

  datatype Result<+T, +E> = Ok(value: T) | Err(error: E)
}
