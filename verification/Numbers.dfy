/** Number types and functions that several components share. */
module Numbers {

  newtype Byte = b: int | 0 <= b < 256

  function Min(a: real, b: real): real { if a <= b then a else b }

  function Max(a: real, b: real): real { if a >= b then a else b }
}
