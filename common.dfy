/** Shared vocabulary: optional values, fallible results and the fixed-width
    unsigned integer ranges the source converts into. */
module Common {

  datatype Option<+T> = None | Some(value: T)

  /** A fallible result; the error is the message of the `std::io::Error`
      (kind InvalidData) that the source returns. */
  datatype Result<+T> = Ok(value: T) | Err(message: string)

  const U8_MAX: int := 0xFF
  const U16_MAX: int := 0xFFFF
  const U32_MAX: int := 0xFFFF_FFFF

  type u8 = x: int | 0 <= x <= 0xFF
  type u16 = x: int | 0 <= x <= 0xFFFF
  type u32 = x: int | 0 <= x <= 0xFFFF_FFFF

  predicate IsU8(x: int) { 0 <= x <= U8_MAX }
  predicate IsU16(x: int) { 0 <= x <= U16_MAX }
  predicate IsU32(x: int) { 0 <= x <= U32_MAX }

  function Max(a: int, b: int): int { if a < b then b else a }
  function Min(a: int, b: int): int { if a < b then a else b }

  /** Rust's `Ord::clamp`. */
  function Clamp(x: int, lo: int, hi: int): (r: int)
    requires lo <= hi
    ensures lo <= r <= hi
    ensures lo <= x <= hi ==> r == x
  {
    if x < lo then lo else if x > hi then hi else x
  }
}
