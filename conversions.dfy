/** The integer conversions of the stand-alone conversion table: narrowing
    from i64 falls back to 0 (after logging) instead of panicking, and
    widening back to i64 is exact. */
module Conversions {
  import opened Common

  /** `ToWire<u8> for i64`: `from_i64`, or 0 when out of range. */
  function I64ToU8(v: int): (r: u8) {
    if IsU8(v) then v else 0
  }

  /** `ToWire<u16> for i64`: `from_i64`, or 0 when out of range. */
  function I64ToU16(v: int): (r: u16) {
    if IsU16(v) then v else 0
  }

  /** `ToWire<u32> for i64`: `from_i64`, or 0 when out of range. */
  function I64ToU32(v: int): (r: u32) {
    if IsU32(v) then v else 0
  }

  function U8ToI64(b: u8): int { b }
  function U16ToI64(b: u16): int { b }
  function U32ToI64(b: u32): int { b }

  /** An in-range value survives the trip to the wire and back; each wire
      value survives the trip to i64 and back. */
  lemma NarrowWidenRoundTrips(v: int, b8: u8, b16: u16, b32: u32)
    ensures IsU8(v) ==> U8ToI64(I64ToU8(v)) == v
    ensures IsU16(v) ==> U16ToI64(I64ToU16(v)) == v
    ensures IsU32(v) ==> U32ToI64(I64ToU32(v)) == v
    ensures I64ToU8(U8ToI64(b8)) == b8
    ensures I64ToU16(U16ToI64(b16)) == b16
    ensures I64ToU32(U32ToI64(b32)) == b32
  {
  }

  /** Out of range, the fallback is indistinguishable on the wire from a
      genuine 0, so the round trip loses the value. */
  lemma OutOfRangeReadsBackAsZero(v: int)
    ensures !IsU8(v) ==> I64ToU8(v) == I64ToU8(0) && U8ToI64(I64ToU8(v)) != v
    ensures !IsU16(v) ==> I64ToU16(v) == I64ToU16(0) && U16ToI64(I64ToU16(v)) != v
    ensures !IsU32(v) ==> I64ToU32(v) == I64ToU32(0) && U32ToI64(I64ToU32(v)) != v
  {
  }

  /** The narrowing is exact precisely on the target range. */
  lemma NarrowingExactIffInRange(v: int)
    ensures U8ToI64(I64ToU8(v)) == v <==> IsU8(v)
    ensures U16ToI64(I64ToU16(v)) == v <==> IsU16(v)
    ensures U32ToI64(I64ToU32(v)) == v <==> IsU32(v)
  {
  }
}
