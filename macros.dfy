/** The value conversions and the empty-payload codec that the packet
    definition macros provide: the blanket identity conversions, the strict
    i64 <-> u8 pair, and the null packet's wire form. */
module PacketMacros {
  import opened Common

  // ---------------------------------------------------------------------
  // `ToWire` / `ToGodot`.

  /** The blanket `ToWire<T> for T`: a clone of the value. */
  function IdentityToWire<T>(v: T): T {
    v
  }

  /** The blanket `ToGodot<T> for T`: a clone of the value. */
  function IdentityToGodot<T>(v: T): T {
    v
  }

  /** Fields whose Godot and wire types coincide cross the wire unchanged in
      both directions. */
  lemma IdentityConversionsRoundTrip<T>(v: T)
    ensures IdentityToGodot(IdentityToWire(v)) == v
    ensures IdentityToWire(IdentityToGodot(v)) == v
  {
  }

  /** `ToWire<u8> for i64` via `u8::try_from`: the value itself; any value
      outside [0, 255] panics, so callers must stay in range. */
  function I64ToU8Strict(v: int): (r: u8)
    requires IsU8(v)
  {
    v
  }

  /** `ToGodot<i64> for u8`: widening. */
  function U8ToI64(b: u8): (r: int)
    ensures IsU8(r)
  {
    b
  }

  /** On its domain the strict narrowing is inverted by the widening, in
      both orders. */
  lemma StrictU8RoundTrip(v: int, b: u8)
    requires IsU8(v)
    ensures U8ToI64(I64ToU8Strict(v)) == v
    ensures I64ToU8Strict(U8ToI64(b)) == b
  {
  }

  // ---------------------------------------------------------------------
  // The null packet: a unit wire struct with an empty payload.

  datatype NullWire = NullWire

  const NULL_PAYLOAD_ERROR: string := "Null packet should have empty payload"

  function NullEncode(w: NullWire): seq<u8> {
    []
  }

  /** Succeeds exactly on the empty payload. */
  function NullDecode(data: seq<u8>): (r: Result<NullWire>)
    ensures r.Ok? <==> data == []
    ensures r.Err? ==> r.message == NULL_PAYLOAD_ERROR
  {
    if |data| == 0 then Ok(NullWire) else Err(NULL_PAYLOAD_ERROR)
  }

  /** The null payload is empty and decodes back to the unit value; no
      non-empty payload is accepted. */
  lemma NullCodecRoundTrips(w: NullWire, data: seq<u8>)
    ensures NullEncode(w) == [] && NullDecode(NullEncode(w)) == Ok(w)
    ensures data != [] ==> NullDecode(data) == Err(NULL_PAYLOAD_ERROR)
  {
    match w
    case NullWire =>
  }
}
