/** Packet framing: a one-byte variant tag followed by that variant's
    payload. The per-variant payload codecs are parameters; the null
    variant's codec is the empty-payload one. */
module Packets {
  import opened Common
  import opened PacketMacros

  /** Variant tags in declaration order (`#[repr(u8)]`, derived
      `ToPrimitive`/`FromPrimitive`). */
  datatype PacketId = IdAssignment | GameState | Chat | PlayerDisconnected | Null

  const PACKET_ID_COUNT: nat := 5

  const EMPTY_PACKET_ERROR: string := "Empty packet data"
  const UNKNOWN_PACKET_ID_ERROR: string := "Unknown packet ID"

  function ToU8(id: PacketId): (b: u8)
    ensures b < PACKET_ID_COUNT
  {
    match id
    case IdAssignment => 0
    case GameState => 1
    case Chat => 2
    case PlayerDisconnected => 3
    case Null => 4
  }

  /** `PacketId::from_u8`: defined on the five tags only. */
  function FromU8(b: u8): (r: Option<PacketId>)
    ensures r.Some? <==> b < PACKET_ID_COUNT
    ensures r.Some? ==> ToU8(r.value) == b
  {
    if b == 0 then Some(IdAssignment)
    else if b == 1 then Some(GameState)
    else if b == 2 then Some(Chat)
    else if b == 3 then Some(PlayerDisconnected)
    else if b == 4 then Some(Null)
    else None
  }

  /** The tag is injective and `from_u8` inverts it. */
  lemma TagsRoundTrip(a: PacketId, b: PacketId)
    ensures FromU8(ToU8(a)) == Some(a)
    ensures ToU8(a) == ToU8(b) ==> a == b
  {
  }

  /** One wire type's `PacketData` implementation: its `IS_RELIABLE`
      constant and its payload encoder and decoder. */
  datatype Codec<!W> = Codec(reliable: bool, encode: W -> seq<u8>, decode: seq<u8> -> Result<W>)

  ghost predicate RoundTrips<W(!new)>(c: Codec<W>) {
    forall w :: c.decode(c.encode(w)) == Ok(w)
  }

  /** The codecs of the four field-carrying wire types and the reliability
      flag of the null wire type. */
  datatype Codecs<!IA, !GS, !CH, !PD> = Codecs(
    idAssignment: Codec<IA>, gameState: Codec<GS>, chat: Codec<CH>,
    playerDisconnected: Codec<PD>, nullReliable: bool)

  ghost predicate AllRoundTrip<IA(!new), GS(!new), CH(!new), PD(!new)>(c: Codecs<IA, GS, CH, PD>) {
    RoundTrips(c.idAssignment) && RoundTrips(c.gameState) && RoundTrips(c.chat) && RoundTrips(c.playerDisconnected)
  }

  datatype Packet<IA, GS, CH, PD> =
    | IdAssignmentPacket(idAssignment: IA)
    | GameStatePacket(gameState: GS)
    | ChatPacket(chat: CH)
    | PlayerDisconnectedPacket(playerDisconnected: PD)
    | NullPacket(nullWire: NullWire)

  function Id<IA, GS, CH, PD>(p: Packet<IA, GS, CH, PD>): PacketId {
    match p
    case IdAssignmentPacket(_) => IdAssignment
    case GameStatePacket(_) => GameState
    case ChatPacket(_) => Chat
    case PlayerDisconnectedPacket(_) => PlayerDisconnected
    case NullPacket(_) => Null
  }

  /** The wire type's `IS_RELIABLE` for the packet's variant. */
  function IsReliable<IA, GS, CH, PD>(c: Codecs<IA, GS, CH, PD>, p: Packet<IA, GS, CH, PD>): bool {
    match p
    case IdAssignmentPacket(_) => c.idAssignment.reliable
    case GameStatePacket(_) => c.gameState.reliable
    case ChatPacket(_) => c.chat.reliable
    case PlayerDisconnectedPacket(_) => c.playerDisconnected.reliable
    case NullPacket(_) => c.nullReliable
  }

  function Payload<IA, GS, CH, PD>(c: Codecs<IA, GS, CH, PD>, p: Packet<IA, GS, CH, PD>): seq<u8> {
    match p
    case IdAssignmentPacket(w) => c.idAssignment.encode(w)
    case GameStatePacket(w) => c.gameState.encode(w)
    case ChatPacket(w) => c.chat.encode(w)
    case PlayerDisconnectedPacket(w) => c.playerDisconnected.encode(w)
    case NullPacket(w) => NullEncode(w)
  }

  /** The tag byte followed by the payload. */
  function Encode<IA, GS, CH, PD>(c: Codecs<IA, GS, CH, PD>, p: Packet<IA, GS, CH, PD>): (bytes: seq<u8>)
    ensures |bytes| >= 1 && bytes[0] == ToU8(Id(p))
    ensures bytes[1..] == Payload(c, p)
  {
    [ToU8(Id(p))] + Payload(c, p)
  }

  /** Wraps a payload decoder's success in a variant; its error is passed
      on unchanged (the `?` operator). */
  function Wrap<W, P>(r: Result<W>, variant: W -> P): (out: Result<P>)
    ensures out.Ok? <==> r.Ok?
    ensures out.Ok? ==> out.value == variant(r.value)
    ensures out.Err? ==> out.message == r.message
  {
    match r
    case Ok(w) => Ok(variant(w))
    case Err(m) => Err(m)
  }

  function Decode<IA, GS, CH, PD>(c: Codecs<IA, GS, CH, PD>, data: seq<u8>): (r: Result<Packet<IA, GS, CH, PD>>)
    ensures data == [] ==> r == Err(EMPTY_PACKET_ERROR)
    ensures data != [] && data[0] >= PACKET_ID_COUNT ==> r == Err(UNKNOWN_PACKET_ID_ERROR)
    ensures r.Ok? ==> data != [] && data[0] == ToU8(Id(r.value))
  {
    if |data| == 0 then Err(EMPTY_PACKET_ERROR)
    else
      var payload := data[1..];
      match FromU8(data[0])
      case None => Err(UNKNOWN_PACKET_ID_ERROR)
      case Some(id) =>
        match id
        case IdAssignment => Wrap(c.idAssignment.decode(payload), w => IdAssignmentPacket(w))
        case GameState => Wrap(c.gameState.decode(payload), w => GameStatePacket(w))
        case Chat => Wrap(c.chat.decode(payload), w => ChatPacket(w))
        case PlayerDisconnected => Wrap(c.playerDisconnected.decode(payload), w => PlayerDisconnectedPacket(w))
        case Null => Wrap(NullDecode(payload), w => NullPacket(w))
  }

  /** The frame round-trips whenever the payload codecs do. */
  lemma DecodeEncode<IA(!new), GS(!new), CH(!new), PD(!new)>(c: Codecs<IA, GS, CH, PD>, p: Packet<IA, GS, CH, PD>)
    requires AllRoundTrip(c)
    ensures Decode(c, Encode(c, p)) == Ok(p)
  {
    var bytes := Encode(c, p);
    assert bytes[1..] == Payload(c, p);
    match p
    case IdAssignmentPacket(w) => assert c.idAssignment.decode(c.idAssignment.encode(w)) == Ok(w);
    case GameStatePacket(w) => assert c.gameState.decode(c.gameState.encode(w)) == Ok(w);
    case ChatPacket(w) => assert c.chat.decode(c.chat.encode(w)) == Ok(w);
    case PlayerDisconnectedPacket(w) => assert c.playerDisconnected.decode(c.playerDisconnected.encode(w)) == Ok(w);
    case NullPacket(w) => NullCodecRoundTrips(w, []);
  }

  /** A known tag hands exactly the remaining bytes to that variant's
      decoder: the frame decodes iff the payload does, and a payload error
      is the frame's error. */
  lemma DecodeDelegatesToPayload<IA, GS, CH, PD>(c: Codecs<IA, GS, CH, PD>, tag: u8, payload: seq<u8>)
    requires tag < PACKET_ID_COUNT
    ensures var r := Decode(c, [tag] + payload);
      && (tag == 0 ==> r == Wrap(c.idAssignment.decode(payload), w => IdAssignmentPacket(w)))
      && (tag == 1 ==> r == Wrap(c.gameState.decode(payload), w => GameStatePacket(w)))
      && (tag == 2 ==> r == Wrap(c.chat.decode(payload), w => ChatPacket(w)))
      && (tag == 3 ==> r == Wrap(c.playerDisconnected.decode(payload), w => PlayerDisconnectedPacket(w)))
      && (tag == 4 ==> r == Wrap(NullDecode(payload), w => NullPacket(w)))
  {
    assert ([tag] + payload)[1..] == payload;
  }

  /** A null packet is exactly the one-byte frame [4]. */
  lemma NullFrameIsOneByte<IA, GS, CH, PD>(c: Codecs<IA, GS, CH, PD>, data: seq<u8>)
    ensures Decode(c, data) == Ok(NullPacket(NullWire)) <==> data == [4]
  {
    if data == [4] {
      assert data[1..] == [];
    }
    if Decode(c, data) == Ok(NullPacket(NullWire)) {
      assert data[0] == 4 && data[1..] == [];
      assert data == [data[0]] + data[1..];
    }
  }

  /** Reliability is a property of the packet type: two packets with the
      same tag are sent the same way, and a decoded frame is sent the way
      its tag byte says. */
  lemma ReliabilityIsPerType<IA, GS, CH, PD>(c: Codecs<IA, GS, CH, PD>, p: Packet<IA, GS, CH, PD>, q: Packet<IA, GS, CH, PD>)
    ensures Id(p) == Id(q) ==> IsReliable(c, p) == IsReliable(c, q)
    ensures Id(p) == Null ==> IsReliable(c, p) == c.nullReliable
    ensures Id(p) == GameState ==> IsReliable(c, p) == c.gameState.reliable
  {
  }
}
