/** Session logic of the network node: the peer-id pool and the
    connection-to-peer map a server keeps, the filtering of inbound
    messages, the order in which notifications are emitted, and the bounded
    debug queue. The transport is abstract: its connection-state events and
    messages are inputs, and its `accept`/`close_connection` calls are
    recorded outputs. */
module NetworkHandlers {
  import opened Common
  import opened Packets

  const PEER_ID_POOL_SIZE: nat := 100
  const DEBUG_QUEUE_LIMIT: nat := 1000
  const DEBUG_MESSAGES_PER_FRAME: nat := 10
  const SERVER_FULL: string := "Server is full"

  /** A transport connection handle. */
  type Conn = nat

  datatype ConnectionState =
    | StateNone | Connecting | FindingRoute | Connected
    | ClosedByPeer | ProblemDetectedLocally | FinWait | Linger | Dead

  datatype ConnectionEvent = ConnectionEvent(conn: Conn, oldState: ConnectionState, newState: ConnectionState)

  datatype Message = Message(conn: Conn, payload: seq<u8>)

  /** Calls made into the transport. */
  datatype TransportCall = Accept(conn: Conn) | Close(conn: Conn, reason: string)

  /** The lines queued for the debug console, one constructor per message
      the node formats. */
  datatype DebugLine =
    | GnsOutput(prefix: string, level: nat, text: string)
    | NoAvailablePeerIds
    // The source formats the transport's answer to `accept`; that answer
    // is not modelled, so the line records the connection that was accepted.
    | AcceptedClient(conn: Conn)
    | ClientCount(clients: nat)
    | PeerConnected(peerId: int)
    | PoolExhaustedOnConnect
    | PeerDisconnected(conn: Conn, peerId: int)
    | UnknownDisconnect(conn: Conn)
    | ClosingConnection(conn: Conn)
    | ServerStateChange(previous: ConnectionState, current: ConnectionState)
    | UnknownPeer(conn: Conn)
    | DecodeFailed(error: string, raw: seq<u8>)
    | ConnectingToServer
    | ConnectedToServer
    | PhoneHome
    | ClientStateChange(previous: ConnectionState, current: ConnectionState)

  /** The signals the node emits. */
  datatype Notification<P> =
    | PeerConnect(peerId: int)
    | PeerDisconnect(peerId: int)
    | ServerPacket(peerId: int, packet: P)
    | ConnectToServer
    | DisconnectFromServer
    | ClientPacket(packet: P)

  predicate IsClosing(s: ConnectionState) {
    s == ClosedByPeer || s == ProblemDetectedLocally
  }

  // ---------------------------------------------------------------------
  // The bounded debug queue.

  /** `push_back`, then `pop_front` once the length exceeds 1000. */
  function BoundedPush<M>(q: seq<M>, m: M): (r: seq<M>)
    ensures |q| <= DEBUG_QUEUE_LIMIT ==> |r| <= DEBUG_QUEUE_LIMIT
  {
    var pushed := q + [m];
    if |pushed| > DEBUG_QUEUE_LIMIT then pushed[1..] else pushed
  }

  /** A push keeps the queue within 1000 entries, appends the new line, and
      drops at most the single oldest line, and only when full. */
  lemma BoundedPushKeepsNewest<M>(q: seq<M>, m: M)
    requires |q| <= DEBUG_QUEUE_LIMIT
    ensures var r := BoundedPush(q, m);
      && |r| <= DEBUG_QUEUE_LIMIT
      && |r| > 0 && r[|r| - 1] == m
      && (|q| < DEBUG_QUEUE_LIMIT ==> r == q + [m])
      && (|q| == DEBUG_QUEUE_LIMIT ==> r == q[1..] + [m])
  {
    if |q| == DEBUG_QUEUE_LIMIT {
      assert (q + [m])[1..] == q[1..] + [m];
    }
  }

  /** What one frame of `process_debug_messages` prints: the first (up to)
      ten lines, oldest first; the rest stay queued. */
  function DrainCount<M>(q: seq<M>): (n: nat)
    ensures n <= DEBUG_MESSAGES_PER_FRAME && n <= |q|
    ensures n < DEBUG_MESSAGES_PER_FRAME ==> n == |q|
  {
    Min(|q|, DEBUG_MESSAGES_PER_FRAME)
  }

  // ---------------------------------------------------------------------
  // The peer-id pool.

  /** The pool as `_start_server` builds it: 99 down to 0, popped from the
      end, so the pops yield 0, 1, 2, ... */
  function FullPool(): (pool: seq<int>)
    ensures |pool| == PEER_ID_POOL_SIZE
  {
    seq(PEER_ID_POOL_SIZE, i => PEER_ID_POOL_SIZE - 1 - i)
  }

  /** Every pool the server ever holds: a prefix of the full pool. */
  predicate PoolShape(pool: seq<int>) {
    |pool| <= PEER_ID_POOL_SIZE && forall i :: 0 <= i < |pool| ==> pool[i] == PEER_ID_POOL_SIZE - 1 - i
  }

  /** Ids already handed out: those below `100 - |pool|`. */
  function HandedOut(pool: seq<int>): int {
    PEER_ID_POOL_SIZE - |pool|
  }

  predicate IdsUnique(clients: map<Conn, u8>) {
    forall a, b :: a in clients && b in clients && a != b ==> clients[a] != clients[b]
  }

  /** The session invariant: the pool is a prefix of the full pool, every
      mapped id was handed out, and no id is mapped twice. */
  predicate SessionInvariant(pool: seq<int>, clients: map<Conn, u8>) {
    && PoolShape(pool)
    && (forall c :: c in clients ==> clients[c] < HandedOut(pool))
    && IdsUnique(clients)
  }

  lemma FullPoolHasShape()
    ensures PoolShape(FullPool())
    ensures FullPool()[|FullPool()| - 1] == 0
    ensures SessionInvariant(FullPool(), map[])
  {
  }

  /** Under the invariant, the ids in use and the ids still in the pool are
      disjoint, and of the 100 ids the pool holds exactly those not yet
      handed out. */
  lemma PoolAndClientsDisjoint(pool: seq<int>, clients: map<Conn, u8>)
    requires SessionInvariant(pool, clients)
    ensures forall c, i :: c in clients && 0 <= i < |pool| ==> clients[c] != pool[i]
    ensures forall i :: 0 <= i < |pool| ==> HandedOut(pool) <= pool[i] < PEER_ID_POOL_SIZE
    ensures forall id :: 0 <= id < PEER_ID_POOL_SIZE ==> (id in pool <==> id >= HandedOut(pool))
  {
    forall id | 0 <= id < PEER_ID_POOL_SIZE && id >= HandedOut(pool)
      ensures id in pool
    {
      assert pool[PEER_ID_POOL_SIZE - 1 - id] == id;
    }
  }

  // ---------------------------------------------------------------------
  // Specification of one server tick.

  /** The server's state plus what a tick has accumulated: transport calls
      and the connect, disconnect and packet lists to emit. */
  datatype ServerTick<P> = ServerTick(
    pool: seq<int>, clients: map<Conn, u8>, debug: seq<DebugLine>,
    calls: seq<TransportCall>, connects: seq<int>, disconnects: seq<int>,
    packets: seq<(int, P)>)

  /** The connection-event closure of `handle_server_events`. */
  function OnServerEvent<P>(t: ServerTick<P>, e: ConnectionEvent): (r: ServerTick<P>)
    requires PoolShape(t.pool)
    ensures PoolShape(r.pool)
    ensures r.pool == t.pool || (|t.pool| > 0 && r.pool == t.pool[..|t.pool| - 1])
  {
    if e.oldState == StateNone && e.newState == Connecting then
      if |t.pool| == 0 then
        t.(debug := BoundedPush(t.debug, NoAvailablePeerIds),
           calls := t.calls + [Close(e.conn, SERVER_FULL)])
      else
        t.(calls := t.calls + [Accept(e.conn)],
           debug := BoundedPush(BoundedPush(t.debug, AcceptedClient(e.conn)), ClientCount(|t.clients|)))
    else if e.oldState == Connecting && e.newState == Connected then
      if |t.pool| == 0 then
        t.(debug := BoundedPush(t.debug, PoolExhaustedOnConnect),
           calls := t.calls + [Close(e.conn, SERVER_FULL)])
      else
        var peerId := t.pool[|t.pool| - 1];
        t.(pool := t.pool[..|t.pool| - 1],
           clients := t.clients[e.conn := peerId],
           debug := BoundedPush(t.debug, PeerConnected(peerId)),
           connects := t.connects + [peerId])
    else if IsClosing(e.newState) then
      var noted :=
        if e.conn in t.clients then BoundedPush(t.debug, PeerDisconnected(e.conn, t.clients[e.conn]))
        else BoundedPush(t.debug, UnknownDisconnect(e.conn));
      t.(clients := t.clients - {e.conn},
         debug := BoundedPush(noted, ClosingConnection(e.conn)),
         disconnects := if e.conn in t.clients then t.disconnects + [t.clients[e.conn] as int] else t.disconnects,
         calls := t.calls + [Close(e.conn, "")])
    else
      t.(debug := BoundedPush(t.debug, ServerStateChange(e.oldState, e.newState)))
  }

  /** The message closure of `handle_server_events`. */
  function OnServerMessage<IA, GS, CH, PD>(c: Codecs<IA, GS, CH, PD>, t: ServerTick<Packet<IA, GS, CH, PD>>, m: Message)
    : (r: ServerTick<Packet<IA, GS, CH, PD>>)
  {
    if m.conn !in t.clients then
      t.(debug := BoundedPush(t.debug, UnknownPeer(m.conn)))
    else
      match Decode(c, m.payload)
      case Ok(p) => t.(packets := t.packets + [(t.clients[m.conn] as int, p)])
      case Err(error) => t.(debug := BoundedPush(t.debug, DecodeFailed(error, m.payload)))
  }

  function ServerEventsFold<P>(t: ServerTick<P>, es: seq<ConnectionEvent>): (r: ServerTick<P>)
    requires PoolShape(t.pool)
    ensures PoolShape(r.pool)
    decreases |es|
  {
    if es == [] then t else OnServerEvent(ServerEventsFold(t, es[..|es| - 1]), es[|es| - 1])
  }

  function ServerMessagesFold<IA, GS, CH, PD>(c: Codecs<IA, GS, CH, PD>, t: ServerTick<Packet<IA, GS, CH, PD>>, ms: seq<Message>)
    : ServerTick<Packet<IA, GS, CH, PD>>
    decreases |ms|
  {
    if ms == [] then t else OnServerMessage(c, ServerMessagesFold(c, t, ms[..|ms| - 1]), ms[|ms| - 1])
  }

  /** A whole server tick: all connection events, then all messages. */
  function ServerTickOf<IA, GS, CH, PD>(
    c: Codecs<IA, GS, CH, PD>, pool: seq<int>, clients: map<Conn, u8>, debug: seq<DebugLine>,
    events: seq<ConnectionEvent>, messages: seq<Message>)
    : ServerTick<Packet<IA, GS, CH, PD>>
    requires PoolShape(pool)
  {
    ServerMessagesFold(c, ServerEventsFold(ServerTick(pool, clients, debug, [], [], [], []), events), messages)
  }

  /** The signals emitted at the end of a tick: every connect, then every
      disconnect, then every packet. */
  function ServerEmissions<P>(t: ServerTick<P>): (r: seq<Notification<P>>)
    ensures |r| == |t.connects| + |t.disconnects| + |t.packets|
  {
    seq(|t.connects|, k requires 0 <= k < |t.connects| => PeerConnect(t.connects[k]))
    + seq(|t.disconnects|, k requires 0 <= k < |t.disconnects| => PeerDisconnect(t.disconnects[k]))
    + seq(|t.packets|, k requires 0 <= k < |t.packets| => ServerPacket(t.packets[k].0, t.packets[k].1))
  }

  /** A new client (None -> Connecting) is accepted while the pool has an
      id and refused with "Server is full" otherwise; either way the pool
      and the map are untouched. */
  lemma ConnectingIsAcceptedWhilePoolLasts<P>(t: ServerTick<P>, conn: Conn)
    requires PoolShape(t.pool)
    ensures var r := OnServerEvent(t, ConnectionEvent(conn, StateNone, Connecting));
      && r.pool == t.pool && r.clients == t.clients
      && r.connects == t.connects && r.disconnects == t.disconnects
      && r.calls == t.calls + [if |t.pool| == 0 then Close(conn, SERVER_FULL) else Accept(conn)]
  {
  }

  /** On Connecting -> Connected the lowest id not yet handed out is popped
      and mapped to the connection and queued as a connect; with an empty
      pool the connection is closed instead. */
  lemma ConnectedTakesNextId<P>(t: ServerTick<P>, conn: Conn)
    requires PoolShape(t.pool)
    ensures var r := OnServerEvent(t, ConnectionEvent(conn, Connecting, Connected));
      && (|t.pool| > 0 ==>
            && r.pool == t.pool[..|t.pool| - 1]
            && r.clients == t.clients[conn := HandedOut(t.pool)]
            && r.connects == t.connects + [HandedOut(t.pool)]
            && r.calls == t.calls)
      && (|t.pool| == 0 ==>
            r.pool == t.pool && r.clients == t.clients && r.connects == t.connects
            && r.calls == t.calls + [Close(conn, SERVER_FULL)])
  {
  }

  /** On a close, the mapping is removed and its id queued as a disconnect
      if there was one; the connection is always closed, and the id does not
      go back into the pool. */
  lemma ClosingRemovesMapping<P>(t: ServerTick<P>, e: ConnectionEvent)
    requires PoolShape(t.pool) && IsClosing(e.newState)
    ensures var r := OnServerEvent(t, e);
      && r.pool == t.pool
      && r.clients == t.clients - {e.conn}
      && r.calls == t.calls + [Close(e.conn, "")]
      && r.connects == t.connects
      && (e.conn in t.clients ==> r.disconnects == t.disconnects + [t.clients[e.conn] as int])
      && (e.conn !in t.clients ==> r.disconnects == t.disconnects)
  {
  }

  /** `_start_server` refills the pool but keeps the client map, so a
      connection left over from an earlier session can share its id with
      the first new peer. */
  lemma RestartWithStaleClientReusesId()
    ensures var t: ServerTick<int> := ServerTick(FullPool(), map[7 := 0], [], [], [], [], []);
      var r := OnServerEvent(t, ConnectionEvent(8, Connecting, Connected));
      && 7 in r.clients && 8 in r.clients && r.clients[7] == r.clients[8] == 0
      && !IdsUnique(r.clients)
  {
    var t: ServerTick<int> := ServerTick(FullPool(), map[7 := 0], [], [], [], [], []);
    assert t.pool[|t.pool| - 1] == 0;
  }

  /** Each connection event keeps the session invariant, and the pool only
      ever loses its top id. */
  lemma ServerEventKeepsInvariant<P>(t: ServerTick<P>, e: ConnectionEvent)
    requires SessionInvariant(t.pool, t.clients)
    ensures var r := OnServerEvent(t, e);
      && SessionInvariant(r.pool, r.clients)
      && |r.pool| <= |t.pool| && r.pool == t.pool[..|r.pool|]
      && r.packets == t.packets
  {
    var r := OnServerEvent(t, e);
    if e.oldState == Connecting && e.newState == Connected && |t.pool| > 0 {
      var id := t.pool[|t.pool| - 1];
      assert id == HandedOut(t.pool);
      forall a, b | a in r.clients && b in r.clients && a != b
        ensures r.clients[a] != r.clients[b]
      {
        if a == e.conn {
          assert r.clients[b] == t.clients[b];
        } else if b == e.conn {
          assert r.clients[a] == t.clients[a];
        }
      }
    }
  }

  /** A tick's connection events keep the invariant and never return an
      id to the pool. */
  lemma {:induction false} ServerEventsKeepInvariant<P>(t: ServerTick<P>, es: seq<ConnectionEvent>)
    requires SessionInvariant(t.pool, t.clients)
    ensures var r := ServerEventsFold(t, es);
      && SessionInvariant(r.pool, r.clients)
      && |r.pool| <= |t.pool| && r.pool == t.pool[..|r.pool|]
      && r.packets == t.packets
    decreases |es|
  {
    if es != [] {
      var mid := ServerEventsFold(t, es[..|es| - 1]);
      ServerEventsKeepInvariant(t, es[..|es| - 1]);
      ServerEventKeepsInvariant(mid, es[|es| - 1]);
    }
  }

  /** The ids handed out from `base` on: `base, base + 1, ...`. */
  function IdRun(base: int, n: nat): (r: seq<int>)
    ensures |r| == n && forall i :: 0 <= i < n ==> r[i] == base + i
  {
    seq(n, i => base + i)
  }

  /** One step of the consecutive-ids argument, on plain values: if the
      connects so far are the ids popped so far, they still are after a
      step that pops nothing or pops and records the next id. */
  lemma ConnectsFollowPops(pool: seq<int>, connects: seq<int>, midPool: seq<int>, midConnects: seq<int>, rPool: seq<int>, rConnects: seq<int>)
    requires |midPool| <= |pool|
    requires midConnects == connects + IdRun(HandedOut(pool), |pool| - |midPool|)
    requires || (rPool == midPool && rConnects == midConnects)
             || (|midPool| > 0 && rPool == midPool[..|midPool| - 1] && rConnects == midConnects + [HandedOut(midPool)])
    ensures |rPool| <= |pool| && rConnects == connects + IdRun(HandedOut(pool), |pool| - |rPool|)
  {
    if rPool != midPool {
      var n := |pool| - |midPool|;
      assert IdRun(HandedOut(pool), n + 1) == IdRun(HandedOut(pool), n) + [HandedOut(midPool)];
    }
  }

  /** One event either leaves the pool and the connects alone, or pops the
      next id and appends it to the connects. */
  lemma ServerEventPopsAtMostOne<P>(t: ServerTick<P>, e: ConnectionEvent)
    requires PoolShape(t.pool)
    ensures var r := OnServerEvent(t, e);
      || (r.pool == t.pool && r.connects == t.connects)
      || (|t.pool| > 0 && r.pool == t.pool[..|t.pool| - 1] && r.connects == t.connects + [HandedOut(t.pool)])
  {
  }

  /** The same, for the last event of a sequence. */
  lemma ServerEventsFoldStep<P>(t: ServerTick<P>, es: seq<ConnectionEvent>)
    requires PoolShape(t.pool) && es != []
    ensures var mid := ServerEventsFold(t, es[..|es| - 1]);
      var r := ServerEventsFold(t, es);
      || (r.pool == mid.pool && r.connects == mid.connects)
      || (|mid.pool| > 0 && r.pool == mid.pool[..|mid.pool| - 1] && r.connects == mid.connects + [HandedOut(mid.pool)])
  {
    ServerEventPopsAtMostOne(ServerEventsFold(t, es[..|es| - 1]), es[|es| - 1]);
  }

  /** The connects of one tick are exactly the ids popped, in increasing
      order with no gaps. */
  lemma {:induction false} ServerEventsHandOutConsecutiveIds<P>(t: ServerTick<P>, es: seq<ConnectionEvent>)
    requires PoolShape(t.pool)
    ensures var r := ServerEventsFold(t, es);
      && |r.pool| <= |t.pool|
      && r.connects == t.connects + IdRun(HandedOut(t.pool), |t.pool| - |r.pool|)
    decreases |es|
  {
    if es == [] {
      assert IdRun(HandedOut(t.pool), 0) == [];
    } else {
      var mid := ServerEventsFold(t, es[..|es| - 1]);
      var r := ServerEventsFold(t, es);
      ServerEventsHandOutConsecutiveIds(t, es[..|es| - 1]);
      ServerEventsFoldStep(t, es);
      ConnectsFollowPops(t.pool, t.connects, mid.pool, mid.connects, r.pool, r.connects);
    }
  }

  /** `peerId` is the id some connection is mapped to. */
  predicate FromMappedPeer(clients: map<Conn, u8>, peerId: int) {
    exists conn :: conn in clients && clients[conn] as int == peerId
  }

  /** The message phase changes nothing but the debug queue and the packet
      list; every packet it adds carries the id mapped to its sender. */
  lemma {:induction false} ServerMessagesOnlyAddPackets<IA, GS, CH, PD>(
    c: Codecs<IA, GS, CH, PD>, t: ServerTick<Packet<IA, GS, CH, PD>>, ms: seq<Message>)
    ensures var r := ServerMessagesFold(c, t, ms);
      && r.pool == t.pool && r.clients == t.clients && r.calls == t.calls
      && r.connects == t.connects && r.disconnects == t.disconnects
      && |t.packets| <= |r.packets| <= |t.packets| + |ms|
      && r.packets[..|t.packets|] == t.packets
      && (forall k :: |t.packets| <= k < |r.packets| ==> FromMappedPeer(t.clients, r.packets[k].0))
    decreases |ms|
  {
    if ms != [] {
      var mid := ServerMessagesFold(c, t, ms[..|ms| - 1]);
      ServerMessagesOnlyAddPackets(c, t, ms[..|ms| - 1]);
      var m := ms[|ms| - 1];
      var r := OnServerMessage(c, mid, m);
      if m.conn in mid.clients && Decode(c, m.payload).Ok? {
        assert r.packets == mid.packets + [(mid.clients[m.conn] as int, Decode(c, m.payload).value)];
        assert r.packets[..|t.packets|] == mid.packets[..|t.packets|];
        forall k | |t.packets| <= k < |r.packets|
          ensures FromMappedPeer(t.clients, r.packets[k].0)
        {
          if k == |mid.packets| {
            assert m.conn in t.clients && t.clients[m.conn] as int == r.packets[k].0;
          } else {
            assert r.packets[k] == mid.packets[k];
          }
        }
      } else {
        assert r.packets == mid.packets;
        assert r == mid.(debug := r.debug);
      }
    }
  }

  /** A message from an unmapped connection, or one that fails to decode,
      only adds a debug line. */
  lemma DroppedMessagesChangeOnlyDebug<IA, GS, CH, PD>(
    c: Codecs<IA, GS, CH, PD>, t: ServerTick<Packet<IA, GS, CH, PD>>, m: Message)
    requires m.conn !in t.clients || Decode(c, m.payload).Err?
    ensures OnServerMessage(c, t, m) == t.(debug := OnServerMessage(c, t, m).debug)
    ensures |t.debug| <= DEBUG_QUEUE_LIMIT ==> |OnServerMessage(c, t, m).debug| <= DEBUG_QUEUE_LIMIT
  {
  }

  /** Emission order: no disconnect precedes a connect and no packet
      precedes a connect or disconnect. */
  function EmissionRank<P>(n: Notification<P>): nat {
    match n
    case PeerConnect(_) => 0
    case PeerDisconnect(_) => 1
    case ServerPacket(_, _) => 2
    case ConnectToServer => 1
    case DisconnectFromServer => 0
    case ClientPacket(_) => 2
  }

  lemma ServerEmissionsAreOrdered<P>(t: ServerTick<P>)
    ensures var r := ServerEmissions(t);
      forall i, j :: 0 <= i < j < |r| ==> EmissionRank(r[i]) <= EmissionRank(r[j])
  {
    var r := ServerEmissions(t);
    var n0, n1 := |t.connects|, |t.connects| + |t.disconnects|;
    assert forall i :: 0 <= i < |r| ==> EmissionRank(r[i]) == (if i < n0 then 0 else if i < n1 then 1 else 2);
  }

  // ---------------------------------------------------------------------
  // Specification of one client tick.

  datatype ClientTick<P> = ClientTick(debug: seq<DebugLine>, packets: seq<P>, connect: bool, disconnect: bool)

  /** The message closure of `handle_client_events`. */
  function OnClientMessage<IA, GS, CH, PD>(c: Codecs<IA, GS, CH, PD>, t: ClientTick<Packet<IA, GS, CH, PD>>, payload: seq<u8>)
    : ClientTick<Packet<IA, GS, CH, PD>>
  {
    match Decode(c, payload)
    case Ok(p) => t.(packets := t.packets + [p])
    case Err(error) => t.(debug := BoundedPush(t.debug, DecodeFailed(error, payload)))
  }

  /** The connection-event closure of `handle_client_events`. */
  function OnClientEvent<P>(t: ClientTick<P>, e: ConnectionEvent): ClientTick<P> {
    if e.oldState == StateNone && e.newState == Connecting then
      t.(debug := BoundedPush(t.debug, ConnectingToServer))
    else if e.oldState == Connecting && e.newState == Connected then
      t.(debug := BoundedPush(t.debug, ConnectedToServer), connect := true)
    else if IsClosing(e.newState) then
      t.(debug := BoundedPush(t.debug, PhoneHome), disconnect := true)
    else
      t.(debug := BoundedPush(t.debug, ClientStateChange(e.oldState, e.newState)))
  }

  function ClientMessagesFold<IA, GS, CH, PD>(c: Codecs<IA, GS, CH, PD>, t: ClientTick<Packet<IA, GS, CH, PD>>, ms: seq<Message>)
    : ClientTick<Packet<IA, GS, CH, PD>>
    decreases |ms|
  {
    if ms == [] then t else OnClientMessage(c, ClientMessagesFold(c, t, ms[..|ms| - 1]), ms[|ms| - 1].payload)
  }

  function ClientEventsFold<P>(t: ClientTick<P>, es: seq<ConnectionEvent>): ClientTick<P>
    decreases |es|
  {
    if es == [] then t else OnClientEvent(ClientEventsFold(t, es[..|es| - 1]), es[|es| - 1])
  }

  /** A whole client tick: all messages, then all connection events. */
  function ClientTickOf<IA, GS, CH, PD>(c: Codecs<IA, GS, CH, PD>, debug: seq<DebugLine>, messages: seq<Message>, events: seq<ConnectionEvent>)
    : ClientTick<Packet<IA, GS, CH, PD>>
  {
    ClientEventsFold(ClientMessagesFold(c, ClientTick(debug, [], false, false), messages), events)
  }

  /** The client's signals: disconnect first, then connect, then packets. */
  function ClientEmissions<P>(t: ClientTick<P>): (r: seq<Notification<P>>)
    ensures |r| == (if t.disconnect then 1 else 0) + (if t.connect then 1 else 0) + |t.packets|
  {
    (if t.disconnect then [DisconnectFromServer] else [])
    + (if t.connect then [ConnectToServer] else [])
    + seq(|t.packets|, k requires 0 <= k < |t.packets| => ClientPacket(t.packets[k]))
  }

  /** The client raises its disconnect flag exactly when some event moves
      to a closing state, and its connect flag exactly when some event is
      Connecting -> Connected; the packets are untouched by events. */
  lemma {:induction false} ClientEventsSetFlags<P>(t: ClientTick<P>, es: seq<ConnectionEvent>)
    ensures var r := ClientEventsFold(t, es);
      && r.packets == t.packets
      && (r.disconnect <==> t.disconnect || exists k :: 0 <= k < |es| && IsClosing(es[k].newState))
      && (r.connect <==> t.connect || exists k :: 0 <= k < |es| && es[k].oldState == Connecting && es[k].newState == Connected)
    decreases |es|
  {
    if es != [] {
      var init := es[..|es| - 1];
      ClientEventsSetFlags(t, init);
      assert forall k :: 0 <= k < |init| ==> init[k] == es[k];
    }
  }

  /** The client's emissions are ordered: the disconnect (if any) first,
      the connect next, the packets last. */
  lemma ClientEmissionsAreOrdered<P>(t: ClientTick<P>)
    ensures var r := ClientEmissions(t);
      && (t.disconnect ==> r[0] == DisconnectFromServer)
      && forall i, j :: 0 <= i < j < |r| ==> EmissionRank(r[i]) <= EmissionRank(r[j])
  {
    var r := ClientEmissions(t);
    var n0 := if t.disconnect then 1 else 0;
    var n1 := n0 + (if t.connect then 1 else 0);
    assert forall i :: 0 <= i < |r| ==> EmissionRank(r[i]) == (if i < n0 then 0 else if i < n1 then 1 else 2);
  }

  // ---------------------------------------------------------------------

  /** The node object. The transport sockets are reduced to whether they
      exist; the global debug queue the transport's callbacks write into is
      this object's `debugMessages`. */
  class NetworkHandler<IA, GS, CH, PD> {
    const codecs: Codecs<IA, GS, CH, PD>
    var isConnected: bool
    var isServer: bool
    var hasServer: bool
    var hasClient: bool
    var availablePeerIds: seq<int>
    var connectedClients: map<Conn, u8>
    var debugMessages: seq<DebugLine>

    ghost predicate Valid()
      reads this
    {
      PoolShape(availablePeerIds) && |debugMessages| <= DEBUG_QUEUE_LIMIT
    }

    constructor (codecs: Codecs<IA, GS, CH, PD>)
      ensures Valid() && this.codecs == codecs
      ensures !isConnected && !isServer && !hasServer && !hasClient
      ensures availablePeerIds == [] && connectedClients == map[] && debugMessages == []
    {
      this.codecs := codecs;
      isConnected := false;
      isServer := false;
      hasServer := false;
      hasClient := false;
      availablePeerIds := [];
      connectedClients := map[];
      debugMessages := [];
    }

    /** `_start_server`; `listenOk` is whether the transport's `listen`
        succeeded. The role and the refilled pool are set first; a port
        outside the u16 range then panics in the conversion before the
        socket and the connected flag are touched. The client map is not
        cleared. */
    method StartServer(port: int, listenOk: bool) returns (panicked: bool)
      requires Valid()
      modifies this
      ensures Valid()
      ensures panicked <==> !IsU16(port)
      ensures isServer && availablePeerIds == FullPool()
      ensures panicked ==> hasServer == old(hasServer) && isConnected == old(isConnected)
      ensures !panicked ==> isConnected && hasServer == listenOk
      ensures connectedClients == old(connectedClients) && debugMessages == old(debugMessages)
      ensures hasClient == old(hasClient)
      ensures old(connectedClients) == map[] ==> SessionInvariant(availablePeerIds, connectedClients)
    {
      isServer := true;
      availablePeerIds := FullPool();
      if !IsU16(port) {
        return true;
      }
      hasServer := listenOk;
      isConnected := true;
      return false;
    }

    /** `_start_client`; `connectOk` is whether the transport's `connect`
        succeeded. The role is set first; a port outside the u16 range then
        panics before the socket and the connected flag are touched. */
    method StartClient(port: int, connectOk: bool) returns (panicked: bool)
      requires Valid()
      modifies this`isServer, this`hasClient, this`isConnected
      ensures Valid()
      ensures panicked <==> !IsU16(port)
      ensures !isServer
      ensures panicked ==> hasClient == old(hasClient) && isConnected == old(isConnected)
      ensures !panicked ==> isConnected && hasClient == connectOk
    {
      isServer := false;
      if !IsU16(port) {
        return true;
      }
      hasClient := connectOk;
      isConnected := true;
      return false;
    }

    method DisconnectClient() returns (emitted: seq<Notification<Packet<IA, GS, CH, PD>>>)
      modifies this`hasClient, this`isConnected
      ensures !hasClient && !isConnected
      ensures emitted == [DisconnectFromServer]
    {
      hasClient := false;
      isConnected := false;
      emitted := [DisconnectFromServer];
    }

    method DestroyServer()
      modifies this`hasServer, this`isConnected
      ensures !hasServer && !isConnected
    {
      hasServer := false;
      isConnected := false;
    }

    /** `queue_debug`. */
    method QueueDebug(line: DebugLine)
      requires |debugMessages| <= DEBUG_QUEUE_LIMIT
      modifies this`debugMessages
      ensures debugMessages == BoundedPush(old(debugMessages), line)
      ensures |debugMessages| <= DEBUG_QUEUE_LIMIT
    {
      debugMessages := debugMessages + [line];
      if |debugMessages| > DEBUG_QUEUE_LIMIT {
        debugMessages := debugMessages[1..];
      }
    }

    /** `queue_debug_message`, the transport's debug callback. */
    method QueueDebugMessage(prefix: string, level: nat, text: string)
      requires |debugMessages| <= DEBUG_QUEUE_LIMIT
      modifies this`debugMessages
      ensures debugMessages == BoundedPush(old(debugMessages), GnsOutput(prefix, level, text))
      ensures |debugMessages| <= DEBUG_QUEUE_LIMIT
    {
      QueueDebug(GnsOutput(prefix, level, text));
    }

    /** `process_debug_messages`: pops and prints up to ten lines. */
    method ProcessDebugMessages() returns (printed: seq<DebugLine>)
      requires Valid()
      modifies this`debugMessages
      ensures Valid()
      ensures printed == old(debugMessages)[..DrainCount(old(debugMessages))]
      ensures debugMessages == old(debugMessages)[DrainCount(old(debugMessages))..]
    {
      printed := [];
      for i := 0 to DEBUG_MESSAGES_PER_FRAME
        invariant |printed| == i && i <= |old(debugMessages)|
        invariant printed == old(debugMessages)[..i]
        invariant debugMessages == old(debugMessages)[i..]
      {
        if |debugMessages| == 0 {
          return;
        }
        printed := printed + [debugMessages[0]];
        debugMessages := debugMessages[1..];
      }
    }

    /** `handle_events`: nothing while not connected; otherwise the server
        or client tick. */
    method HandleEvents(events: seq<ConnectionEvent>, messages: seq<Message>)
      returns (panicked: bool, calls: seq<TransportCall>, emitted: seq<Notification<Packet<IA, GS, CH, PD>>>)
      requires Valid()
      modifies this
      ensures Valid()
      ensures !old(isConnected) ==> !panicked && calls == [] && emitted == [] && unchanged(this)
      ensures old(isConnected) && old(isServer) ==> panicked == !old(hasServer)
      ensures old(isConnected) && old(isServer) && panicked ==> unchanged(this) && calls == [] && emitted == []
      ensures old(isConnected) && old(isServer) && !panicked ==>
        var t := ServerTickOf(codecs, old(availablePeerIds), old(connectedClients), old(debugMessages), events, messages);
        && availablePeerIds == t.pool && connectedClients == t.clients && debugMessages == t.debug
        && calls == t.calls && emitted == ServerEmissions(t)
        && isConnected && isServer && hasServer && hasClient == old(hasClient)
      ensures old(isConnected) && !old(isServer) ==> panicked == !old(hasClient) && calls == []
      ensures old(isConnected) && !old(isServer) && panicked ==> unchanged(this) && emitted == []
      ensures old(isConnected) && !old(isServer) && !panicked ==>
        var t := ClientTickOf(codecs, old(debugMessages), messages, events);
        && debugMessages == t.debug && emitted == ClientEmissions(t)
        && isConnected == !t.disconnect && hasClient == !t.disconnect
        && availablePeerIds == old(availablePeerIds) && connectedClients == old(connectedClients)
        && !isServer && hasServer == old(hasServer)
    {
      panicked, calls, emitted := false, [], [];
      if !isConnected {
        return;
      }

      if isServer {
        panicked, calls, emitted := HandleServerEvents(events, messages);
      } else {
        panicked, emitted := HandleClientEvents(messages, events);
      }
    }

    /** `handle_server_events` without the periodic statistics dump. A
        missing server socket panics; the model reports it and changes
        nothing. */
    method HandleServerEvents(events: seq<ConnectionEvent>, messages: seq<Message>)
      returns (panicked: bool, calls: seq<TransportCall>, emitted: seq<Notification<Packet<IA, GS, CH, PD>>>)
      requires Valid()
      modifies this
      ensures Valid()
      ensures panicked <==> !old(hasServer)
      ensures panicked ==> unchanged(this) && calls == [] && emitted == []
      ensures !panicked ==>
        var t := ServerTickOf(codecs, old(availablePeerIds), old(connectedClients), old(debugMessages), events, messages);
        && availablePeerIds == t.pool && connectedClients == t.clients && debugMessages == t.debug
        && calls == t.calls && emitted == ServerEmissions(t)
        && isConnected == old(isConnected) && isServer == old(isServer) && hasServer && hasClient == old(hasClient)
    {
      panicked, calls, emitted := false, [], [];
      if !hasServer {
        panicked := true;
        return;
      }

      var packetsToEmit: seq<(int, Packet<IA, GS, CH, PD>)> := [];
      var peerConnectsToEmit: seq<int> := [];
      var peerDisconnectsToEmit: seq<int> := [];
      ghost var start := ServerTick(availablePeerIds, connectedClients, debugMessages, [], [], [], []);

      for i := 0 to |events|
        invariant Valid()
        invariant unchanged(this`isConnected, this`isServer, this`hasServer, this`hasClient)
        invariant ServerTick(availablePeerIds, connectedClients, debugMessages, calls, peerConnectsToEmit, peerDisconnectsToEmit, packetsToEmit)
               == ServerEventsFold(start, events[..i])
      {
        assert events[..i + 1][..i] == events[..i];
        calls, peerConnectsToEmit, peerDisconnectsToEmit :=
          OnServerConnectionEvent(events[i], calls, peerConnectsToEmit, peerDisconnectsToEmit, packetsToEmit);
      }
      assert events[..|events|] == events;

      ghost var afterEvents := ServerEventsFold(start, events);
      for i := 0 to |messages|
        invariant Valid()
        invariant unchanged(this`isConnected, this`isServer, this`hasServer, this`hasClient)
        invariant ServerTick(availablePeerIds, connectedClients, debugMessages, calls, peerConnectsToEmit, peerDisconnectsToEmit, packetsToEmit)
               == ServerMessagesFold(codecs, afterEvents, messages[..i])
      {
        assert messages[..i + 1][..i] == messages[..i];
        packetsToEmit := OnServerMessageReceived(messages[i], calls, peerConnectsToEmit, peerDisconnectsToEmit, packetsToEmit);
      }
      assert messages[..|messages|] == messages;

      emitted := EmitServerNotifications(ServerTick(availablePeerIds, connectedClients, debugMessages, calls, peerConnectsToEmit, peerDisconnectsToEmit, packetsToEmit));
    }

    /** One connection event of a server tick; `calls`, `connects`,
        `disconnects` and `packets` are what the tick has gathered so far. */
    method OnServerConnectionEvent(e: ConnectionEvent, calls: seq<TransportCall>, connects: seq<int>, disconnects: seq<int>,
                                   ghost packets: seq<(int, Packet<IA, GS, CH, PD>)>)
      returns (calls': seq<TransportCall>, connects': seq<int>, disconnects': seq<int>)
      requires Valid()
      modifies this`availablePeerIds, this`connectedClients, this`debugMessages
      ensures Valid()
      ensures ServerTick(availablePeerIds, connectedClients, debugMessages, calls', connects', disconnects', packets)
           == OnServerEvent(ServerTick(old(availablePeerIds), old(connectedClients), old(debugMessages), calls, connects, disconnects, packets), e)
    {
      calls', connects', disconnects' := calls, connects, disconnects;
      if e.oldState == StateNone && e.newState == Connecting {
        if |availablePeerIds| == 0 {
          QueueDebug(NoAvailablePeerIds);
          calls' := calls' + [Close(e.conn, SERVER_FULL)];
        } else {
          calls' := calls' + [Accept(e.conn)];
          QueueDebug(AcceptedClient(e.conn));
          QueueDebug(ClientCount(|connectedClients|));
        }
      } else if e.oldState == Connecting && e.newState == Connected {
        if |availablePeerIds| > 0 {
          var peerId := availablePeerIds[|availablePeerIds| - 1];
          availablePeerIds := availablePeerIds[..|availablePeerIds| - 1];
          connectedClients := connectedClients[e.conn := peerId];
          QueueDebug(PeerConnected(peerId));
          connects' := connects' + [peerId];
        } else {
          QueueDebug(PoolExhaustedOnConnect);
          calls' := calls' + [Close(e.conn, SERVER_FULL)];
        }
      } else if e.newState == ClosedByPeer || e.newState == ProblemDetectedLocally {
        var conn := e.conn;
        if conn in connectedClients {
          var peerId := connectedClients[conn];
          connectedClients := connectedClients - {conn};
          QueueDebug(PeerDisconnected(conn, peerId));
          disconnects' := disconnects' + [peerId];
        } else {
          QueueDebug(UnknownDisconnect(conn));
        }
        QueueDebug(ClosingConnection(conn));
        calls' := calls' + [Close(conn, "")];
      } else {
        QueueDebug(ServerStateChange(e.oldState, e.newState));
      }
    }

    /** One inbound message of a server tick. */
    method OnServerMessageReceived(m: Message, ghost calls: seq<TransportCall>, ghost connects: seq<int>, ghost disconnects: seq<int>,
                                   packets: seq<(int, Packet<IA, GS, CH, PD>)>)
      returns (packets': seq<(int, Packet<IA, GS, CH, PD>)>)
      requires Valid()
      modifies this`debugMessages
      ensures Valid()
      ensures ServerTick(availablePeerIds, connectedClients, debugMessages, calls, connects, disconnects, packets')
           == OnServerMessage(codecs, ServerTick(availablePeerIds, connectedClients, old(debugMessages), calls, connects, disconnects, packets), m)
    {
      packets' := packets;
      var packet := Decode(codecs, m.payload);
      if m.conn !in connectedClients {
        QueueDebug(UnknownPeer(m.conn));
      } else {
        var peerId: int := connectedClients[m.conn];
        match packet
        case Ok(p) =>
          packets' := packets' + [(peerId, p)];
        case Err(error) =>
          QueueDebug(DecodeFailed(error, m.payload));
      }
    }

    /** The three emission loops at the end of a server tick. */
    static method EmitServerNotifications<P>(t: ServerTick<P>) returns (emitted: seq<Notification<P>>)
      ensures emitted == ServerEmissions(t)
    {
      emitted := [];
      for k := 0 to |t.connects|
        invariant emitted == seq(k, j requires 0 <= j < k => PeerConnect(t.connects[j]))
      {
        emitted := emitted + [PeerConnect(t.connects[k])];
      }
      ghost var connectPart := emitted;
      for k := 0 to |t.disconnects|
        invariant emitted == connectPart + seq(k, j requires 0 <= j < k => PeerDisconnect(t.disconnects[j]))
      {
        emitted := emitted + [PeerDisconnect(t.disconnects[k])];
      }
      ghost var peerPart := emitted;
      for k := 0 to |t.packets|
        invariant emitted == peerPart + seq(k, j requires 0 <= j < k => ServerPacket(t.packets[j].0, t.packets[j].1))
      {
        emitted := emitted + [ServerPacket(t.packets[k].0, t.packets[k].1)];
      }
    }

    /** `handle_client_events`. A missing client socket panics; the model
        reports it and changes nothing. */
    method HandleClientEvents(messages: seq<Message>, events: seq<ConnectionEvent>)
      returns (panicked: bool, emitted: seq<Notification<Packet<IA, GS, CH, PD>>>)
      requires Valid()
      modifies this
      ensures Valid()
      ensures panicked <==> !old(hasClient)
      ensures panicked ==> unchanged(this) && emitted == []
      ensures !panicked ==>
        var t := ClientTickOf(codecs, old(debugMessages), messages, events);
        && debugMessages == t.debug && emitted == ClientEmissions(t)
        && isConnected == (old(isConnected) && !t.disconnect) && hasClient == !t.disconnect
        && availablePeerIds == old(availablePeerIds) && connectedClients == old(connectedClients)
        && isServer == old(isServer) && hasServer == old(hasServer)
    {
      panicked, emitted := false, [];
      if !hasClient {
        panicked := true;
        return;
      }

      var packetsToEmit: seq<Packet<IA, GS, CH, PD>> := [];
      ghost var start := ClientTick(debugMessages, [], false, false);
      for i := 0 to |messages|
        invariant Valid()
        invariant unchanged(this`isConnected, this`isServer, this`hasServer, this`hasClient, this`availablePeerIds, this`connectedClients)
        invariant ClientTick(debugMessages, packetsToEmit, false, false) == ClientMessagesFold(codecs, start, messages[..i])
      {
        assert messages[..i + 1][..i] == messages[..i];
        var payload := messages[i].payload;
        match Decode(codecs, payload)
        case Ok(p) =>
          packetsToEmit := packetsToEmit + [p];
        case Err(error) =>
          QueueDebug(DecodeFailed(error, payload));
      }
      assert messages[..|messages|] == messages;

      ghost var afterMessages := ClientMessagesFold(codecs, start, messages);
      var emitDisconnect := false;
      var emitConnect := false;
      for i := 0 to |events|
        invariant Valid()
        invariant unchanged(this`isConnected, this`isServer, this`hasServer, this`hasClient, this`availablePeerIds, this`connectedClients)
        invariant ClientTick(debugMessages, packetsToEmit, emitConnect, emitDisconnect) == ClientEventsFold(afterMessages, events[..i])
      {
        assert events[..i + 1][..i] == events[..i];
        emitConnect, emitDisconnect := OnClientConnectionEvent(events[i], packetsToEmit, emitConnect, emitDisconnect);
      }
      assert events[..|events|] == events;

      if emitDisconnect {
        isConnected := false;
        hasClient := false;
      }
      emitted := EmitClientNotifications(ClientTick(debugMessages, packetsToEmit, emitConnect, emitDisconnect));
    }

    /** One connection event of a client tick. */
    method OnClientConnectionEvent(e: ConnectionEvent, ghost packets: seq<Packet<IA, GS, CH, PD>>, connect: bool, disconnect: bool)
      returns (connect': bool, disconnect': bool)
      requires Valid()
      modifies this`debugMessages
      ensures Valid()
      ensures ClientTick(debugMessages, packets, connect', disconnect')
           == OnClientEvent(ClientTick(old(debugMessages), packets, connect, disconnect), e)
    {
      connect', disconnect' := connect, disconnect;
      if e.oldState == StateNone && e.newState == Connecting {
        QueueDebug(ConnectingToServer);
      } else if e.oldState == Connecting && e.newState == Connected {
        QueueDebug(ConnectedToServer);
        connect' := true;
      } else if e.newState == ClosedByPeer || e.newState == ProblemDetectedLocally {
        QueueDebug(PhoneHome);
        disconnect' := true;
      } else {
        QueueDebug(ClientStateChange(e.oldState, e.newState));
      }
    }

    /** The emissions at the end of a client tick. */
    static method EmitClientNotifications<P>(t: ClientTick<P>) returns (emitted: seq<Notification<P>>)
      ensures emitted == ClientEmissions(t)
    {
      emitted := [];
      if t.disconnect {
        emitted := emitted + [DisconnectFromServer];
      }
      if t.connect {
        emitted := emitted + [ConnectToServer];
      }
      ghost var flagPart := emitted;
      for k := 0 to |t.packets|
        invariant emitted == flagPart + seq(k, j requires 0 <= j < k => ClientPacket(t.packets[j]))
      {
        emitted := emitted + [ClientPacket(t.packets[k])];
      }
    }
  }
}
