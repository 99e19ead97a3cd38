/** A BASP connection: headers and payloads, the handshake, the handlers and the table of pending lookups. */
module BaspApplication {
  import opened Bytes
  import opened StreamLayer
  import opened BaspHeader

  const VERSION: nat := 1

  datatype Phase = AwaitHandshakeHeader | AwaitHandshakePayload | AwaitHeader | AwaitPayload | Shutdown

  /** `Unreadable` and `Unwritable` stand for the errors of the deserializer and the serializer. */
  datatype Error =
    | UnexpectedNumberOfBytes
    | UnexpectedPayload
    | MissingPayload
    | IllegalState
    | InvalidHandshake
    | MissingHandshake
    | UnexpectedHandshake
    | VersionMismatch
    | Unimplemented
    | AppIdentifiersMismatch
    | InvalidPayload
    | Unreadable
    | Unwritable

  datatype Packet = Packet(header: Header, payload: seq<byte>)

  /** The fields of a handshake; node 0 is the invalid node. */
  datatype Greeting = Greeting(node: nat, appIds: seq<string>)

  /** A sequence prefix with the size it announces and the bytes that remain. */
  datatype Sequence = Sequence(size: nat, rest: seq<byte>)

  datatype Found = Found(actor: nat, interfaces: set<string>)

  datatype Answer =
    | LookupFailed
    | Nobody(interfaces: set<string>)
    | Proxy(node: nat, actor: nat, interfaces: set<string>)

  /** What a handler does besides writing packets. */
  datatype Effect =
    | Launched(packet: Packet)
    | Registered(actor: nat)
    | Attached(node: nat, actor: nat)
    | Erased(node: nat, actor: nat)
    | Answered(listener: nat, answer: Answer)

  /** Serializers, deserializers and the registry; lookups may change between two messages. */
  datatype World = World(configuredIds: seq<string>,
                         readGreeting: seq<byte> -> Option<Greeting>,
                         readSequence: seq<byte> -> Option<Sequence>,
                         resolveLocal: (nat, seq<byte>) -> nat,
                         writeFound: Found -> Option<seq<byte>>,
                         readFound: seq<byte> -> Option<Found>,
                         writePath: seq<byte> -> Option<seq<byte>>,
                         isRegistered: (nat, nat) -> bool,
                         writeReason: Option<seq<byte>>,
                         readReason: seq<byte> -> bool)

  /** `handled` are the packets dispatched to a handler, `packets` those written to the peer. */
  datatype Conn = Conn(phase: Phase, hdr: Header, readSize: nat, node: nat, nextRequestId: uint64,
                       pending: map<nat, nat>, packets: seq<Packet>, effects: seq<Effect>, handled: seq<Packet>)

  datatype Result = Result(conn: Conn, error: Option<Error>)

  function Fail(c: Conn, e: Error): Result {
    Result(c, Some(e))
  }

  function Succeed(c: Conn): Result {
    Result(c, None)
  }

  /** A packet as it is written: the size is cut to 32 bits. */
  function MakePacket(kind: byte, payload: seq<byte>, operationData: uint64): Packet {
    Packet(Header(kind, |payload| % UINT32_LIMIT, operationData), payload)
  }

  // -- handlers -------------------------------------------------------------------------------------------------------

  function OnHandshake(w: World, c: Conn, hdr: Header, payload: seq<byte>): Result {
    if hdr.kind != HANDSHAKE then Fail(c, MissingHandshake)
    else if hdr.operationData != VERSION then Fail(c, VersionMismatch)
    else
      match w.readGreeting(payload)
      case None => Fail(c, Unreadable)
      case Some(g) =>
        if g.node == 0 || g.appIds == [] then Fail(c, InvalidHandshake)
        else if forall id :: id in g.appIds ==> id !in w.configuredIds then Fail(c, AppIdentifiersMismatch)
        else Succeed(c.(node := g.node, phase := AwaitHeader))
  }

  function OnResolveRequest(w: World, c: Conn, p: Packet): Result {
    match w.readSequence(p.payload)
    case None => Fail(c, Unreadable)
    case Some(s) =>
      if s.size != |s.rest| then Fail(c, InvalidPayload)
      else
        var actor := w.resolveLocal(|c.handled|, s.rest);
        var c' := if actor != 0 then c.(effects := c.effects + [Registered(actor)]) else c;
        match w.writeFound(Found(actor, {}))
        case None => Fail(c', Unwritable)
        case Some(bytes) =>
          Succeed(c'.(packets := c'.packets + [MakePacket(RESOLVE_RESPONSE, bytes, p.header.operationData)]))
  }

  function AnswerOf(w: World, c: Conn, payload: seq<byte>): Answer {
    match w.readFound(payload)
    case None => LookupFailed
    case Some(Found(actor, ifs)) => if actor == 0 then Nobody(ifs) else Proxy(c.node, actor, ifs)
  }

  function OnResolveResponse(w: World, c: Conn, p: Packet): Result {
    var id := p.header.operationData;
    if id !in c.pending then Succeed(c)
    else
      var c' := c.(pending := c.pending - {id},
                   effects := c.effects + [Answered(c.pending[id], AnswerOf(w, c, p.payload))]);
      if w.readFound(p.payload).None? then Fail(c', Unreadable) else Succeed(c')
  }

  function OnMonitor(w: World, c: Conn, p: Packet): Result {
    if p.payload != [] then Fail(c, UnexpectedPayload)
    else if w.isRegistered(|c.handled|, p.header.operationData) then
      Succeed(c.(effects := c.effects + [Attached(c.node, p.header.operationData)]))
    else
      match w.writeReason
      case None => Fail(c, Unwritable)
      case Some(bytes) => Succeed(c.(packets := c.packets + [MakePacket(DOWN_MESSAGE, bytes, p.header.operationData)]))
  }

  function OnDown(w: World, c: Conn, p: Packet): Result {
    if !w.readReason(p.payload) then Fail(c, Unreadable)
    else Succeed(c.(effects := c.effects + [Erased(c.node, p.header.operationData)]))
  }

  /** The handlers by message type. */
  function OnMessage(w: World, c: Conn, p: Packet): Result {
    var kind := p.header.kind;
    if kind == HANDSHAKE then Fail(c, UnexpectedHandshake)
    else if kind == ACTOR_MESSAGE then Succeed(c.(effects := c.effects + [Launched(p)]))
    else if kind == RESOLVE_REQUEST then OnResolveRequest(w, c, p)
    else if kind == RESOLVE_RESPONSE then OnResolveResponse(w, c, p)
    else if kind == MONITOR_MESSAGE then OnMonitor(w, c, p)
    else if kind == DOWN_MESSAGE then OnDown(w, c, p)
    else if kind == HEARTBEAT then Succeed(c)
    else Fail(c, Unimplemented)
  }

  function Dispatch(w: World, c: Conn, p: Packet): Result {
    OnMessage(w, c.(handled := c.handled + [p]), p)
  }

  // -- the state machine ----------------------------------------------------------------------------------------------

  /** The outcome of one call with the size the next read should have. */
  datatype Step = Step(result: Result, nextReadSize: nat)

  function Handle(w: World, c: Conn, bytes: seq<byte>): Step {
    match c.phase
    case AwaitHandshakeHeader =>
      if |bytes| != HEADER_SIZE then Step(Fail(c, UnexpectedNumberOfBytes), HEADER_SIZE)
      else
        var c' := c.(hdr := FromBytes(bytes));
        if c'.hdr.kind != HANDSHAKE then Step(Fail(c', MissingHandshake), HEADER_SIZE)
        else if c'.hdr.operationData != VERSION then Step(Fail(c', VersionMismatch), HEADER_SIZE)
        else if c'.hdr.payloadLen == 0 then Step(Fail(c', MissingPayload), HEADER_SIZE)
        else Step(Succeed(c'.(phase := AwaitHandshakePayload)), c'.hdr.payloadLen)
    case AwaitHandshakePayload => Step(OnHandshake(w, c, c.hdr, bytes), HEADER_SIZE)
    case AwaitHeader =>
      if |bytes| != HEADER_SIZE then Step(Fail(c, UnexpectedNumberOfBytes), HEADER_SIZE)
      else
        var c' := c.(hdr := FromBytes(bytes));
        if c'.hdr.payloadLen == 0 then Step(Dispatch(w, c', Packet(c'.hdr, [])), HEADER_SIZE)
        else Step(Succeed(c'.(phase := AwaitPayload)), c'.hdr.payloadLen)
    case AwaitPayload =>
      if |bytes| != c.hdr.payloadLen then Step(Fail(c, UnexpectedNumberOfBytes), HEADER_SIZE)
      else Step(Dispatch(w, c.(phase := AwaitHeader), Packet(c.hdr, bytes)), HEADER_SIZE)
    case Shutdown => Step(Fail(c, IllegalState), HEADER_SIZE)
  }

  function HandleData(w: World, c: Conn, bytes: seq<byte>): Result {
    var s := Handle(w, c, bytes);
    if s.result.error.Some? then s.result else Succeed(s.result.conn.(readSize := s.nextReadSize))
  }

  function Resolve(w: World, c: Conn, path: seq<byte>, listener: nat): Conn {
    match w.writePath(path)
    case None => c
    case Some(bytes) =>
      var id := c.nextRequestId;
      c.(nextRequestId := (id + 1) % UINT64_LIMIT,
         packets := c.packets + [MakePacket(RESOLVE_REQUEST, bytes, id)],
         pending := if id in c.pending then c.pending else c.pending[id := listener])
  }

  /** `new_proxy`: the peer is asked to watch an actor of its own. */
  function NewProxy(c: Conn, actor: uint64): Conn {
    c.(packets := c.packets + [MakePacket(MONITOR_MESSAGE, [], actor)])
  }

  /** `local_actor_down` with the serialized reason. */
  function LocalActorDown(c: Conn, actor: uint64, reason: seq<byte>): Conn {
    c.(packets := c.packets + [MakePacket(DOWN_MESSAGE, reason, actor)])
  }

  function Start(greeting: seq<byte>): Conn {
    Conn(AwaitHandshakeHeader, Header(HANDSHAKE, 0, 0), HEADER_SIZE, 0, 1, map[],
        [MakePacket(HANDSHAKE, greeting, VERSION)], [], [])
  }

  // -- the application class ------------------------------------------------------------------------------------------

  class Application {
    const world: World
    var phase: Phase
    var hdr: Header
    var readSize: nat
    var node: nat
    var nextRequestId: uint64
    var pending: map<nat, nat>
    var packets: seq<Packet>
    var effects: seq<Effect>
    var handled: seq<Packet>

    ghost function Abs(): Conn
      reads this
    {
      Conn(phase, hdr, readSize, node, nextRequestId, pending, packets, effects, handled)
    }

    /** `init` with the payload that `generate_handshake` has written. */
    constructor (world: World, greeting: seq<byte>)
      ensures this.world == world && Abs() == Start(greeting)
    {
      this.world := world;
      phase, hdr, readSize, node := AwaitHandshakeHeader, Header(HANDSHAKE, 0, 0), HEADER_SIZE, 0;
      nextRequestId, pending, effects, handled := 1, map[], [], [];
      packets := [MakePacket(HANDSHAKE, greeting, VERSION)];
    }

    method WritePacket(kind: byte, payload: seq<byte>, operationData: uint64)
      modifies this`packets
      ensures packets == old(packets) + [MakePacket(kind, payload, operationData)]
    {
      packets := packets + [MakePacket(kind, payload, operationData)];
    }

    method HandleHandshake(payload: seq<byte>) returns (error: Option<Error>)
      modifies this`node, this`phase
      ensures Result(Abs(), error) == OnHandshake(world, old(Abs()), hdr, payload)
    {
      if hdr.kind != HANDSHAKE {
        return Some(MissingHandshake);
      }
      if hdr.operationData != VERSION {
        return Some(VersionMismatch);
      }
      var greeting := world.readGreeting(payload);
      if greeting.None? {
        return Some(Unreadable);
      }
      var g := greeting.value;
      if g.node == 0 || g.appIds == [] {
        return Some(InvalidHandshake);
      }
      var i := 0;
      while i < |g.appIds| && g.appIds[i] !in world.configuredIds
        invariant i <= |g.appIds| && forall k :: 0 <= k < i ==> g.appIds[k] !in world.configuredIds
      {
        i := i + 1;
      }
      if i == |g.appIds| {
        return Some(AppIdentifiersMismatch);
      }
      assert g.appIds[i] in g.appIds;
      node := g.node;
      phase := AwaitHeader;
      return None;
    }

    method HandleResolveRequest(p: Packet) returns (error: Option<Error>)
      modifies this`effects, this`packets
      ensures Result(Abs(), error) == OnResolveRequest(world, old(Abs()), p)
    {
      var s := world.readSequence(p.payload);
      if s.None? {
        return Some(Unreadable);
      }
      if s.value.size != |s.value.rest| {
        return Some(InvalidPayload);
      }
      var actor := world.resolveLocal(|handled|, s.value.rest);
      if actor != 0 {
        effects := effects + [Registered(actor)];
      }
      var bytes := world.writeFound(Found(actor, {}));
      if bytes.None? {
        return Some(Unwritable);
      }
      WritePacket(RESOLVE_RESPONSE, bytes.value, p.header.operationData);
      return None;
    }

    /** The entry is erased on every path once it has been found. */
    method HandleResolveResponse(p: Packet) returns (error: Option<Error>)
      modifies this`effects, this`pending
      ensures Result(Abs(), error) == OnResolveResponse(world, old(Abs()), p)
    {
      var id := p.header.operationData;
      if id !in pending {
        return None;
      }
      var listener := pending[id];
      pending := pending - {id};
      var found := world.readFound(p.payload);
      if found.None? {
        effects := effects + [Answered(listener, LookupFailed)];
        return Some(Unreadable);
      }
      if found.value.actor == 0 {
        effects := effects + [Answered(listener, Nobody(found.value.interfaces))];
      } else {
        effects := effects + [Answered(listener, Proxy(node, found.value.actor, found.value.interfaces))];
      }
      return None;
    }

    method HandleMonitorMessage(p: Packet) returns (error: Option<Error>)
      modifies this`effects, this`packets
      ensures Result(Abs(), error) == OnMonitor(world, old(Abs()), p)
    {
      if p.payload != [] {
        return Some(UnexpectedPayload);
      }
      if world.isRegistered(|handled|, p.header.operationData) {
        effects := effects + [Attached(node, p.header.operationData)];
        return None;
      }
      if world.writeReason.None? {
        return Some(Unwritable);
      }
      WritePacket(DOWN_MESSAGE, world.writeReason.value, p.header.operationData);
      return None;
    }

    method HandleDownMessage(p: Packet) returns (error: Option<Error>)
      modifies this`effects
      ensures Result(Abs(), error) == OnDown(world, old(Abs()), p)
    {
      if !world.readReason(p.payload) {
        return Some(Unreadable);
      }
      effects := effects + [Erased(node, p.header.operationData)];
      return None;
    }

    method HandleMessage(p: Packet) returns (error: Option<Error>)
      modifies this`effects, this`packets, this`pending, this`handled
      ensures Result(Abs(), error) == Dispatch(world, old(Abs()), p)
    {
      handled := handled + [p];
      var kind := p.header.kind;
      if kind == HANDSHAKE {
        return Some(UnexpectedHandshake);
      } else if kind == ACTOR_MESSAGE {
        effects := effects + [Launched(p)];
        return None;
      } else if kind == RESOLVE_REQUEST {
        error := HandleResolveRequest(p);
      } else if kind == RESOLVE_RESPONSE {
        error := HandleResolveResponse(p);
      } else if kind == MONITOR_MESSAGE {
        error := HandleMonitorMessage(p);
      } else if kind == DOWN_MESSAGE {
        error := HandleDownMessage(p);
      } else if kind == HEARTBEAT {
        return None;
      } else {
        return Some(Unimplemented);
      }
    }

    method HandleBytes(bytes: seq<byte>) returns (error: Option<Error>, nextReadSize: nat)
      modifies this
      ensures Step(Result(Abs(), error), nextReadSize) == Handle(world, old(Abs()), bytes)
    {
      nextReadSize := HEADER_SIZE;
      match phase {
        case AwaitHandshakeHeader =>
          if |bytes| != HEADER_SIZE {
            return Some(UnexpectedNumberOfBytes), nextReadSize;
          }
          hdr := FromBytes(bytes);
          if hdr.kind != HANDSHAKE {
            return Some(MissingHandshake), nextReadSize;
          }
          if hdr.operationData != VERSION {
            return Some(VersionMismatch), nextReadSize;
          }
          if hdr.payloadLen == 0 {
            return Some(MissingPayload), nextReadSize;
          }
          phase := AwaitHandshakePayload;
          return None, hdr.payloadLen;
        case AwaitHandshakePayload =>
          error := HandleHandshake(bytes);
          if error.None? {
            phase := AwaitHeader;
          }
        case AwaitHeader =>
          if |bytes| != HEADER_SIZE {
            return Some(UnexpectedNumberOfBytes), nextReadSize;
          }
          hdr := FromBytes(bytes);
          if hdr.payloadLen == 0 {
            error := HandleMessage(Packet(hdr, []));
            return;
          }
          phase := AwaitPayload;
          return None, hdr.payloadLen;
        case AwaitPayload =>
          if |bytes| != hdr.payloadLen {
            return Some(UnexpectedNumberOfBytes), nextReadSize;
          }
          phase := AwaitHeader;
          error := HandleMessage(Packet(hdr, bytes));
        case Shutdown =>
          return Some(IllegalState), nextReadSize;
      }
    }

    /** `handle_data`: only a call that succeeds configures the next read. */
    method Receive(bytes: seq<byte>) returns (error: Option<Error>)
      modifies this
      ensures Result(Abs(), error) == HandleData(world, old(Abs()), bytes)
    {
      var nextReadSize;
      error, nextReadSize := HandleBytes(bytes);
      if error.None? {
        readSize := nextReadSize;
      }
    }

    method SendResolve(path: seq<byte>, listener: nat)
      modifies this`nextRequestId, this`packets, this`pending
      ensures Abs() == Resolve(world, old(Abs()), path, listener)
    {
      var bytes := world.writePath(path);
      if bytes.None? {
        return;
      }
      var id := nextRequestId;
      nextRequestId := (id + 1) % UINT64_LIMIT;
      WritePacket(RESOLVE_REQUEST, bytes.value, id);
      if id !in pending {
        pending := pending[id := listener];
      }
    }

    method MonitorProxy(actor: uint64)
      modifies this`packets
      ensures Abs() == NewProxy(old(Abs()), actor)
    {
      WritePacket(MONITOR_MESSAGE, [], actor);
    }

    method ReportDown(actor: uint64, reason: seq<byte>)
      modifies this`packets
      ensures Abs() == LocalActorDown(old(Abs()), actor, reason)
    {
      WritePacket(DOWN_MESSAGE, reason, actor);
    }
  }
}
