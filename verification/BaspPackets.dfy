/** What a BASP application writes is what its peer reads: packets, the handshake, lookups and monitoring. */
module BaspPackets {
  import opened Bytes
  import opened StreamLayer
  import opened BaspHeader
  import opened BaspApplication
  import opened BaspTheorems
  import opened BaspStream
  import R = BaspResolve

  // -- the announced sizes --------------------------------------------------------------------------------------------

  /** Whatever is serialized has less than 2^32 bytes. */
  ghost predicate Small(w: World) {
    && (forall f :: w.writeFound(f).Some? ==> |w.writeFound(f).value| < UINT32_LIMIT)
    && (forall p :: w.writePath(p).Some? ==> |w.writePath(p).value| < UINT32_LIMIT)
    && (w.writeReason.Some? ==> |w.writeReason.value| < UINT32_LIMIT)
  }

  /** A packet carries what it was made of, and announces its size if and only if that is less than 2^32. */
  lemma AnnouncedExactly(kind: byte, payload: seq<byte>, operationData: uint64)
    ensures var p := MakePacket(kind, payload, operationData);
            && p.payload == payload && p.header.kind == kind && p.header.operationData == operationData
            && (IsPacket(p) <==> |payload| < UINT32_LIMIT)
  {}

  /** The greeting comes first, and every packet announces its own size. */
  predicate WellWritten(c: Conn, greeting: seq<byte>) {
    && c.packets != [] && c.packets[0].payload == greeting
    && c.packets[0].header == Header(HANDSHAKE, |greeting| % UINT32_LIMIT, VERSION)
    && ArePackets(c.packets)
  }

  lemma StartWrites(greeting: seq<byte>)
    requires |greeting| < UINT32_LIMIT
    ensures WellWritten(Start(greeting), greeting) && |Start(greeting).packets| == 1
  {}

  lemma DispatchWrites(w: World, c: Conn, p: Packet)
    requires Small(w) && ArePackets(c.packets)
    ensures ArePackets(Dispatch(w, c, p).conn.packets)
  {
    hide OnResolveResponse, OnDown, AnswerOf;
    ResponseWrites(w, c.(handled := c.handled + [p]), p);
  }

  lemma ResponseWrites(w: World, c: Conn, p: Packet)
    ensures OnResolveResponse(w, c, p).conn.packets == c.packets && OnDown(w, c, p).conn.packets == c.packets
  {}

  lemma HandleWrites(w: World, c: Conn, bytes: seq<byte>)
    requires Small(w) && ArePackets(c.packets)
    ensures ArePackets(HandleData(w, c, bytes).conn.packets)
  {
    hide Dispatch, ArePackets;
    match c.phase
    case AwaitHeader =>
      if |bytes| == HEADER_SIZE {
        DispatchWrites(w, c.(hdr := FromBytes(bytes)), Packet(FromBytes(bytes), []));
      }
    case AwaitPayload => DispatchWrites(w, c.(phase := AwaitHeader), Packet(c.hdr, bytes));
    case _ =>
  }

  lemma ResolveWrites(w: World, c: Conn, path: seq<byte>, listener: nat)
    requires Small(w) && ArePackets(c.packets)
    ensures ArePackets(Resolve(w, c, path, listener).packets) && c.packets <= Resolve(w, c, path, listener).packets
  {}

  lemma OwnWrites(c: Conn, actor: uint64, reason: seq<byte>)
    requires ArePackets(c.packets) && |reason| < UINT32_LIMIT
    ensures ArePackets(NewProxy(c, actor).packets) && ArePackets(LocalActorDown(c, actor, reason).packets)
  {}

  /** Whatever arrives: all packets written are announced with their size, and none is taken back. */
  lemma {:induction false} FeedWrites(w: World, c: Conn, stream: seq<byte>)
    requires Small(w) && ArePackets(c.packets)
    ensures ArePackets(Feed(w, c, stream).conn.packets) && c.packets <= Feed(w, c, stream).conn.packets
    decreases |stream|
  {
    if 0 < c.readSize <= |stream| {
      HandleWrites(w, c, stream[..c.readSize]);
      CallGrows(w, c, stream[..c.readSize]);
      hide HandleData, ArePackets, Small;
      var r := HandleData(w, c, stream[..c.readSize]);
      if r.error.None? {
        FeedWrites(w, r.conn, stream[c.readSize..]);
      }
    }
  }

  ghost predicate PeerWrites(p: R.Peer) {
    Small(p.world) && ArePackets(p.conn.packets)
  }

  lemma StepWrites(s: R.System, step: R.Step)
    requires PeerWrites(s.left) && PeerWrites(s.right)
    ensures PeerWrites(R.Next(s, step).left) && PeerWrites(R.Next(s, step).right)
  {
    hide Dispatch, Resolve, ArePackets, Small;
    match step
    case Ask(atLeft, path, l) =>
      ResolveWrites(s.left.world, s.left.conn, path, l);
      ResolveWrites(s.right.world, s.right.conn, path, l);
    case Deliver(atLeft) =>
      var p, q := if atLeft then s.left else s.right, if atLeft then s.right else s.left;
      if p.received < |q.conn.packets| {
        var packet := q.conn.packets[p.received];
        DispatchWrites(p.world, p.conn.(hdr := packet.header), packet);
      }
  }

  /** In every run of two peers. */
  lemma {:induction false} RunWrites(s: R.System, steps: seq<R.Step>)
    requires PeerWrites(s.left) && PeerWrites(s.right)
    ensures PeerWrites(R.Run(s, steps).left) && PeerWrites(R.Run(s, steps).right)
    decreases |steps|
  {
    if steps != [] {
      StepWrites(s, steps[0]);
      hide PeerWrites, R.Next;
      RunWrites(R.Next(s, steps[0]), steps[1..]);
    }
  }

  // -- from one application to the other ------------------------------------------------------------------------------

  /** The connection of a reader that has accepted the greeting `g`. */
  function Greeted(w: World, c: Conn, g: Packet): Conn
    requires IsGreeting(w, g.payload)
  {
    c.(phase := AwaitHeader, hdr := g.header, readSize := HEADER_SIZE, node := w.readGreeting(g.payload).value.node)
  }

  /** The peer is prepared for the handshake of another application and takes the payload for the greeting. */
  lemma GreetingArrives(w: World, c: Conn, g: Packet, greeting: seq<byte>, rest: seq<byte>)
    requires c.phase == AwaitHandshakeHeader && c.readSize == HEADER_SIZE && 0 < |greeting| < UINT32_LIMIT
    requires g == Packet(Header(HANDSHAKE, |greeting|, VERSION), greeting)
    ensures var f := Feed(w, c, OnWire(g) + rest);
            if IsGreeting(w, greeting) then
              f == After(Feed(w, Greeted(w, c, g), rest), |OnWire(g)|)
            else
              f.error.Some? && f.conn.handled == c.handled && f.conn.effects == c.effects
  {
    var header := ToBytes(g.header);
    HeaderOf(g);
    FirstCall(w, c, header);
    var c1 := HandleData(w, c, header).conn;
    SecondCall(w, c1, greeting);
    SecondFails(w, c1, greeting);
    hide HandleData, ToBytes, FromBytes, IsGreeting, Feed;
    FeedTwice(w, c, header, greeting, rest);
    Associative(header, greeting, rest);
  }

  lemma FeedTwice(w: World, c: Conn, a: seq<byte>, b: seq<byte>, rest: seq<byte>)
    requires 0 < c.readSize == |a| && HandleData(w, c, a).error.None?
    requires 0 < HandleData(w, c, a).conn.readSize == |b|
    ensures var r := HandleData(w, HandleData(w, c, a).conn, b);
            Feed(w, c, a + (b + rest)) == if r.error.Some? then Fed(r.conn, |a| + |b|, r.error)
                                          else After(Feed(w, r.conn, rest), |a| + |b|)
  {
    hide HandleData;
    assert (a + (b + rest))[..|a|] == a && (a + (b + rest))[|a|..] == b + rest;
    assert (b + rest)[..|b|] == b && (b + rest)[|b|..] == rest;
    FeedOnce(w, c, a + (b + rest));
    FeedOnce(w, HandleData(w, c, a).conn, b + rest);
    hide Feed;
  }

  lemma SecondFails(w: World, c: Conn, bytes: seq<byte>)
    requires c.phase == AwaitHandshakePayload
    ensures var r := HandleData(w, c, bytes).conn; r.handled == c.handled && r.effects == c.effects
  {}

  lemma FeedOnce(w: World, c: Conn, stream: seq<byte>)
    requires 0 < c.readSize <= |stream|
    ensures var r := HandleData(w, c, stream[..c.readSize]);
            Feed(w, c, stream) == if r.error.Some? then Fed(r.conn, c.readSize, r.error)
                                  else After(Feed(w, r.conn, stream[c.readSize..]), c.readSize)
  {
    hide HandleData;
  }

  lemma HeaderOf(g: Packet)
    ensures FromBytes(ToBytes(g.header)) == g.header && |ToBytes(g.header)| == HEADER_SIZE
  {
    FromToBytes(g.header, []);
    assert ToBytes(g.header) + [] == ToBytes(g.header);
  }

  /** A connection that has received nothing yet. */
  predicate Waiting(c: Conn) {
    c.phase == AwaitHandshakeHeader && c.readSize == HEADER_SIZE && c.handled == [] && c.effects == []
  }

  /** All that one application has written, read by another: if the reader accepts the greeting, it knows the node that
      was meant, and its handlers see exactly the packets behind the greeting, up to the first that one rejects, which
      is then the only error; otherwise they see nothing. */
  lemma OneToTheOther(sender: Conn, greeting: seq<byte>, w: World, c: Conn)
    requires WellWritten(sender, greeting) && greeting != [] && Waiting(c)
    ensures var ps := sender.packets[1..];
            var f := Feed(w, c, Wire(sender.packets));
            if IsGreeting(w, greeting) then
              var r := DispatchAll(w, Greeted(w, c, sender.packets[0]), ps);
              && f.error == r.error && f.conn.(readSize := HEADER_SIZE) == r.conn
              && f.conn.node == w.readGreeting(greeting).value.node
              && f.conn.handled <= ps
              && (f.error.None? ==> f.conn.handled == ps && f.consumed == |Wire(sender.packets)| && Idle(f.conn))
            else
              f.error.Some? && f.conn.handled == [] && f.conn.effects == []
  {
    var g, ps := sender.packets[0], sender.packets[1..];
    assert IsPacket(g);
    assert forall k :: 0 <= k < |ps| ==> ps[k] == sender.packets[k + 1];
    GreetingArrives(w, c, g, greeting, Wire(ps));
    if IsGreeting(w, greeting) {
      var d := Greeted(w, c, g);
      DispatchesExactly(w, d, ps);
      assert [] + ps == ps;
      AllKeepNode(w, d, ps);
    }
    hide Feed, OnWire, DispatchAll, ToBytes;
  }

  /** The same for any part of it: what is handled is a prefix of the packets. */
  lemma PartOfTheOther(sender: Conn, greeting: seq<byte>, w: World, c: Conn, r: seq<byte>)
    requires WellWritten(sender, greeting) && greeting != [] && Waiting(c) && r <= Wire(sender.packets)
    ensures var f := Feed(w, c, r);
            && f.conn.handled <= sender.packets[1..]
            && (!IsGreeting(w, greeting) ==> f.conn.handled == [])
            && (f.error.Some? ==> Feed(w, c, Wire(sender.packets)).error == f.error)
  {
    OneToTheOther(sender, greeting, w, c);
    var b := Wire(sender.packets)[|r|..];
    assert r + b == Wire(sender.packets);
    FeedSplit(w, c, r, b);
    var f := Feed(w, c, r);
    HandledGrows(w, f.conn, r[f.consumed..] + b);
    hide Feed, Wire, DispatchAll;
  }

  /** Packets do not change which peer they come from. */
  lemma {:induction false} AllKeepNode(w: World, c: Conn, ps: seq<Packet>)
    ensures var d := DispatchAll(w, c, ps).conn;
            d.node == c.node && d.phase == c.phase && d.readSize == c.readSize
    decreases |ps|
  {
    if ps != [] {
      DispatchKeeps(w, c.(hdr := ps[0].header), ps[0]);
      hide Dispatch;
      AllKeepNode(w, Dispatch(w, c.(hdr := ps[0].header), ps[0]).conn, ps[1..]);
    }
  }

  /** Which packets end a connection behind the handshake, and why: message types in numbers. */
  lemma RejectedExactly(w: World, c: Conn, p: Packet)
    ensures var error, kind, id := Dispatch(w, c, p).error, p.header.kind, p.header.operationData;
            var path := w.readSequence(p.payload);
            && (error == Some(UnexpectedHandshake) <==> kind == 0)
            && (error == Some(Unimplemented) <==> kind > 6)
            && (error == Some(InvalidPayload) <==> kind == 2 && path.Some? && path.value.size != |path.value.rest|)
            && (error == Some(UnexpectedPayload) <==> kind == 4 && p.payload != [])
            && (error == Some(Unreadable) <==>
                  || (kind == 2 && path.None?)
                  || (kind == 3 && id in c.pending && w.readFound(p.payload).None?)
                  || (kind == 5 && !w.readReason(p.payload)))
            && (error.Some? && kind !in {0, 2, 3, 4, 5} ==> kind > 6)
  {
    hide MakePacket, AnswerOf;
  }

  // -- lookups --------------------------------------------------------------------------------------------------------

  /** What one side writes, the other side can read. */
  ghost predicate SameFormat(writer: World, reader: World) {
    && (forall p :: writer.writePath(p).Some? ==>
          reader.readSequence(writer.writePath(p).value) == Some(Sequence(|p|, p)))
    && (forall f :: writer.writeFound(f).Some? ==> reader.readFound(writer.writeFound(f).value) == Some(f))
    && (writer.writeReason.Some? ==> reader.readReason(writer.writeReason.value))
  }

  function Last(c: Conn): Packet
    requires c.packets != []
  {
    c.packets[|c.packets| - 1]
  }

  /** A lookup from the request to the answer: the listener gets a proxy for the actor that the other node found under
      the path, with the node it is connected to, or nobody if there was none; an actor that was found is registered
      for what follows. */
  lemma LookupRoundTrip(wa: World, a: Conn, wb: World, b: Conn, path: seq<byte>, listener: nat)
    requires SameFormat(wa, wb) && SameFormat(wb, wa)
    requires wa.writePath(path).Some? && (forall f :: wb.writeFound(f).Some?) && a.nextRequestId !in a.pending
    ensures var asked := Resolve(wa, a, path, listener);
            var r := Dispatch(wb, b.(hdr := Last(asked).header), Last(asked));
            var actor := wb.resolveLocal(|b.handled| + 1, path);
            && r.error.None? && r.conn.packets == b.packets + [Last(r.conn)]
            && r.conn.effects == b.effects + (if actor == 0 then [] else [Registered(actor)])
            && var d := Dispatch(wa, asked.(hdr := Last(r.conn).header), Last(r.conn));
               && d.error.None? && d.conn.pending == a.pending && d.conn.packets == asked.packets
               && d.conn.effects ==
                  a.effects + [Answered(listener, if actor == 0 then Nobody({}) else Proxy(a.node, actor, {}))]
  {
    var asked := Resolve(wa, a, path, listener);
    RequestAnswered(wa, a, wb, b, path, listener);
    hide OnResolveRequest;
    var reply := Last(Dispatch(wb, b.(hdr := Last(asked).header), Last(asked)).conn);
    ResponseTaken(wa, asked, wb, reply, wb.resolveLocal(|b.handled| + 1, path));
    assert asked.pending - {a.nextRequestId} == a.pending;
  }

  lemma RequestAnswered(wa: World, a: Conn, wb: World, b: Conn, path: seq<byte>, listener: nat)
    requires SameFormat(wa, wb) && wa.writePath(path).Some? && forall f :: wb.writeFound(f).Some?
    ensures var request := Last(Resolve(wa, a, path, listener));
            var r := Dispatch(wb, b.(hdr := request.header), request);
            var actor := wb.resolveLocal(|b.handled| + 1, path);
            && r.error.None?
            && r.conn.packets == b.packets + [MakePacket(RESOLVE_RESPONSE, wb.writeFound(Found(actor, {})).value,
                                                         a.nextRequestId)]
            && r.conn.effects == b.effects + (if actor == 0 then [] else [Registered(actor)])
  {
    var request := Last(Resolve(wa, a, path, listener));
    assert request == MakePacket(RESOLVE_REQUEST, wa.writePath(path).value, a.nextRequestId);
    assert b.effects + [] == b.effects;
  }

  lemma ResponseTaken(wa: World, a: Conn, wb: World, reply: Packet, actor: nat)
    requires SameFormat(wb, wa) && wb.writeFound(Found(actor, {})).Some?
    requires reply.header.kind == RESOLVE_RESPONSE && reply.header.operationData in a.pending
    requires reply.payload == wb.writeFound(Found(actor, {})).value
    ensures var id := reply.header.operationData;
            var d := Dispatch(wa, a.(hdr := reply.header), reply);
            && d.error.None? && d.conn.pending == a.pending - {id} && d.conn.packets == a.packets
            && d.conn.effects == a.effects + [Answered(a.pending[id], if actor == 0 then Nobody({})
                                                                      else Proxy(a.node, actor, {}))]
  {
    assert wa.readFound(reply.payload) == Some(Found(actor, {}));
  }

  // -- monitoring -----------------------------------------------------------------------------------------------------

  /** A proxy is monitored: the other node attaches to a registered actor and says nothing; for any other it answers
      with a down message for the same actor, on which the proxy is erased. */
  lemma MonitorRoundTrip(wa: World, a: Conn, wb: World, b: Conn, actor: uint64)
    requires SameFormat(wb, wa) && wb.writeReason.Some?
    ensures var asked := NewProxy(a, actor);
            var r := Dispatch(wb, b.(hdr := Last(asked).header), Last(asked));
            && r.error.None?
            && if wb.isRegistered(|b.handled| + 1, actor) then
                 r.conn.packets == b.packets && r.conn.effects == b.effects + [Attached(b.node, actor)]
               else
                 && r.conn.packets == b.packets + [Last(r.conn)] && r.conn.effects == b.effects
                 && var d := Dispatch(wa, asked.(hdr := Last(r.conn).header), Last(r.conn));
                    && d.error.None? && d.conn.packets == asked.packets
                    && d.conn.effects == a.effects + [Erased(a.node, actor)]
  {
    var asked := NewProxy(a, actor);
    assert Last(asked) == MakePacket(MONITOR_MESSAGE, [], actor);
  }

  /** When an actor that is attached to terminates, the proxy is erased as well. */
  lemma DownRoundTrip(w: World, a: Conn, b: Conn, actor: uint64, reason: seq<byte>)
    requires w.readReason(reason)
    ensures var down := Last(LocalActorDown(b, actor, reason));
            var d := Dispatch(w, a.(hdr := down.header), down);
            d.error.None? && d.conn.packets == a.packets && d.conn.effects == a.effects + [Erased(a.node, actor)]
  {
    assert Last(LocalActorDown(b, actor, reason)) == MakePacket(DOWN_MESSAGE, reason, actor);
  }
}
