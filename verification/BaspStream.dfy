/** BASP connections on a stream transport: the application is told the announced number of bytes, however they
    arrive. */
module BaspStream {
  import opened Bytes
  import opened StreamLayer
  import opened BaspHeader
  import opened BaspApplication
  import opened BaspTheorems
  import S = StreamTransport

  // -- the layer ------------------------------------------------------------------------------------------------------

  /** `handle_data` with everything that the transport hands over, which is consumed unless an error occurs; then the
      next read is configured. The packets written are appended to the output. */
  function Consume(w: World, c: Conn, bytes: seq<byte>): Outcome<Conn> {
    var r := HandleData(w, c, bytes);
    Outcome(r.conn, if r.error.Some? then -1 else |bytes|, bytes,
            if r.error.Some? then None else Some(Exactly(r.conn.readSize)),
            Wire(NewPackets(c.packets, r.conn.packets)), false)
  }

  function NewPackets(before: seq<Packet>, after: seq<Packet>): seq<Packet> {
    if |before| <= |after| then after[|before|..] else []
  }

  function AsLayer(w: World, prepareSend: Conn -> Sending<Conn>, doneSending: Conn -> bool): Layer<Conn> {
    Layer((c, bytes, delta) => Consume(w, c, bytes), prepareSend, doneSending)
  }

  /** Everything but the packets written, which the application adds to on its own between two events as well. */
  function Blind(c: Conn): Conn {
    c.(packets := [])
  }

  function View(): Conn -> Conn {
    (c: Conn) => Blind(c)
  }

  /** Between two events an application may write packets, such as the messages of its own actors: all of them are
      recorded, and nothing else changes. */
  ghost predicate SendsPackets(w: World, prepareSend: Conn -> Sending<Conn>, doneSending: Conn -> bool) {
    && SendsAside(AsLayer(w, prepareSend, doneSending), View())
    && forall c :: SendShips(AsLayer(w, prepareSend, doneSending), Written(), c)
  }

  /** After `init`, which has written the greeting; `packets` are those written since then. */
  function Fresh(greeting: seq<byte>): Conn {
    Start(greeting).(packets := [])
  }

  function Spec(w: World, greeting: seq<byte>): seq<byte> -> Progress<Conn> {
    r => var f := Feed(w, Fresh(greeting), r);
         Progress(Blind(f.conn), f.consumed, Exactly(f.conn.readSize), f.error.Some?)
  }

  function Written(): Conn -> seq<byte> {
    (c: Conn) => Wire(c.packets)
  }

  // -- what the transport relies on -----------------------------------------------------------------------------------

  lemma {:induction false} WireConcat(a: seq<Packet>, b: seq<Packet>)
    ensures Wire(a + b) == Wire(a) + Wire(b)
  {
    if a == [] {
      assert a + b == b;
    } else {
      assert (a + b)[1..] == a[1..] + b;
      WireConcat(a[1..], b);
      Associative(OnWire(a[0]), Wire(a[1..]), Wire(b));
      hide OnWire;
    }
  }

  /** A call only adds to the packets written and to those handled. */
  lemma CallGrows(w: World, c: Conn, bytes: seq<byte>)
    ensures c.packets <= HandleData(w, c, bytes).conn.packets && c.handled <= HandleData(w, c, bytes).conn.handled
  {
    hide Dispatch;
    match c.phase
    case AwaitHeader =>
      if |bytes| == HEADER_SIZE {
        DispatchGrows(w, c.(hdr := FromBytes(bytes)), Packet(FromBytes(bytes), []));
      }
    case AwaitPayload => DispatchGrows(w, c.(phase := AwaitHeader), Packet(c.hdr, bytes));
    case _ =>
  }

  lemma DispatchGrows(w: World, c: Conn, p: Packet)
    ensures c.packets <= Dispatch(w, c, p).conn.packets && c.handled <= Dispatch(w, c, p).conn.handled
  {}

  lemma LayerShips(w: World, prepareSend: Conn -> Sending<Conn>, doneSending: Conn -> bool)
    requires SendsPackets(w, prepareSend, doneSending)
    ensures var layer := AsLayer(w, prepareSend, doneSending);
            WellBehaved(layer) && Ships(layer, Written()) && SendsAside(layer, View())
  {
    var layer := AsLayer(w, prepareSend, doneSending);
    forall c, bytes, delta ensures ConsumeShips(layer, Written(), c, bytes, delta) {
      CallGrows(w, c, bytes);
      hide HandleData;
      var after := HandleData(w, c, bytes).conn.packets;
      assert after == c.packets + NewPackets(c.packets, after);
      WireConcat(c.packets, NewPackets(c.packets, after));
    }
  }

  /** What has been written has no influence on anything else. */
  lemma HandleBlind(w: World, c: Conn, d: Conn, bytes: seq<byte>)
    requires Blind(c) == Blind(d)
    ensures var p, q := HandleData(w, c, bytes), HandleData(w, d, bytes);
            SameButPackets(p, q)
  {
    assert d == c.(packets := d.packets);
    hide Dispatch;
    match c.phase
    case AwaitHeader =>
      if |bytes| == HEADER_SIZE {
        var hdr := FromBytes(bytes);
        DispatchBlind(w, c.(hdr := hdr), d.packets, Packet(hdr, []));
        assert c.(hdr := hdr).(packets := d.packets) == d.(hdr := hdr);
      }
    case AwaitPayload =>
      DispatchBlind(w, c.(phase := AwaitHeader), d.packets, Packet(c.hdr, bytes));
      assert c.(phase := AwaitHeader).(packets := d.packets) == d.(phase := AwaitHeader);
    case _ =>
  }

  lemma DispatchBlind(w: World, c: Conn, packets: seq<Packet>, p: Packet)
    ensures SameButPackets(Dispatch(w, c, p), Dispatch(w, c.(packets := packets), p))
  {
    hide OnMessage;
    MessageBlind(w, c.(handled := c.handled + [p]), packets, p);
  }

  lemma MessageBlind(w: World, c: Conn, packets: seq<Packet>, p: Packet)
    ensures SameButPackets(OnMessage(w, c, p), OnMessage(w, c.(packets := packets), p))
  {
    hide OnResolveRequest, OnResolveResponse, OnMonitor, OnDown;
    var kind := p.header.kind;
    if kind == RESOLVE_REQUEST {
      RequestBlind(w, c, packets, p);
    } else if kind == RESOLVE_RESPONSE {
      ResponseBlind(w, c, packets, p);
    } else if kind == MONITOR_MESSAGE {
      MonitorBlind(w, c, packets, p);
    } else if kind == DOWN_MESSAGE {
      DownBlind(w, c, packets, p);
    }
  }

  lemma DownBlind(w: World, c: Conn, packets: seq<Packet>, p: Packet)
    ensures SameButPackets(OnDown(w, c, p), OnDown(w, c.(packets := packets), p))
  {}

  predicate SameButPackets(a: Result, b: Result) {
    Blind(a.conn) == Blind(b.conn) && a.error == b.error
  }

  lemma RequestBlind(w: World, c: Conn, packets: seq<Packet>, p: Packet)
    ensures SameButPackets(OnResolveRequest(w, c, p), OnResolveRequest(w, c.(packets := packets), p))
  {
    hide MakePacket;
  }

  lemma ResponseBlind(w: World, c: Conn, packets: seq<Packet>, p: Packet)
    ensures SameButPackets(OnResolveResponse(w, c, p), OnResolveResponse(w, c.(packets := packets), p))
  {}

  lemma MonitorBlind(w: World, c: Conn, packets: seq<Packet>, p: Packet)
    ensures SameButPackets(OnMonitor(w, c, p), OnMonitor(w, c.(packets := packets), p))
  {
    hide MakePacket;
  }

  /** However the transport cuts the stream, and whatever is written in between, the application stands where `Feed`
      says. */
  lemma LayerRefinesFeed(w: World, greeting: seq<byte>, prepareSend: Conn -> Sending<Conn>, doneSending: Conn -> bool)
    ensures Refines(AsLayer(w, prepareSend, doneSending), View(), Spec(w, greeting))
  {
    hide Feed, HandleData, RefinesAt;
    var layer := AsLayer(w, prepareSend, doneSending);
    forall c, r, b, delta ensures RefinesAt(layer, View(), Spec(w, greeting), c, r, b, delta) {
      RefinesFeedAt(w, greeting, prepareSend, doneSending, c, r, b, delta);
    }
  }

  lemma RefinesFeedAt(w: World, greeting: seq<byte>, prepareSend: Conn -> Sending<Conn>, doneSending: Conn -> bool,
                      c: Conn, r: seq<byte>, b: seq<byte>, delta: seq<byte>)
    ensures RefinesAt(AsLayer(w, prepareSend, doneSending), View(), Spec(w, greeting), c, r, b, delta)
  {
    hide Feed, HandleData, Wire;
    var f := Feed(w, Fresh(greeting), r);
    if Blind(c) == Blind(f.conn) && f.error.None? && |r| + |b| - f.consumed <= f.conn.readSize {
      OneMoreRead(w, Fresh(greeting), r, b);
      HandleBlind(w, c, f.conn, (r + b)[f.consumed..]);
    }
  }

  lemma OneMoreRead(w: World, c: Conn, r: seq<byte>, b: seq<byte>)
    requires var f := Feed(w, c, r); ReadsNext(c) && f.error.None? && |r| + |b| - f.consumed <= f.conn.readSize
    ensures var f, q := Feed(w, c, r), Feed(w, c, r + b);
            var u := (r + b)[f.consumed..];
            if |u| < f.conn.readSize then q == f
            else
              var d := HandleData(w, f.conn, u);
              && q == Fed(d.conn, f.consumed + |u|, d.error) && f.consumed + |u| == |r + b|
              && (d.error.None? ==> d.conn.readSize > 0)
  {
    hide HandleData, ReadsNext, Feed;
    FeedSplit(w, c, r, b);
    NeverWrongByteCount(w, c, r);
    var f := Feed(w, c, r);
    var u := r[f.consumed..] + b;
    assert u == (r + b)[f.consumed..];
    ReadsSome(f.conn);
    if |u| == f.conn.readSize {
      HandleReadsNext(w, f.conn, u);
      ReadsSome(HandleData(w, f.conn, u).conn);
      FeedExactly(w, f.conn, u);
    } else {
      FeedLess(w, f.conn, u);
    }
  }

  lemma FeedExactly(w: World, c: Conn, bytes: seq<byte>)
    requires 0 < c.readSize == |bytes|
    ensures var d := HandleData(w, c, bytes); Feed(w, c, bytes) == Fed(d.conn, |bytes|, d.error)
  {
    hide HandleData;
    assert bytes[..|bytes|] == bytes && bytes[|bytes|..] == [];
  }

  lemma FeedLess(w: World, c: Conn, bytes: seq<byte>)
    requires |bytes| < c.readSize
    ensures Feed(w, c, bytes) == Fed(c, 0, None)
  {}

  lemma ReadsSome(c: Conn)
    ensures ReadsNext(c) ==> c.readSize > 0
  {}

  // -- whole connections ----------------------------------------------------------------------------------------------

  /** Any stream from the peer, any chunking and errors of the socket, any order of events and any packets written in
      between: apart from these the application stands where it stands when it is fed the bytes received, and it has
      written the greeting and its packets. */
  method RunLink(w: World, greeting: seq<byte>, prepareSend: Conn -> Sending<Conn>, doneSending: Conn -> bool,
                 inbound: seq<byte>, maxReads: nat, events: seq<S.Event>)
    returns (t: S.Transport<Conn, Conn>)
    requires SendsPackets(w, prepareSend, doneSending)
    ensures !t.rejected && !t.socket.recvs.failed && !S.Erring(events, |events|) ==> t.interest.polled.read
    ensures t.Valid() && t.socket.inbound == inbound && !t.overrun && !t.faulted
    ensures var f := Feed(w, Fresh(greeting), t.socket.Received());
            && Blind(t.state) == Blind(f.conn) && t.rejected == f.error.Some?
            && (!t.rejected ==> |t.eaten| == f.consumed && t.maxReadSize == t.minReadSize == t.state.readSize)
    ensures t.socket.sent + t.writeBuf == OnWire(MakePacket(HANDSHAKE, greeting, VERSION)) + Wire(t.state.packets)
  {
    LayerShips(w, prepareSend, doneSending);
    LayerRefinesFeed(w, greeting, prepareSend, doneSending);
    FreshFeed(w, greeting);
    hide Feed, Wire, OnWire, MakePacket, WellBehaved, Refines, SendsAside, Ships, AsLayer;
    t := S.RunConnection(AsLayer(w, prepareSend, doneSending), View(), Spec(w, greeting), Written(), Fresh(greeting),
                         Exactly(HEADER_SIZE), OnWire(MakePacket(HANDSHAKE, greeting, VERSION)), inbound, maxReads,
                         events);
  }

  lemma FreshFeed(w: World, greeting: seq<byte>)
    ensures Feed(w, Fresh(greeting), []) == Fed(Fresh(greeting), 0, None) && Wire([]) == []
  {}

  /** What a peer sends: its greeting and then packets. */
  function PeerStream(header: seq<byte>, payload: seq<byte>, ps: seq<Packet>): seq<byte> {
    header + (payload + Wire(ps))
  }

  predicate Welcome(w: World, header: seq<byte>, payload: seq<byte>) {
    IsHandshakeHeader(header) && FromBytes(header).payloadLen == |payload| && IsGreeting(w, payload)
  }

  lemma SessionFeeds(w: World, greeting: seq<byte>, header: seq<byte>, payload: seq<byte>, ps: seq<Packet>)
    requires Welcome(w, header, payload)
    ensures var s := PeerStream(header, payload, ps);
            var f := Feed(w, Opened(w, Fresh(greeting), header, payload), Wire(ps));
            Feed(w, Fresh(greeting), s) == After(f, |header| + |payload|)
  {
    var c, rest := Fresh(greeting), Wire(ps);
    hide Wire;
    FirstCall(w, c, header);
    var c1 := HandleData(w, c, header).conn;
    SecondCall(w, c1, payload);
    hide HandleData, Opened;
    var s := header + (payload + rest);
    assert s[..|header|] == header && s[|header|..] == payload + rest;
    assert (payload + rest)[..|payload|] == payload && (payload + rest)[|payload|..] == rest;
  }

  lemma {:induction false} HandledGrows(w: World, c: Conn, stream: seq<byte>)
    ensures c.handled <= Feed(w, c, stream).conn.handled
    decreases |stream|
  {
    if 0 < c.readSize <= |stream| {
      CallGrows(w, c, stream[..c.readSize]);
      hide HandleData;
      var r := HandleData(w, c, stream[..c.readSize]);
      if r.error.None? {
        HandledGrows(w, r.conn, stream[c.readSize..]);
      }
    }
  }

  /** A peer that greets properly and sends packets that no handler rejects, through any socket: at every point
      exactly a prefix of these packets has been handled, nothing is rejected, and all have been handled once
      everything is read. */
  method RunPeer(w: World, greeting: seq<byte>, header: seq<byte>, payload: seq<byte>, ghost ps: seq<Packet>,
                 prepareSend: Conn -> Sending<Conn>, doneSending: Conn -> bool, inbound: seq<byte>, maxReads: nat,
                 events: seq<S.Event>)
    returns (t: S.Transport<Conn, Conn>)
    requires SendsPackets(w, prepareSend, doneSending)
    requires Welcome(w, header, payload) && ArePackets(ps) && inbound <= PeerStream(header, payload, ps)
    requires Feed(w, Opened(w, Fresh(greeting), header, payload), Wire(ps)).error.None?
    ensures !t.socket.recvs.failed && !S.Erring(events, |events|) ==> t.interest.polled.read
    ensures t.Valid() && t.socket.inbound == inbound && !t.rejected && !t.overrun
    ensures t.state.handled <= ps
    ensures t.socket.pos == |PeerStream(header, payload, ps)| ==> t.offset == 0 && t.state.handled == ps
  {
    hide Feed, Wire, PeerStream, OnWire, Opened, SendsPackets;
    t := RunLink(w, greeting, prepareSend, doneSending, inbound, maxReads, events);
    ghost var s := PeerStream(header, payload, ps);
    ghost var r, b := inbound[..t.socket.pos], s[t.socket.pos..];
    assert r + b == s;
    SessionHandles(w, greeting, header, payload, ps, r, b);
    assert b == [] ==> r == s;
  }

  lemma SessionHandles(w: World, greeting: seq<byte>, header: seq<byte>, payload: seq<byte>, ps: seq<Packet>,
                       r: seq<byte>, b: seq<byte>)
    requires Welcome(w, header, payload) && ArePackets(ps) && r + b == PeerStream(header, payload, ps)
    requires Feed(w, Opened(w, Fresh(greeting), header, payload), Wire(ps)).error.None?
    ensures var f := Feed(w, Fresh(greeting), r);
            && f.error.None? && f.conn.handled <= ps
            && (b == [] ==> f.conn.handled == ps && f.consumed == |r|)
  {
    SessionFeeds(w, greeting, header, payload, ps);
    var c := Opened(w, Fresh(greeting), header, payload);
    DispatchesExactly(w, c, ps);
    assert [] + ps == ps;
    FeedSplit(w, Fresh(greeting), r, b);
    var f := Feed(w, Fresh(greeting), r);
    HandledGrows(w, f.conn, r[f.consumed..] + b);
    hide Feed, Wire, DispatchAll;
    assert b == [] ==> r + b == r;
  }
}
