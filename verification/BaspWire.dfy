/** Two peers that look up each other's actors by bytes: whatever pieces arrive, they do what the packets do. */
module BaspWire {
  import opened Bytes
  import opened StreamLayer
  import opened BaspHeader
  import opened BaspApplication
  import opened BaspTheorems
  import opened BaspStream
  import opened BaspPackets
  import R = BaspResolve

  /** A peer that reads bytes: `taken` of the other's output have arrived, and `rest` has not been consumed yet. */
  datatype End = End(peer: R.Peer, rest: seq<byte>, taken: nat)

  datatype Net = Net(left: End, right: End, up: bool)

  datatype Step = Ask(atLeft: bool, path: seq<byte>, listener: nat) | Arrive(atLeft: bool, count: nat)

  function Output(e: End): seq<byte> {
    Wire(e.peer.conn.packets)
  }

  function Asking(e: End, path: seq<byte>, listener: nat): End {
    e.(peer := R.AskOf(e.peer, path, listener))
  }

  /** The bytes `more` arrive; every packet that is complete is handled. */
  function Arriving(e: End, more: seq<byte>): End {
    var data := e.rest + more;
    var f := Feed(e.peer.world, e.peer.conn, data);
    End(Fetched(e.peer, e.peer.conn, f.conn), data[f.consumed..], e.taken + |more|)
  }

  /** The peer with the connection `d`, in which more packets have been handled than in `c`. */
  function Fetched(p: R.Peer, c: Conn, d: Conn): R.Peer {
    p.(conn := d, received := p.received + Count(c, d))
  }

  function Count(c: Conn, d: Conn): nat {
    if |c.handled| <= |d.handled| then |d.handled| - |c.handled| else 0
  }

  predicate Accepts(e: End, more: seq<byte>) {
    Feed(e.peer.world, e.peer.conn, e.rest + more).error.None?
  }

  function Next(s: Net, step: Step): Net {
    if !s.up then s
    else
      match step
      case Ask(true, path, l) => s.(left := Asking(s.left, path, l))
      case Ask(false, path, l) => s.(right := Asking(s.right, path, l))
      case Arrive(true, n) =>
        if s.left.taken + n <= |Output(s.right)| then
          var more := Output(s.right)[s.left.taken..s.left.taken + n];
          s.(left := Arriving(s.left, more), up := Accepts(s.left, more))
        else s
      case Arrive(false, n) =>
        if s.right.taken + n <= |Output(s.left)| then
          var more := Output(s.left)[s.right.taken..s.right.taken + n];
          s.(right := Arriving(s.right, more), up := Accepts(s.right, more))
        else s
  }

  function Run(s: Net, steps: seq<Step>): Net
    decreases |steps|
  {
    if steps == [] then s else Run(Next(s, steps[0]), steps[1..])
  }

  // -- one piece of the stream ----------------------------------------------------------------------------------------

  /** A connection without what it knows about a packet that has not arrived completely. */
  function Loose(c: Conn): Conn {
    c.(hdr := Header(HANDSHAKE, 0, 0), phase := AwaitHeader, readSize := HEADER_SIZE)
  }

  predicate SameLoosely(a: Result, b: Result) {
    Loose(a.conn) == Loose(b.conn) && a.error == b.error
  }

  /** The connection is between two packets, or has read the header of the first of the packets that follow. */
  predicate Expects(c: Conn, ps: seq<Packet>) {
    || Idle(c)
    || (c.phase == AwaitPayload && ps != [] && c.hdr == ps[0].header && c.readSize == |ps[0].payload| > 0)
  }

  /** What it has not consumed of the packets `ps`. */
  function Remaining(c: Conn, ps: seq<Packet>): seq<byte> {
    if c.phase == AwaitPayload && ps != [] then ps[0].payload + Wire(ps[1..]) else Wire(ps)
  }

  lemma ResolveLoose(w: World, c: Conn, d: Conn, path: seq<byte>, listener: nat)
    requires Loose(c) == Loose(d)
    ensures Loose(Resolve(w, c, path, listener)) == Loose(Resolve(w, d, path, listener))
    ensures Resolve(w, c, path, listener) ==
            Resolve(w, d, path, listener).(hdr := c.hdr, phase := c.phase, readSize := c.readSize)
  {
    hide MakePacket;
    assert d == c.(hdr := d.hdr, phase := d.phase, readSize := d.readSize);
  }

  lemma DispatchLoose(w: World, c: Conn, d: Conn, p: Packet)
    requires Loose(c) == Loose(d)
    ensures SameLoosely(Dispatch(w, c, p), Dispatch(w, d, p))
  {
    assert d == c.(hdr := d.hdr, phase := d.phase, readSize := d.readSize);
    var c', d' := c.(handled := c.handled + [p]), d.(handled := d.handled + [p]);
    hide OnResolveRequest, OnResolveResponse, OnMonitor, OnDown;
    if p.header.kind == RESOLVE_REQUEST {
      RequestLoose(w, c', d', p);
    } else if p.header.kind == RESOLVE_RESPONSE {
      ResponseLoose(w, c', d', p);
    } else if p.header.kind == MONITOR_MESSAGE {
      MonitorLoose(w, c', d', p);
    } else if p.header.kind == DOWN_MESSAGE {
      DownLoose(w, c', d', p);
    }
  }

  lemma RequestLoose(w: World, c: Conn, d: Conn, p: Packet)
    requires Loose(c) == Loose(d)
    ensures SameLoosely(OnResolveRequest(w, c, p), OnResolveRequest(w, d, p))
  {
    hide MakePacket;
  }

  lemma ResponseLoose(w: World, c: Conn, d: Conn, p: Packet)
    requires Loose(c) == Loose(d)
    ensures SameLoosely(OnResolveResponse(w, c, p), OnResolveResponse(w, d, p))
  {}

  lemma MonitorLoose(w: World, c: Conn, d: Conn, p: Packet)
    requires Loose(c) == Loose(d)
    ensures SameLoosely(OnMonitor(w, c, p), OnMonitor(w, d, p))
  {
    hide MakePacket;
  }

  lemma DownLoose(w: World, c: Conn, d: Conn, p: Packet)
    requires Loose(c) == Loose(d)
    ensures SameLoosely(OnDown(w, c, p), OnDown(w, d, p))
  {}

  lemma WireFirst(ps: seq<Packet>)
    requires ps != []
    ensures Wire(ps) == ToBytes(ps[0].header) + (ps[0].payload + Wire(ps[1..]))
  {
    Associative(ToBytes(ps[0].header), ps[0].payload, Wire(ps[1..]));
  }

  /** One call with a header in front of a payload. */
  lemma HeaderCall(w: World, c: Conn, ps: seq<Packet>, data: seq<byte>, tail: seq<byte>)
    requires Idle(c) && Remaining(c, ps) == data + tail && HEADER_SIZE <= |data|
    requires ps != [] && IsPacket(ps[0]) && ps[0].payload != []
    ensures var c' := c.(hdr := ps[0].header, phase := AwaitPayload, readSize := |ps[0].payload|);
            && HandleData(w, c, data[..HEADER_SIZE]) == Succeed(c')
            && Expects(c', ps) && Remaining(c', ps) == data[HEADER_SIZE..] + tail
  {
    CutHeader(ps, data, tail);
    HeaderOf(ps[0]);
    hide Wire, ToBytes, FromBytes;
  }

  lemma CutHeader(ps: seq<Packet>, data: seq<byte>, tail: seq<byte>)
    requires ps != [] && Wire(ps) == data + tail && HEADER_SIZE <= |data|
    ensures data[..HEADER_SIZE] == ToBytes(ps[0].header)
    ensures data[HEADER_SIZE..] + tail == ps[0].payload + Wire(ps[1..])
  {
    WireFirst(ps);
    hide Wire, ToBytes;
    CutFront(ToBytes(ps[0].header), ps[0].payload + Wire(ps[1..]), data, tail);
  }

  lemma CutFront(a: seq<byte>, b: seq<byte>, data: seq<byte>, tail: seq<byte>)
    requires a + b == data + tail && |a| <= |data|
    ensures data[..|a|] == a && data[|a|..] + tail == b
  {
    assert data[..|a|] == (data + tail)[..|a|] == (a + b)[..|a|];
    assert data[|a|..] + tail == (data + tail)[|a|..] == (a + b)[|a|..];
  }

  /** The packet has arrived completely with this call. */
  lemma PacketCall(w: World, c: Conn, ps: seq<Packet>, data: seq<byte>, tail: seq<byte>)
    requires Expects(c, ps) && Remaining(c, ps) == data + tail && c.readSize <= |data|
    requires ps != [] && IsPacket(ps[0]) && (Idle(c) ==> ps[0].payload == [])
    ensures var r := HandleData(w, c, data[..c.readSize]);
            && SameLoosely(r, Dispatch(w, c.(hdr := ps[0].header), ps[0]))
            && (r.error.None? ==>
                  Idle(r.conn) && Remaining(r.conn, ps[1..]) == data[c.readSize..] + tail)
  {
    var p := ps[0];
    var d := c.(hdr := p.header);
    if Idle(c) {
      CutHeader(ps, data, tail);
      HeaderOf(p);
      assert [] + Wire(ps[1..]) == Wire(ps[1..]);
      assert p == Packet(p.header, []);
    } else {
      CutFront(p.payload, Wire(ps[1..]), data, tail);
      DispatchLoose(w, d.(phase := AwaitHeader), d, p);
    }
    DispatchKeeps(w, d.(phase := AwaitHeader), p);
    hide Dispatch, Wire, ToBytes, FromBytes;
  }

  function Deliveries(atLeft: bool, k: nat): (r: seq<R.Step>)
    ensures |r| == k
  {
    if k == 0 then [] else [R.Deliver(atLeft)] + Deliveries(atLeft, k - 1)
  }

  lemma FirstDelivery(t: R.System, atLeft: bool, k: nat)
    ensures R.Run(t, Deliveries(atLeft, k + 1)) == R.Run(R.Next(t, R.Deliver(atLeft)), Deliveries(atLeft, k))
  {
    assert ([R.Deliver(atLeft)] + Deliveries(atLeft, k))[1..] == Deliveries(atLeft, k);
    hide R.Next;
  }

  /** What is left to be delivered to a peer. */
  function Pending(t: R.System, atLeft: bool): seq<Packet> {
    var p, q := R.PeerAt(t, atLeft), R.PeerAt(t, !atLeft);
    if p.received <= |q.conn.packets| then q.conn.packets[p.received..] else []
  }

  /** A connection `c` on bytes stands where the peer stands on packets. */
  predicate Matches(c: Conn, p: R.Peer) {
    Loose(c) == Loose(p.conn)
  }

  lemma DeliverOne(t: R.System, atLeft: bool, c: Conn)
    requires t.up && Pending(t, atLeft) != [] && Matches(c, R.PeerAt(t, atLeft))
    ensures var p, packet, u := R.PeerAt(t, atLeft), Pending(t, atLeft)[0], R.Next(t, R.Deliver(atLeft));
            var r := Dispatch(p.world, c.(hdr := packet.header), packet);
            && R.PeerAt(u, atLeft) == p.(conn := R.PeerAt(u, atLeft).conn, received := p.received + 1)
            && R.PeerAt(u, !atLeft) == R.PeerAt(t, !atLeft)
            && u.up == r.error.None? && Matches(r.conn, R.PeerAt(u, atLeft))
            && Pending(u, atLeft) == Pending(t, atLeft)[1..]
            && p.received < |R.PeerAt(t, !atLeft).conn.packets|
  {
    var p, packet := R.PeerAt(t, atLeft), Pending(t, atLeft)[0];
    assert packet == R.PeerAt(t, !atLeft).conn.packets[p.received];
    DispatchLoose(p.world, c.(hdr := packet.header), p.conn.(hdr := packet.header), packet);
    hide Dispatch;
  }

  lemma PendingArePackets(t: R.System, atLeft: bool)
    requires ArePackets(R.PeerAt(t, !atLeft).conn.packets)
    ensures ArePackets(Pending(t, atLeft))
  {}

  /** The connection `f` has been fed a part of what was pending at `t`, and the packets in it have been delivered
      at `u`. */
  ghost predicate Followed(t: R.System, u: R.System, atLeft: bool, c: Conn, data: seq<byte>, tail: seq<byte>, f: Fed) {
    var p, p' := R.PeerAt(t, atLeft), R.PeerAt(u, atLeft);
    && u.up == f.error.None? && Matches(f.conn, p') && R.PeerAt(u, !atLeft) == R.PeerAt(t, !atLeft)
    && c.handled <= f.conn.handled
    && p' == p.(conn := p'.conn, received := p.received + Count(c, f.conn))
    && p'.received <= |R.PeerAt(t, !atLeft).conn.packets|
    && (f.error.None? ==>
          && Expects(f.conn, Pending(u, atLeft)) && f.consumed <= |data|
          && Remaining(f.conn, Pending(u, atLeft)) == data[f.consumed..] + tail
          && |data| - f.consumed < f.conn.readSize)
  }

  lemma {:induction false} FeedFollows(t: R.System, atLeft: bool, c: Conn, data: seq<byte>, tail: seq<byte>)
    returns (k: nat)
    requires t.up && Matches(c, R.PeerAt(t, atLeft)) && ArePackets(R.PeerAt(t, !atLeft).conn.packets)
    requires R.PeerAt(t, atLeft).received <= |R.PeerAt(t, !atLeft).conn.packets|
    requires Expects(c, Pending(t, atLeft)) && Remaining(c, Pending(t, atLeft)) == data + tail
    ensures Followed(t, R.Run(t, Deliveries(atLeft, k)), atLeft, c, data, tail,
                     Feed(R.PeerAt(t, atLeft).world, c, data))
    decreases |data|
  {
    var w, ps := R.PeerAt(t, atLeft).world, Pending(t, atLeft);
    PendingArePackets(t, atLeft);
    k := 0;
    if |data| < c.readSize {
      FeedLess(w, c, data);
      assert data[0..] == data;
    } else {
      SomePending(c, ps, data, tail);
      FeedOnce(w, c, data);
      if Idle(c) && ps[0].payload != [] {
        HeaderCall(w, c, ps, data, tail);
        var c' := c.(hdr := ps[0].header, phase := AwaitPayload, readSize := |ps[0].payload|);
        k := FeedFollows(t, atLeft, c', data[HEADER_SIZE..], tail);
        AfterCall(t, R.Run(t, Deliveries(atLeft, k)), atLeft, c, c', data, tail,
                  Feed(w, c', data[HEADER_SIZE..]), HEADER_SIZE);
      } else {
        k := PacketFollows(t, atLeft, c, data, tail);
      }
    }
  }

  lemma {:induction false} PacketFollows(t: R.System, atLeft: bool, c: Conn, data: seq<byte>, tail: seq<byte>)
    returns (k: nat)
    requires t.up && Matches(c, R.PeerAt(t, atLeft)) && ArePackets(R.PeerAt(t, !atLeft).conn.packets)
    requires R.PeerAt(t, atLeft).received <= |R.PeerAt(t, !atLeft).conn.packets|
    requires Expects(c, Pending(t, atLeft)) && Remaining(c, Pending(t, atLeft)) == data + tail
    requires 0 < c.readSize <= |data| && Pending(t, atLeft) != [] && IsPacket(Pending(t, atLeft)[0])
    requires Idle(c) ==> Pending(t, atLeft)[0].payload == []
    ensures Followed(t, R.Run(t, Deliveries(atLeft, k)), atLeft, c, data, tail,
                     Feed(R.PeerAt(t, atLeft).world, c, data))
    decreases |data|, 0
  {
    hide *;
    var w := R.PeerAt(t, atLeft).world;
    var u, r := R.Next(t, R.Deliver(atLeft)), HandleData(w, c, data[..c.readSize]);
    var c' := OneDelivered(t, atLeft, c, data, tail);
    FeedOnce(w, c, data);
    FirstDelivery(t, atLeft, 0);
    k := 1;
    if r.error.None? {
      var j := FeedFollows(u, atLeft, r.conn, data[c.readSize..], tail);
      AfterPacket(t, u, R.Run(u, Deliveries(atLeft, j)), atLeft, c, r.conn, data, tail,
                  Feed(w, r.conn, data[c.readSize..]), c.readSize);
      FirstDelivery(t, atLeft, j);
      k := j + 1;
    } else {
      ErrorFollows(t, u, atLeft, c, data, tail, Fed(r.conn, c.readSize, r.error));
      NoDelivery(u, atLeft);
    }
  }

  lemma NoDelivery(t: R.System, atLeft: bool)
    ensures R.Run(t, Deliveries(atLeft, 0)) == t
  {}

  /** The call with the end of a packet, and its delivery. */
  lemma OneDelivered(t: R.System, atLeft: bool, c: Conn, data: seq<byte>, tail: seq<byte>) returns (c': Conn)
    requires t.up && Matches(c, R.PeerAt(t, atLeft))
    requires Expects(c, Pending(t, atLeft)) && Remaining(c, Pending(t, atLeft)) == data + tail
    requires 0 < c.readSize <= |data| && Pending(t, atLeft) != [] && IsPacket(Pending(t, atLeft)[0])
    requires Idle(c) ==> Pending(t, atLeft)[0].payload == []
    ensures var u, r := R.Next(t, R.Deliver(atLeft)),
                        HandleData(R.PeerAt(t, atLeft).world, c, data[..c.readSize]);
            && Moved(t, u, atLeft) && c' == r.conn && u.up == r.error.None? && Matches(c', R.PeerAt(u, atLeft))
            && c'.handled == c.handled + [Pending(t, atLeft)[0]]
            && R.PeerAt(u, atLeft).received <= |R.PeerAt(u, !atLeft).conn.packets|
            && R.PeerAt(u, !atLeft) == R.PeerAt(t, !atLeft) && R.PeerAt(u, atLeft).world == R.PeerAt(t, atLeft).world
            && (u.up ==>
                  && Expects(c', Pending(u, atLeft))
                  && Remaining(c', Pending(u, atLeft)) == data[c.readSize..] + tail)
  {
    var w, ps := R.PeerAt(t, atLeft).world, Pending(t, atLeft);
    PacketCall(w, c, ps, data, tail);
    DispatchKeeps(w, c.(hdr := ps[0].header), ps[0]);
    DeliverOne(t, atLeft, c);
    c' := HandleData(w, c, data[..c.readSize]).conn;
    hide HandleData, Dispatch, R.Next, Remaining, Pending, Wire, ToBytes;
  }

  /** One packet has been received. */
  ghost predicate Moved(t: R.System, u: R.System, atLeft: bool) {
    && R.PeerAt(u, atLeft) ==
       R.PeerAt(t, atLeft).(conn := R.PeerAt(u, atLeft).conn, received := R.PeerAt(t, atLeft).received + 1)
    && R.PeerAt(u, !atLeft) == R.PeerAt(t, !atLeft)
  }

  lemma AfterPacket(t: R.System, t1: R.System, u: R.System, atLeft: bool, c: Conn, c': Conn, data: seq<byte>,
                    tail: seq<byte>, f: Fed, n: nat)
    requires n <= |data| && f.consumed <= |data| - n && Moved(t, t1, atLeft)
    requires Followed(t1, u, atLeft, c', data[n..], tail, f)
    requires c.handled <= c'.handled && |c'.handled| == |c.handled| + 1
    ensures Followed(t, u, atLeft, c, data, tail, After(f, n))
  {
    hide Remaining, Expects, Loose, Pending;
    DropDrop(data, n, f.consumed);
  }

  lemma ErrorFollows(t: R.System, u: R.System, atLeft: bool, c: Conn, data: seq<byte>, tail: seq<byte>, f: Fed)
    requires R.PeerAt(u, atLeft).received <= |R.PeerAt(t, !atLeft).conn.packets|
    requires Moved(t, u, atLeft) && !u.up && f.error.Some? && Matches(f.conn, R.PeerAt(u, atLeft))
    requires c.handled <= f.conn.handled && |f.conn.handled| == |c.handled| + 1
    ensures Followed(t, u, atLeft, c, data, tail, f)
  {}

  /** A call that reads a header only. */
  lemma AfterCall(t: R.System, u: R.System, atLeft: bool, c: Conn, c': Conn, data: seq<byte>, tail: seq<byte>, f: Fed,
                  n: nat)
    requires n <= |data| && f.consumed <= |data| - n
    requires Followed(t, u, atLeft, c', data[n..], tail, f) && c'.handled == c.handled
    ensures Followed(t, u, atLeft, c, data, tail, After(f, n))
  {
    hide Remaining, Expects;
    DropDrop(data, n, f.consumed);
  }

  lemma SomePending(c: Conn, ps: seq<Packet>, data: seq<byte>, tail: seq<byte>)
    requires Expects(c, ps) && Remaining(c, ps) == data + tail && c.readSize <= |data|
    ensures c.readSize > 0 && ps != []
  {}

  // -- whole runs -----------------------------------------------------------------------------------------------------

  /** An end on bytes and a peer on packets: the same but for a packet that has not arrived completely. */
  ghost predicate PeerAlike(e: End, p: R.Peer) {
    e.peer == p.(conn := e.peer.conn) && Matches(e.peer.conn, p)
  }

  /** The bytes an end has not consumed are the packets not delivered. */
  predicate InStep(e: End, q: Conn) {
    && e.peer.received <= |q.packets| && e.taken <= |Wire(q.packets)| && |e.rest| < e.peer.conn.readSize
    && var ps := q.packets[e.peer.received..];
       Expects(e.peer.conn, ps) && Remaining(e.peer.conn, ps) == e.rest + Wire(q.packets)[e.taken..]
  }

  ghost predicate Alike(s: Net, t: R.System) {
    && s.up == t.up && PeerAlike(s.left, t.left) && PeerAlike(s.right, t.right)
    && PeerWrites(t.left) && PeerWrites(t.right)
    && (s.up ==> InStep(s.left, s.right.peer.conn) && InStep(s.right, s.left.peer.conn))
  }

  function EndAt(s: Net, atLeft: bool): End {
    if atLeft then s.left else s.right
  }

  /** More packets at the end of the stream do not matter. */
  lemma MorePackets(e: End, q: Conn, q': Conn)
    requires InStep(e, q) && q.packets <= q'.packets
    ensures InStep(e, q')
  {
    var c, k := e.peer.conn, e.peer.received;
    var ps, more := q.packets[k..], q'.packets[|q.packets|..];
    assert q'.packets == q.packets + more;
    assert q'.packets[k..] == ps + more;
    WireConcat(q.packets, more);
    RemainingGrows(c, ps, more);
    var out := Wire(q.packets);
    assert (out + Wire(more))[e.taken..] == out[e.taken..] + Wire(more);
    Associative(e.rest, out[e.taken..], Wire(more));
    hide Wire, Remaining;
  }

  lemma RemainingGrows(c: Conn, ps: seq<Packet>, more: seq<Packet>)
    requires Expects(c, ps)
    ensures Expects(c, ps + more) && Remaining(c, ps + more) == Remaining(c, ps) + Wire(more)
  {
    WireConcat(ps, more);
    if c.phase == AwaitPayload {
      assert (ps + more)[0] == ps[0] && (ps + more)[1..] == ps[1..] + more;
      WireConcat(ps[1..], more);
      Associative(ps[0].payload, Wire(ps[1..]), Wire(more));
    }
    hide Wire;
  }

  lemma AskFollows(e: End, p: R.Peer, q: Conn, path: seq<byte>, listener: nat)
    requires PeerAlike(e, p) && PeerWrites(p)
    ensures PeerAlike(Asking(e, path, listener), R.AskOf(p, path, listener)) && PeerWrites(R.AskOf(p, path, listener))
    ensures e.peer.conn.packets <= Asking(e, path, listener).peer.conn.packets
    ensures InStep(e, q) ==> InStep(Asking(e, path, listener), q)
  {
    ResolveLoose(p.world, e.peer.conn, p.conn, path, listener);
    ResolveWrites(p.world, p.conn, path, listener);
    ResolveWrites(p.world, e.peer.conn, path, listener);
    ResolveLoose(p.world, e.peer.conn, e.peer.conn, path, listener);
    hide Resolve, Small, ArePackets, Wire;
  }

  /** Bytes that arrive are followed by the delivery of the packets that are complete. */
  lemma ArriveFollows(s: Net, t: R.System, atLeft: bool, n: nat) returns (k: nat)
    requires Alike(s, t) && s.up && EndAt(s, atLeft).taken + n <= |Output(EndAt(s, !atLeft))|
    ensures Alike(Next(s, Arrive(atLeft, n)), R.Run(t, Deliveries(atLeft, k)))
  {
    hide *;
    AlikeForm(s, t, atLeft);
    k := EndArrives(t, atLeft, EndAt(s, atLeft), EndAt(s, !atLeft), n);
    NextArrive(s, atLeft, n);
    AlikeForm(Next(s, Arrive(atLeft, n)), R.Run(t, Deliveries(atLeft, k)), atLeft);
  }

  lemma EndArrives(t: R.System, atLeft: bool, e: End, o: End, n: nat) returns (k: nat)
    requires t.up && PeerAlike(e, R.PeerAt(t, atLeft)) && PeerAlike(o, R.PeerAt(t, !atLeft))
    requires InStep(e, o.peer.conn) && InStep(o, e.peer.conn) && PeerWrites(t.left) && PeerWrites(t.right)
    requires e.taken + n <= |Output(o)|
    ensures var u, more := R.Run(t, Deliveries(atLeft, k)), Output(o)[e.taken..e.taken + n];
            var e' := Arriving(e, more);
            && PeerAlike(e', R.PeerAt(u, atLeft)) && PeerAlike(o, R.PeerAt(u, !atLeft))
            && u.up == Accepts(e, more)
            && (u.up ==> InStep(e', o.peer.conn) && InStep(o, e'.peer.conn))
            && PeerWrites(u.left) && PeerWrites(u.right)
  {
    hide *;
    var more, tail := Output(o)[e.taken..e.taken + n], Output(o)[e.taken + n..];
    SplitOutput(Output(o), e.taken, n);
    StreamAt(t, atLeft, e, o, more, tail);
    k := FeedFollows(t, atLeft, e.peer.conn, e.rest + more, tail);
    EndFollows(t, R.Run(t, Deliveries(atLeft, k)), atLeft, e, o, more, tail);
    RunWrites(t, Deliveries(atLeft, k));
  }

  lemma SplitOutput(out: seq<byte>, taken: nat, n: nat)
    requires taken + n <= |out|
    ensures out[taken..taken + n] + out[taken + n..] == out[taken..]
  {}

  lemma NextArrive(s: Net, atLeft: bool, n: nat)
    requires s.up && EndAt(s, atLeft).taken + n <= |Output(EndAt(s, !atLeft))|
    ensures var e, o, s' := EndAt(s, atLeft), EndAt(s, !atLeft), Next(s, Arrive(atLeft, n));
            var more := Output(o)[e.taken..e.taken + n];
            EndAt(s', atLeft) == Arriving(e, more) && EndAt(s', !atLeft) == o && s'.up == Accepts(e, more)
  {
    hide Arriving, Accepts, Output;
  }

  lemma AlikeForm(s: Net, t: R.System, atLeft: bool)
    ensures Alike(s, t) <==>
            var e, o, p, q := EndAt(s, atLeft), EndAt(s, !atLeft), R.PeerAt(t, atLeft), R.PeerAt(t, !atLeft);
            && s.up == t.up && PeerAlike(e, p) && PeerAlike(o, q) && PeerWrites(t.left) && PeerWrites(t.right)
            && (s.up ==> InStep(e, o.peer.conn) && InStep(o, e.peer.conn))
  {
    hide PeerAlike, InStep, PeerWrites;
  }

  lemma StreamAt(t: R.System, atLeft: bool, e: End, o: End, more: seq<byte>, tail: seq<byte>)
    requires PeerAlike(e, R.PeerAt(t, atLeft)) && PeerAlike(o, R.PeerAt(t, !atLeft)) && InStep(e, o.peer.conn)
    requires PeerWrites(t.left) && PeerWrites(t.right) && e.taken <= |Output(o)|
    requires more + tail == Output(o)[e.taken..]
    ensures var p, q := R.PeerAt(t, atLeft), R.PeerAt(t, !atLeft);
            && Matches(e.peer.conn, p) && e.peer.world == p.world && PeerWrites(p)
            && Expects(e.peer.conn, Pending(t, atLeft))
            && Remaining(e.peer.conn, Pending(t, atLeft)) == (e.rest + more) + tail
            && ArePackets(q.conn.packets) && p.received <= |q.conn.packets|
  {
    hide Remaining, Wire, ArePackets, Small;
    Associative(e.rest, more, tail);
  }

  lemma EndFollows(t: R.System, u: R.System, atLeft: bool, e: End, o: End, more: seq<byte>, tail: seq<byte>)
    requires PeerAlike(e, R.PeerAt(t, atLeft)) && PeerAlike(o, R.PeerAt(t, !atLeft)) && InStep(e, o.peer.conn)
    requires InStep(o, e.peer.conn) && PeerWrites(R.PeerAt(t, atLeft))
    requires more + tail == Output(o)[e.taken..]
    requires Followed(t, u, atLeft, e.peer.conn, e.rest + more, tail,
                      Feed(R.PeerAt(t, atLeft).world, e.peer.conn, e.rest + more))
    ensures var e' := Arriving(e, more);
            && PeerAlike(e', R.PeerAt(u, atLeft)) && PeerAlike(o, R.PeerAt(u, !atLeft))
            && u.up == Accepts(e, more)
            && (u.up ==> InStep(e', o.peer.conn) && InStep(o, e'.peer.conn))
  {
    var f := Feed(e.peer.world, e.peer.conn, e.rest + more);
    PeerFollows(t, u, atLeft, e, more, tail, f);
    if u.up {
      InStepFollows(t, u, atLeft, e, o, more, tail, f);
    }
    FeedWrites(e.peer.world, e.peer.conn, e.rest + more);
    MorePackets(o, e.peer.conn, Arriving(e, more).peer.conn);
    hide *;
    AlikeWrites(e, R.PeerAt(t, atLeft));
    ArrivingForm(e, more, f);
    FollowedOther(t, u, atLeft, e.peer.conn, e.rest + more, tail, f);
  }

  lemma AlikeWrites(e: End, p: R.Peer)
    requires PeerAlike(e, p)
    ensures e.peer.world == p.world && PeerWrites(p) == PeerWrites(e.peer)
  {}

  lemma FollowedOther(t: R.System, u: R.System, atLeft: bool, c: Conn, data: seq<byte>, tail: seq<byte>, f: Fed)
    requires Followed(t, u, atLeft, c, data, tail, f)
    ensures R.PeerAt(u, !atLeft) == R.PeerAt(t, !atLeft) && u.up == f.error.None?
  {}

  lemma ArrivingForm(e: End, more: seq<byte>, f: Fed)
    requires f == Feed(e.peer.world, e.peer.conn, e.rest + more)
    ensures var e' := Arriving(e, more);
            && e'.peer == Fetched(e.peer, e.peer.conn, f.conn) && e'.taken == e.taken + |more|
            && e'.rest == (e.rest + more)[f.consumed..]
            && Accepts(e, more) == f.error.None?
  {
    hide Feed, Fetched, Count;
  }

  lemma PeerFollows(t: R.System, u: R.System, atLeft: bool, e: End, more: seq<byte>, tail: seq<byte>, f: Fed)
    requires PeerAlike(e, R.PeerAt(t, atLeft)) && f == Feed(e.peer.world, e.peer.conn, e.rest + more)
    requires Followed(t, u, atLeft, e.peer.conn, e.rest + more, tail, f)
    ensures PeerAlike(Arriving(e, more), R.PeerAt(u, atLeft))
  {
    ArrivingForm(e, more, f);
    hide Feed, Arriving, Remaining, Expects, Pending, Loose;
  }

  lemma InStepFollows(t: R.System, u: R.System, atLeft: bool, e: End, o: End, more: seq<byte>, tail: seq<byte>, f: Fed)
    requires PeerAlike(e, R.PeerAt(t, atLeft)) && PeerAlike(o, R.PeerAt(t, !atLeft))
    requires f == Feed(e.peer.world, e.peer.conn, e.rest + more)
    requires e.peer.received <= |o.peer.conn.packets| && e.taken <= |Output(o)|
    requires more + tail == Output(o)[e.taken..] && u.up
    requires Followed(t, u, atLeft, e.peer.conn, e.rest + more, tail, f)
    ensures InStep(Arriving(e, more), o.peer.conn)
  {
    hide *;
    var e' := Arriving(e, more);
    ArrivingForm(e, more, f);
    TailOf(Output(o), e.taken, more, tail);
    StandsBehind(t, u, atLeft, e, o, e.rest + more, tail, f);
    OutputIsWire(o);
    InStepForm(e', o.peer.conn);
  }

  lemma OutputIsWire(o: End)
    ensures Output(o) == Wire(o.peer.conn.packets)
  {}

  lemma InStepForm(e: End, q: Conn)
    ensures InStep(e, q) <==>
            && e.peer.received <= |q.packets| && e.taken <= |Wire(q.packets)| && |e.rest| < e.peer.conn.readSize
            && Expects(e.peer.conn, q.packets[e.peer.received..])
            && Remaining(e.peer.conn, q.packets[e.peer.received..]) == e.rest + Wire(q.packets)[e.taken..]
  {
    hide Expects, Remaining, Wire;
  }

  lemma StandsBehind(t: R.System, u: R.System, atLeft: bool, e: End, o: End, data: seq<byte>, tail: seq<byte>, f: Fed)
    requires PeerAlike(e, R.PeerAt(t, atLeft)) && PeerAlike(o, R.PeerAt(t, !atLeft)) && u.up
    requires Followed(t, u, atLeft, e.peer.conn, data, tail, f)
    ensures var p, ps := Fetched(e.peer, e.peer.conn, f.conn), o.peer.conn.packets;
            && p.conn == f.conn && p.received <= |ps| && f.consumed <= |data|
            && Expects(f.conn, ps[p.received..]) && Remaining(f.conn, ps[p.received..]) == data[f.consumed..] + tail
            && |data| - f.consumed < f.conn.readSize
  {
    assert R.PeerAt(u, !atLeft).conn.packets == o.peer.conn.packets;
    hide Remaining, Expects, Wire, Loose;
  }

  lemma TailOf(out: seq<byte>, n: nat, more: seq<byte>, tail: seq<byte>)
    requires n <= |out| && more + tail == out[n..]
    ensures n + |more| <= |out| && tail == out[n + |more|..]
  {
    assert tail == (more + tail)[|more|..];
  }

  lemma {:induction false} RunConcat(t: R.System, a: seq<R.Step>, b: seq<R.Step>)
    ensures R.Run(t, a + b) == R.Run(R.Run(t, a), b)
    decreases |a|
  {
    hide R.Next;
    if a == [] {
      assert a + b == b;
    } else {
      assert (a + b)[1..] == a[1..] + b;
      RunConcat(R.Next(t, a[0]), a[1..], b);
    }
  }

  lemma AskStepFollows(s: Net, t: R.System, step: Step)
    requires Alike(s, t) && step.Ask? && s.up
    ensures Alike(Next(s, step), R.Next(t, R.Ask(step.atLeft, step.path, step.listener)))
  {
    var atLeft := step.atLeft;
    var e, o := EndAt(s, atLeft), EndAt(s, !atLeft);
    var u := R.Next(t, R.Ask(step.atLeft, step.path, step.listener));
    AskFollows(e, R.PeerAt(t, atLeft), o.peer.conn, step.path, step.listener);
    MorePackets(o, e.peer.conn, Asking(e, step.path, step.listener).peer.conn);
    hide PeerAlike, InStep, PeerWrites, R.AskOf, Asking;
  }

  /** Every run on bytes, with pieces of any size and requests at any time, does what a run on packets does. */
  lemma {:induction false} WireFollows(s: Net, t: R.System, steps: seq<Step>) returns (steps': seq<R.Step>)
    requires Alike(s, t)
    ensures Alike(Run(s, steps), R.Run(t, steps'))
    decreases |steps|
  {
    hide Alike, Next, R.Next;
    steps' := [];
    if steps != [] {
      var first := StepFollows(s, t, steps[0]);
      var others := WireFollows(Next(s, steps[0]), R.Run(t, first), steps[1..]);
      RunConcat(t, first, others);
      steps' := first + others;
    }
  }

  lemma StepFollows(s: Net, t: R.System, step: Step) returns (steps': seq<R.Step>)
    requires Alike(s, t)
    ensures Alike(Next(s, step), R.Run(t, steps'))
  {
    steps' := [];
    if s.up && step.Ask? {
      AskStepFollows(s, t, step);
      steps' := [R.Ask(step.atLeft, step.path, step.listener)];
      OneStep(t, steps'[0]);
    } else if s.up && EndAt(s, step.atLeft).taken + step.count <= |Output(EndAt(s, !step.atLeft))| {
      var k := ArriveFollows(s, t, step.atLeft, step.count);
      steps' := Deliveries(step.atLeft, k);
    }
    hide Alike, Arriving, Accepts, Asking, Output, Deliveries, R.Next;
  }

  lemma OneStep(t: R.System, step: R.Step)
    ensures R.Run(t, [step]) == R.Next(t, step)
  {
    assert [step][1..] == [];
    hide R.Next;
  }

  // -- lookups on the wire --------------------------------------------------------------------------------------------

  /** Both applications right after the handshake. */
  ghost predicate Ready(e: End, o: End) {
    && R.Connected(e.peer) && PeerWrites(e.peer) && Idle(e.peer.conn)
    && e.rest == [] && e.taken == |Output(o)| && |o.peer.conn.packets| == 1
  }

  /** An application that has been fed the greeting of the other. */
  function Introduced(w: World, own: seq<byte>, other: seq<byte>): End {
    var g := Wire(Start(other).packets);
    End(R.Peer(w, Feed(w, Start(own), g).conn, 1, [], 0), [], |g|)
  }

  /** Two applications that accept each other's greeting get there. */
  lemma HandshakeMakesReady(w: World, own: seq<byte>, other: seq<byte>, o: End)
    requires Small(w) && 0 < |other| < UINT32_LIMIT && |own| < UINT32_LIMIT && IsGreeting(w, other)
    requires o.peer.conn.packets == Start(other).packets
    ensures Ready(Introduced(w, own, other), o)
    ensures Introduced(w, own, other).peer.conn.packets == Start(own).packets
    ensures Introduced(w, own, other).peer.conn.node == w.readGreeting(other).value.node
  {
    var c, g := Start(own), Start(other).packets[0];
    GreetingArrives(w, c, g, other, []);
    WireFirst(Start(other).packets);
    assert Start(other).packets[1..] == [];
    assert g.payload + [] == g.payload && OnWire(g) + [] == OnWire(g) == Wire(Start(other).packets);
    FeedLess(w, Greeted(w, c, g), []);
    StartWrites(own);
    hide Feed, ToBytes;
  }

  lemma ReadyAlike(left: End, right: End)
    requires Ready(left, right) && Ready(right, left)
    ensures Alike(Net(left, right, true), R.System(left.peer, right.peer, true))
  {
    NothingLeft(left, right);
    NothingLeft(right, left);
    hide InStep;
  }

  lemma NothingLeft(e: End, o: End)
    requires Ready(e, o)
    ensures InStep(e, o.peer.conn)
  {
    var q := o.peer.conn;
    assert q.packets[1..] == [] && Wire(q.packets)[e.taken..] == [];
  }

  predicate AllTaken(s: Net) {
    s.up && s.left.taken == |Output(s.right)| && s.right.taken == |Output(s.left)|
  }

  lemma AllDelivered(e: End, q: Conn)
    requires InStep(e, q) && ArePackets(q.packets) && e.taken == |Wire(q.packets)|
    ensures e.peer.received == |q.packets|
  {
    var ps := q.packets[e.peer.received..];
    assert Remaining(e.peer.conn, ps) == e.rest + [] == e.rest;
    if ps != [] {
      WireFirst(ps);
    }
  }

  /** In every run of two peers on bytes, whatever their pieces: each listener asked for has been answered, is pending
      or has been lost; a peer that has lost none gets its answers in the order of its requests; and once all bytes
      have arrived, each of its listeners has been answered and nothing is pending. */
  lemma LookupsOnWire(left: End, right: End, steps: seq<Step>)
    requires Ready(left, right) && Ready(right, left)
    ensures var s := Run(Net(left, right, true), steps);
            && R.Balance(s.left.peer) && R.Balance(s.right.peer)
            && (s.left.peer.lost == 0 ==> AnsweredInOrder(s, s.left.peer))
            && (s.right.peer.lost == 0 ==> AnsweredInOrder(s, s.right.peer))
  {
    var s, t := Run(Net(left, right, true), steps), R.System(left.peer, right.peer, true);
    ReadyAlike(left, right);
    var steps' := WireFollows(Net(left, right, true), t, steps);
    R.EveryListenerAnswered(left.peer, right.peer, steps');
    AllReceived(s, R.Run(t, steps'));
    hide Run, R.Run, InStep, R.AnsweredTo, Output, PeerWrites;
  }

  ghost predicate AnsweredInOrder(s: Net, p: R.Peer) {
    && R.AnsweredTo(p.conn.effects) <= p.asked
    && (AllTaken(s) ==> R.AnsweredTo(p.conn.effects) == p.asked && p.conn.pending == map[])
  }

  lemma AllReceived(s: Net, t: R.System)
    requires Alike(s, t)
    ensures AllTaken(s) ==> R.AllReceived(t)
  {
    if AllTaken(s) {
      AllDelivered(s.left, s.right.peer.conn);
      AllDelivered(s.right, s.left.peer.conn);
    }
    hide Wire, InStep;
  }
}
