/** What holds of whole BASP connections. */
module BaspTheorems {
  import opened Bytes
  import opened StreamLayer
  import opened BaspHeader
  import opened BaspApplication
  import MessageQueue
  import Workers = BaspWorkers

  // -- a transport that delivers exactly the announced sizes ----------------------------------------------------------

  datatype Fed = Fed(conn: Conn, consumed: nat, error: Option<Error>)

  function After(f: Fed, n: nat): Fed {
    f.(consumed := f.consumed + n)
  }

  /** Hands over the announced number of bytes as long as there are enough of them and no error has occurred. */
  function Feed(w: World, c: Conn, stream: seq<byte>): (f: Fed)
    ensures f.consumed <= |stream|
    decreases |stream|
  {
    if c.readSize == 0 || |stream| < c.readSize then Fed(c, 0, None)
    else
      var r := HandleData(w, c, stream[..c.readSize]);
      if r.error.Some? then Fed(r.conn, c.readSize, r.error)
      else After(Feed(w, r.conn, stream[c.readSize..]), c.readSize)
  }

  /** The announced size is what the state is waiting for, and never 0, which would stop reading. */
  predicate ReadsNext(c: Conn) {
    && c.readSize > 0
    && match c.phase
       case AwaitHandshakeHeader => c.readSize == HEADER_SIZE
       case AwaitHandshakePayload => c.readSize == c.hdr.payloadLen && c.hdr.kind == HANDSHAKE
           && c.hdr.operationData == VERSION
       case AwaitHeader => c.readSize == HEADER_SIZE
       case AwaitPayload => c.readSize == c.hdr.payloadLen
       case Shutdown => false
  }

  lemma DispatchKeeps(w: World, c: Conn, p: Packet)
    ensures var r := Dispatch(w, c, p);
            && r.conn.phase == c.phase && r.conn.hdr == c.hdr && r.conn.readSize == c.readSize && r.conn.node == c.node
            && r.conn.handled == c.handled + [p] && r.conn.nextRequestId == c.nextRequestId
            && r.error != Some(UnexpectedNumberOfBytes) && r.error != Some(IllegalState)
                && r.error != Some(MissingHandshake)
  {}

  lemma HandleReadsNext(w: World, c: Conn, bytes: seq<byte>)
    requires ReadsNext(c) && |bytes| == c.readSize
    ensures var r := HandleData(w, c, bytes);
            && (r.error.None? ==> ReadsNext(r.conn))
            && r.error != Some(UnexpectedNumberOfBytes) && r.error != Some(IllegalState)
  {
    match c.phase
    case AwaitHeader => DispatchKeeps(w, c.(hdr := FromBytes(bytes)), Packet(FromBytes(bytes), [])); hide Dispatch;
    case AwaitPayload => DispatchKeeps(w, c.(phase := AwaitHeader), Packet(c.hdr, bytes)); hide Dispatch;
    case _ =>
  }

  /** Fed exactly what it asks for, a connection never sees a wrong number of bytes, whatever the bytes are. */
  lemma {:induction false} NeverWrongByteCount(w: World, c: Conn, stream: seq<byte>)
    requires ReadsNext(c)
    ensures var f := Feed(w, c, stream);
            && (f.error.None? ==> ReadsNext(f.conn) && |stream| - f.consumed < f.conn.readSize)
            && f.error != Some(UnexpectedNumberOfBytes) && f.error != Some(IllegalState)
    decreases |stream|
  {
    if c.readSize <= |stream| {
      HandleReadsNext(w, c, stream[..c.readSize]);
      hide HandleData, ReadsNext;
      var r := HandleData(w, c, stream[..c.readSize]);
      if r.error.None? {
        NeverWrongByteCount(w, r.conn, stream[c.readSize..]);
      }
    }
  }

  /** The stream may arrive in any pieces. */
  lemma {:induction false} FeedSplit(w: World, c: Conn, a: seq<byte>, b: seq<byte>)
    ensures var f := Feed(w, c, a);
            Feed(w, c, a + b) == if f.error.Some? then f else After(Feed(w, f.conn, a[f.consumed..] + b), f.consumed)
    decreases |a|
  {
    hide HandleData;
    var n := c.readSize;
    if n == 0 || |a| < n {
      assert a[0..] + b == a + b;
    } else {
      TakeDrop(a, b, n);
      var r := HandleData(w, c, a[..n]);
      if r.error.None? {
        FeedSplit(w, r.conn, a[n..], b);
        var f := Feed(w, r.conn, a[n..]);
        DropDrop(a, n, f.consumed);
      }
    }
  }

  lemma TakeDrop(a: seq<byte>, b: seq<byte>, n: nat)
    requires n <= |a|
    ensures (a + b)[..n] == a[..n] && (a + b)[n..] == a[n..] + b
  {}

  lemma DropDrop(a: seq<byte>, m: nat, n: nat)
    requires m + n <= |a|
    ensures a[m..][n..] == a[m + n..]
  {}

  // -- nothing before a valid handshake -------------------------------------------------------------------------------

  /** Calls with pieces of any size; the first error ends the connection. */
  function Calls(w: World, c: Conn, pieces: seq<seq<byte>>): Result
    decreases |pieces|
  {
    if pieces == [] then Succeed(c)
    else
      var r := HandleData(w, c, pieces[0]);
      if r.error.Some? then r else Calls(w, r.conn, pieces[1..])
  }

  predicate IsHandshakeHeader(bytes: seq<byte>) {
    && |bytes| == HEADER_SIZE
    && FromBytes(bytes).kind == HANDSHAKE && FromBytes(bytes).operationData == VERSION
        && FromBytes(bytes).payloadLen > 0
  }

  /** A readable greeting of a valid node that shares an application identifier. */
  predicate IsGreeting(w: World, payload: seq<byte>) {
    var g := w.readGreeting(payload);
    g.Some? && g.value.node != 0 && exists id :: id in g.value.appIds && id in w.configuredIds
  }

  predicate Silent(c: Conn) {
    c.handled == [] && c.effects == [] && |c.packets| == 1
  }

  lemma FirstCall(w: World, c: Conn, bytes: seq<byte>)
    requires c.phase == AwaitHandshakeHeader
    ensures var r := HandleData(w, c, bytes);
            && (r.error.None? <==> IsHandshakeHeader(bytes))
            && (r.error.None? ==> r.conn == c.(phase := AwaitHandshakePayload, hdr := FromBytes(bytes),
                                          readSize := FromBytes(bytes).payloadLen))
            && (r.error.Some? ==> r.conn.phase == c.phase)
            && (Silent(c) ==> Silent(r.conn))
  {}

  lemma SecondCall(w: World, c: Conn, bytes: seq<byte>)
    requires c.phase == AwaitHandshakePayload && c.hdr.kind == HANDSHAKE && c.hdr.operationData == VERSION
    ensures var r := HandleData(w, c, bytes);
            && (r.error.None? <==> IsGreeting(w, bytes))
            && (r.error.None? ==> r.conn == c.(phase := AwaitHeader, node := w.readGreeting(bytes).value.node,
                                          readSize := HEADER_SIZE))
            && (r.error.Some? ==> r.conn.phase == c.phase)
            && (Silent(c) ==> Silent(r.conn))
  {
    var g := w.readGreeting(bytes);
    if g.Some? {
      assert !(forall id :: id in g.value.appIds ==> id !in w.configuredIds) <==>
          exists id :: id in g.value.appIds && id in w.configuredIds;
      if exists id :: id in g.value.appIds && id in w.configuredIds {
        assert g.value.appIds != [];
      }
    }
  }

  /** The connection once the handshake has been received. */
  function Opened(w: World, c: Conn, header: seq<byte>, payload: seq<byte>): Conn
    requires IsHandshakeHeader(header) && IsGreeting(w, payload)
  {
    c.(phase := AwaitHeader, hdr := FromBytes(header), readSize := HEADER_SIZE,
       node := w.readGreeting(payload).value.node)
  }

  /** Whatever is received, in pieces of any size: no packet reaches a handler and nothing but the own handshake is
      written unless the first two pieces were a handshake header and a greeting this node accepts; and these two pieces
      open the connection. */
  lemma NothingBeforeHandshake(w: World, greeting: seq<byte>, pieces: seq<seq<byte>>)
    ensures var r := Calls(w, Start(greeting), pieces);
            var greeted := |pieces| >= 2 && IsHandshakeHeader(pieces[0]) && IsGreeting(w, pieces[1]);
            && (!greeted ==> Silent(r.conn) && r.conn.phase != AwaitHeader && r.conn.phase != AwaitPayload)
            && (greeted ==> r == Calls(w, Opened(w, Start(greeting), pieces[0], pieces[1]), pieces[2..]))
  {
    var c := Start(greeting);
    if pieces != [] {
      FirstCall(w, c, pieces[0]);
      var r := HandleData(w, c, pieces[0]);
      if r.error.None? && |pieces| > 1 {
        SecondCall(w, r.conn, pieces[1]);
        assert pieces[1..][0] == pieces[1] && pieces[1..][1..] == pieces[2..];
      }
    }
  }

  // -- exactly the packets that were written --------------------------------------------------------------------------

  predicate IsPacket(p: Packet) {
    p.header.payloadLen == |p.payload|
  }

  predicate ArePackets(ps: seq<Packet>) {
    forall k :: 0 <= k < |ps| ==> IsPacket(ps[k])
  }

  function OnWire(p: Packet): seq<byte> {
    ToBytes(p.header) + p.payload
  }

  function Wire(ps: seq<Packet>): seq<byte> {
    if ps == [] then [] else OnWire(ps[0]) + Wire(ps[1..])
  }

  /** Dispatching packets one after the other until a handler fails. */
  function DispatchAll(w: World, c: Conn, ps: seq<Packet>): Result
    decreases |ps|
  {
    if ps == [] then Succeed(c)
    else
      var r := Dispatch(w, c.(hdr := ps[0].header), ps[0]);
      if r.error.Some? then r else DispatchAll(w, r.conn, ps[1..])
  }

  predicate Idle(c: Conn) {
    c.phase == AwaitHeader && c.readSize == HEADER_SIZE
  }

  lemma FeedHeader(w: World, c: Conn, p: Packet, rest: seq<byte>)
    requires Idle(c) && IsPacket(p) && p.payload != []
    ensures var c' := c.(hdr := p.header, phase := AwaitPayload, readSize := |p.payload|);
            Feed(w, c, OnWire(p) + rest) == After(Feed(w, c', p.payload + rest), HEADER_SIZE)
  {
    FromToBytes(p.header, []);
    var stream, h := OnWire(p) + rest, ToBytes(p.header);
    assert h + [] == h;
    assert stream[..HEADER_SIZE] == h;
    assert stream[HEADER_SIZE..] == p.payload + rest;
  }

  lemma FeedPayload(w: World, c: Conn, p: Packet, rest: seq<byte>)
    requires IsPacket(p) && c.phase == AwaitPayload && c.readSize == |p.payload| > 0 && c.hdr == p.header
    ensures var r := Dispatch(w, c.(phase := AwaitHeader), p);
            Feed(w, c, p.payload + rest) ==
            if r.error.Some? then Fed(r.conn, |p.payload|, r.error)
            else After(Feed(w, r.conn.(readSize := HEADER_SIZE), rest), |p.payload|)
  {
    hide Dispatch;
    var stream := p.payload + rest;
    assert stream[..|p.payload|] == p.payload && stream[|p.payload|..] == rest;
  }

  lemma FeedEmpty(w: World, c: Conn, p: Packet, rest: seq<byte>)
    requires Idle(c) && IsPacket(p) && p.payload == []
    ensures var r := Dispatch(w, c.(hdr := p.header), p);
            Feed(w, c, OnWire(p) + rest) ==
            if r.error.Some? then Fed(r.conn, HEADER_SIZE, r.error)
            else After(Feed(w, r.conn.(readSize := HEADER_SIZE), rest), HEADER_SIZE)
  {
    hide Dispatch;
    FromToBytes(p.header, []);
    var stream, h := OnWire(p) + rest, ToBytes(p.header);
    assert h + [] == h;
    assert stream[..HEADER_SIZE] == h;
    assert stream[HEADER_SIZE..] == rest;
    assert p == Packet(p.header, []);
  }

  /** One packet, with or without payload, reaches its handler as it was written; an error of the handler is the only
      one there is. */
  lemma FeedPacket(w: World, c: Conn, p: Packet, rest: seq<byte>)
    requires Idle(c) && IsPacket(p)
    ensures var r, f := Dispatch(w, c.(hdr := p.header), p), Feed(w, c, OnWire(p) + rest);
            && f.error == (if r.error.Some? then r.error else Feed(w, r.conn, rest).error)
            && f.conn.handled == (if r.error.Some? then r.conn else Feed(w, r.conn, rest).conn).handled
            && (r.error.None? ==> Idle(r.conn) && f == After(Feed(w, r.conn, rest), |OnWire(p)|))
            && (r.error.Some? ==> f.conn.(readSize := HEADER_SIZE) == r.conn)
  {
    var c' := c.(hdr := p.header);
    DispatchKeeps(w, c', p);
    if p.payload == [] {
      FeedEmpty(w, c, p, rest);
    } else {
      var c2 := c'.(phase := AwaitPayload, readSize := |p.payload|);
      FeedHeader(w, c, p, rest);
      FeedPayload(w, c2, p, rest);
      SizeIrrelevant(w, c', p, |p.payload|);
    }
    hide Dispatch, Feed;
  }

  predicate Alike(r: Result, r': Result, n: nat) {
    r'.conn == r.conn.(readSize := n) && r'.error == r.error
  }

  /** Handlers do not look at the read size. */
  lemma SizeIrrelevant(w: World, c: Conn, p: Packet, n: nat)
    ensures Alike(Dispatch(w, c, p), Dispatch(w, c.(readSize := n), p), n)
  {
    var d := c.(handled := c.handled + [p]);
    var d' := d.(readSize := n);
    assert c.(readSize := n).(handled := c.handled + [p]) == d';
    if p.header.kind == RESOLVE_REQUEST {
      assert Alike(OnResolveRequest(w, d, p), OnResolveRequest(w, d', p), n);
    } else if p.header.kind == RESOLVE_RESPONSE {
      assert Alike(OnResolveResponse(w, d, p), OnResolveResponse(w, d', p), n);
    } else if p.header.kind == MONITOR_MESSAGE {
      assert Alike(OnMonitor(w, d, p), OnMonitor(w, d', p), n);
    } else {
      hide OnResolveRequest, OnResolveResponse, OnMonitor;
    }
  }

  /** The handlers see exactly the packets that were written, in order and each once, up to the first that a handler
      rejects; nothing else is ever reported as an error, and everything is consumed. */
  lemma {:induction false} DispatchesExactly(w: World, c: Conn, ps: seq<Packet>)
    requires Idle(c) && ArePackets(ps)
    ensures var f, r := Feed(w, c, Wire(ps)), DispatchAll(w, c, ps);
            && f.error == r.error
            && f.conn.(readSize := HEADER_SIZE) == r.conn
            && (f.error.None? ==> f.conn == r.conn && f.consumed == |Wire(ps)| && f.conn.handled == c.handled + ps)
            && c.handled <= f.conn.handled <= c.handled + ps
    decreases |ps|
  {
    if ps == [] {
      assert c.handled + ps == c.handled;
    } else {
      FeedPacket(w, c, ps[0], Wire(ps[1..]));
      DispatchKeeps(w, c.(hdr := ps[0].header), ps[0]);
      hide Dispatch, Feed, OnWire;
      var r := Dispatch(w, c.(hdr := ps[0].header), ps[0]);
      assert ps == [ps[0]] + ps[1..];
      Associative(c.handled, [ps[0]], ps[1..]);
      if r.error.None? {
        DispatchesExactly(w, r.conn, ps[1..]);
      }
    }
  }

  // -- actor messages, from the wire to the receivers -----------------------------------------------------------------

  function ActorMessages(ps: seq<Packet>): seq<Packet> {
    if ps == [] then [] else (if ps[0].header.kind == ACTOR_MESSAGE then [ps[0]] else []) + ActorMessages(ps[1..])
  }

  /** The messages handed to workers, in order. */
  function Launches(es: seq<Effect>): seq<Packet> {
    if es == [] then []
    else
      var last := es[|es| - 1];
      Launches(es[..|es| - 1]) + if last.Launched? then [last.packet] else []
  }

  lemma LaunchesOne(w: World, c: Conn, p: Packet)
    ensures Launches(Dispatch(w, c, p).conn.effects) ==
            Launches(c.effects) + if p.header.kind == ACTOR_MESSAGE then [p] else []
  {
    var d := Dispatch(w, c, p).conn;
    if d.effects != c.effects {
      assert d.effects[..|d.effects| - 1] == c.effects;
    }
  }

  lemma {:induction false} LaunchesInOrder(w: World, c: Conn, ps: seq<Packet>)
    requires DispatchAll(w, c, ps).error.None?
    ensures Launches(DispatchAll(w, c, ps).conn.effects) == Launches(c.effects) + ActorMessages(ps)
    decreases |ps|
  {
    if ps != [] {
      var c' := c.(hdr := ps[0].header);
      LaunchesOne(w, c', ps[0]);
      hide Dispatch, Launches;
      var d := Dispatch(w, c', ps[0]).conn;
      LaunchesInOrder(w, d, ps[1..]);
      Associative(Launches(c.effects), if ps[0].header.kind == ACTOR_MESSAGE then [ps[0]] else [],
                  ActorMessages(ps[1..]));
    }
  }

  /** From the wire to the receivers: if the reader hands the actor messages of a connection to any number of workers
      that finish in any order, the receivers get a prefix of the actor messages on the wire; and once no job is in
      progress they have got all of them if and only if each of them could be delivered when it was handled, that is,
      it named a receiver that was registered. */
  lemma DeliveredInWireOrder(w: World, c: Conn, ps: seq<Packet>, h: Workers.Handler<Packet>, s: Workers.State<Packet>,
      n: nat)
    requires Idle(c) && ArePackets(ps) && Feed(w, c, Wire(ps)).error.None? && c.effects == []
    requires Workers.Inv(h, s) && s.accepted == Launches(Feed(w, c, Wire(ps)).conn.effects)
    requires MessageQueue.IsRun(s.done, n) && Workers.Skipped(s) == {}
    ensures MessageQueue.Released(s.done, n) <= ActorMessages(ps)
    ensures s.busy == map[] && s.reader.Reading? ==>
              (MessageQueue.Released(s.done, n) == ActorMessages(ps) <==>
               forall i: nat :: i < |ActorMessages(ps)| ==>
                 i in s.handledAt && Workers.Deliverable(h, s.handledAt[i], ActorMessages(ps)[i]))
  {
    hide Feed, Wire, ActorMessages, Launches, Workers.Deliverable;
    LaunchedMessages(w, c, ps);
    Workers.ReleasesFifo(h, s, n);
    Workers.FifoIsPrefix(s.accepted, {}, n);
    if s.busy == map[] && s.reader.Reading? {
      Workers.Drained(h, s, n);
      forall i: nat | i < |s.accepted| ensures i in s.handledAt {
        assert !Workers.InProgress(s, i);
        assert i in s.done && i !in s.handledAt ==> i in Workers.Skipped(s);
      }
    }
    hide Workers.Inv;
  }

  lemma LaunchedMessages(w: World, c: Conn, ps: seq<Packet>)
    requires Idle(c) && ArePackets(ps) && Feed(w, c, Wire(ps)).error.None? && c.effects == []
    ensures Launches(Feed(w, c, Wire(ps)).conn.effects) == ActorMessages(ps)
  {
    DispatchesExactly(w, c, ps);
    LaunchesInOrder(w, c, ps);
    assert Launches(c.effects) == [];
    hide Feed, Wire, DispatchAll;
    assert [] + ActorMessages(ps) == ActorMessages(ps);
  }
}
