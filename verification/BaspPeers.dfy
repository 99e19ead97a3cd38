/** Two BASP applications, each on a stream transport: one reads what the other writes. */
module BaspPeers {
  import opened Bytes
  import opened StreamLayer
  import opened BaspHeader
  import opened BaspApplication
  import opened BaspTheorems
  import opened BaspStream
  import opened BaspPackets
  import S = StreamTransport

  /** Everything but the packets written, of which only the announced sizes are shown to be right. */
  function SoundView(): Conn -> (Conn, bool) {
    (c: Conn) => (Blind(c), ArePackets(c.packets))
  }

  function SoundSpec(w: World, greeting: seq<byte>): seq<byte> -> Progress<(Conn, bool)> {
    r => var p := Spec(w, greeting)(r); Progress((p.state, true), p.consumed, p.policy, p.failed)
  }

  /** Between two events the application writes packets that announce their size, and changes nothing else. */
  ghost predicate SendsSound(w: World, prepareSend: Conn -> Sending<Conn>, doneSending: Conn -> bool) {
    && SendsAside(AsLayer(w, prepareSend, doneSending), SoundView())
    && forall c :: SendShips(AsLayer(w, prepareSend, doneSending), Written(), c)
  }

  lemma SoundIsAside(w: World, prepareSend: Conn -> Sending<Conn>, doneSending: Conn -> bool)
    requires SendsSound(w, prepareSend, doneSending)
    ensures SendsPackets(w, prepareSend, doneSending)
  {
    var layer := AsLayer(w, prepareSend, doneSending);
    forall c ensures View()(layer.prepareSend(c).state) == View()(c) {
      assert SoundView()(layer.prepareSend(c).state) == SoundView()(c);
    }
  }

  lemma SoundRefines(w: World, greeting: seq<byte>, prepareSend: Conn -> Sending<Conn>, doneSending: Conn -> bool)
    requires Small(w)
    ensures Refines(AsLayer(w, prepareSend, doneSending), SoundView(), SoundSpec(w, greeting))
  {
    hide Feed, HandleData, RefinesAt;
    var layer := AsLayer(w, prepareSend, doneSending);
    forall c, r, b, delta ensures RefinesAt(layer, SoundView(), SoundSpec(w, greeting), c, r, b, delta) {
      SoundRefinesAt(w, greeting, prepareSend, doneSending, c, r, b, delta);
    }
  }

  lemma SoundRefinesAt(w: World, greeting: seq<byte>, prepareSend: Conn -> Sending<Conn>, doneSending: Conn -> bool,
                       c: Conn, r: seq<byte>, b: seq<byte>, delta: seq<byte>)
    requires Small(w)
    ensures RefinesAt(AsLayer(w, prepareSend, doneSending), SoundView(), SoundSpec(w, greeting), c, r, b, delta)
  {
    hide Feed, HandleData, Wire, ArePackets, Small;
    RefinesFeedAt(w, greeting, prepareSend, doneSending, c, r, b, delta);
    var f := Feed(w, Fresh(greeting), r);
    if ArePackets(c.packets) && f.consumed <= |r| {
      HandleWrites(w, c, (r + b)[f.consumed..]);
    }
  }

  /** A whole connection of an application that announces the sizes of its own packets: all it writes, in any run, are
      packets that do so. */
  method RunWriter(w: World, greeting: seq<byte>, prepareSend: Conn -> Sending<Conn>, doneSending: Conn -> bool,
                   inbound: seq<byte>, maxReads: nat, events: seq<S.Event>)
    returns (t: S.Transport<Conn, (Conn, bool)>)
    requires SendsSound(w, prepareSend, doneSending) && Small(w) && |greeting| < UINT32_LIMIT
    ensures t.Valid() && t.socket.inbound == inbound
    ensures ArePackets(t.state.packets)
    ensures t.socket.sent + t.writeBuf == Wire([MakePacket(HANDSHAKE, greeting, VERSION)] + t.state.packets)
  {
    SoundIsAside(w, prepareSend, doneSending);
    LayerShips(w, prepareSend, doneSending);
    SoundRefines(w, greeting, prepareSend, doneSending);
    FreshFeed(w, greeting);
    var g := MakePacket(HANDSHAKE, greeting, VERSION);
    FreshSound(w, greeting);
    hide Feed, Wire, OnWire, MakePacket, WellBehaved, Refines, SendsAside, Ships, AsLayer, ArePackets, SoundSpec;
    t := S.RunConnection(AsLayer(w, prepareSend, doneSending), SoundView(), SoundSpec(w, greeting), Written(),
                         Fresh(greeting), Exactly(HEADER_SIZE), OnWire(g), inbound, maxReads, events);
    GreetingFirst(g, t.state.packets);
    SpecIsSound(w, greeting, t.socket.Received());
  }

  lemma FreshSound(w: World, greeting: seq<byte>)
    ensures SoundSpec(w, greeting)([]) == Progress(SoundView()(Fresh(greeting)), 0, Exactly(HEADER_SIZE), false)
  {
    FreshFeed(w, greeting);
    hide Feed;
    var c := Fresh(greeting);
    assert Spec(w, greeting)([]) == Progress(Blind(c), 0, Exactly(HEADER_SIZE), false);
    assert SoundView()(c) == (Blind(c), true);
  }

  lemma SpecIsSound(w: World, greeting: seq<byte>, r: seq<byte>)
    ensures SoundSpec(w, greeting)(r).state.1
  {}

  lemma GreetingFirst(g: Packet, ps: seq<Packet>)
    ensures Wire([g] + ps) == OnWire(g) + Wire(ps)
  {
    var all := [g] + ps;
    assert all != [] && all[0] == g && all[1..] == ps;
  }

  /** One application writes, and another reads any part of what was sent, both in any run: the handlers of the reader
      see a prefix of the packets that were written, in order and each once, or nothing if it does not accept the
      greeting; and all of them once everything has been sent and read without an error. */
  method OneReadsTheOther(w: World, greeting: seq<byte>, prepareSend: Conn -> Sending<Conn>, doneSending: Conn -> bool,
                          inbound: seq<byte>, maxReads: nat, events: seq<S.Event>,
                          w2: World, greeting2: seq<byte>, prepareSend2: Conn -> Sending<Conn>,
                          doneSending2: Conn -> bool, taken: nat, maxReads2: nat, events2: seq<S.Event>)
    returns (t: S.Transport<Conn, (Conn, bool)>, u: S.Transport<Conn, Conn>)
    requires SendsSound(w, prepareSend, doneSending) && Small(w) && 0 < |greeting| < UINT32_LIMIT
    requires SendsPackets(w2, prepareSend2, doneSending2)
    ensures t.Valid() && u.Valid() && u.socket.inbound <= t.socket.sent
    ensures u.state.handled <= t.state.packets
    ensures !IsGreeting(w2, greeting) ==> u.state.handled == []
    ensures IsGreeting(w2, greeting) && !u.rejected && t.writeBuf == [] && u.socket.pos == |t.socket.sent| ==>
              u.state.handled == t.state.packets && u.state.node == w2.readGreeting(greeting).value.node
  {
    hide Feed, Wire, SendsSound, SendsPackets, Small, IsGreeting, ArePackets, Greeted, DispatchAll;
    t := RunWriter(w, greeting, prepareSend, doneSending, inbound, maxReads, events);
    var sent := t.socket.sent;
    u := RunLink(w2, greeting2, prepareSend2, doneSending2, if taken <= |sent| then sent[..taken] else sent, maxReads2,
                 events2);
    ghost var sender := Fresh(greeting).(packets := [MakePacket(HANDSHAKE, greeting, VERSION)] + t.state.packets);
    WrittenWell(sender, greeting, t.state.packets);
    PartOfTheOther(sender, greeting, w2, Fresh(greeting2), u.socket.Received());
    OneToTheOther(sender, greeting, w2, Fresh(greeting2));
    assert u.socket.pos == |sent| && t.writeBuf == [] ==> u.socket.Received() == Wire(sender.packets);
  }

  lemma WrittenWell(sender: Conn, greeting: seq<byte>, ps: seq<Packet>)
    requires sender.packets == [MakePacket(HANDSHAKE, greeting, VERSION)] + ps && ArePackets(ps)
    requires |greeting| < UINT32_LIMIT
    ensures WellWritten(sender, greeting) && sender.packets[1..] == ps
  {}
}
