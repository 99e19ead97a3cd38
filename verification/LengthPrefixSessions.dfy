/** Length-prefixed connections on a stream transport, for every chunking and every order of events. */
module LengthPrefixSessions {
  import opened Bytes
  import opened StreamLayer
  import opened LengthPrefixFraming
  import O = Outbox
  import S = StreamTransport

  const START := State(DEFAULT_RECEIVE_SIZE, [])

  function Received(upper: Upper, r: seq<byte>): Parsed {
    Ideal(upper, START, r)
  }

  lemma NothingReceived(upper: Upper)
    ensures Spec(upper)([]) == Progress(START, 0, Between(4, DEFAULT_RECEIVE_SIZE), false)
  {}

  /** Any stream, any chunking and errors of the socket, any order of read and write events and anything sent in
      between: the messages delivered are a function of the bytes received alone; the read threshold of the transport
      is always the upper bound of the framing, within the limits of a 32-bit size, and there is always room to read
      on. */
  method RunConnection(upper: Upper, prepareSend: State -> Sending<State>, doneSending: State -> bool,
                       inbound: seq<byte>, maxReads: nat, events: seq<S.Event>)
    returns (t: S.Transport<State, State>)
    requires SendsAside(AsLayer(upper, prepareSend, doneSending), Id)
    ensures t.Valid() && t.socket.inbound == inbound && !t.overrun && !t.faulted
    ensures t.state == Received(upper, t.socket.Received()).state
    ensures t.rejected == Received(upper, t.socket.Received()).Aborted?
    ensures !t.rejected ==>
              && t.minReadSize == 4 && t.maxReadSize == t.state.bound <= INT32_MAX && t.offset < t.maxReadSize
              && t.eaten + t.readBuf[..t.offset] == t.socket.Received()
              && |t.eaten| == Received(upper, t.socket.Received()).consumed
    ensures t.socket.sent + t.writeBuf == t.appended
    ensures t.history == events
    ensures !t.rejected && !t.socket.recvs.failed && !S.Erring(events, |events|) ==> t.interest.polled.read
    ensures t.Consistent() && (t.Stranded() ==> t.readAborted) && (!t.readAborted ==> t.interest.polled.read)
    ensures !t.writeAborted && t.writeBuf != [] && !t.Stranded() ==> t.interest.polled.write
  {
    LayerRefinesSpec(upper, prepareSend, doneSending);
    var layer := AsLayer(upper, prepareSend, doneSending);
    var nothing := (s: State) => [];
    NothingReceived(upper);
    t := S.RunConnection(layer, Id, Spec(upper), nothing, START, Between(4, DEFAULT_RECEIVE_SIZE), [], inbound,
                         maxReads, events);
    IdealGrows(upper, START, t.socket.Received());
  }

  /** Whatever prefix of the messages' frames has arrived, a prefix of the messages has been delivered. */
  lemma PrefixDelivered(upper: Upper, msgs: seq<Message>, r: seq<byte>, b: seq<byte>)
    requires AllSendable(msgs) && AcceptsAll(upper) && r + b == Wire(msgs)
    ensures var p := Received(upper, r);
            && p.Parsed? && p.state.calls <= NonEmpty(msgs)
            && (b == [] ==> p.state.calls == NonEmpty(msgs) && p.consumed == |r|)
  {
    hide Ideal, Wire, NonEmpty, AllSendable, AcceptsAll;
    RoundTrip(upper, START, msgs);
    assert START.calls + NonEmpty(msgs) == NonEmpty(msgs);
    IdealSplit(upper, START, r, b);
    IdealGrows(upper, START, r);
    var p := Received(upper, r);
    if p.Parsed? {
      IdealGrows(upper, p.state, r[p.consumed..] + b);
    }
    assert b == [] ==> r + b == r;
  }

  /** A stream of messages accepted by `end_message`, with any frames of size 0 in between, or any part of it: at every
      point of every run exactly a prefix of the messages has been delivered, and all of them once everything has been
      read. */
  method RunMessages(upper: Upper, ghost msgs: seq<Message>, inbound: seq<byte>, prepareSend: State -> Sending<State>,
                     doneSending: State -> bool, maxReads: nat, events: seq<S.Event>)
    returns (t: S.Transport<State, State>)
    requires AllSendable(msgs) && AcceptsAll(upper) && inbound <= Wire(msgs)
    requires SendsAside(AsLayer(upper, prepareSend, doneSending), Id)
    ensures !t.socket.recvs.failed && !S.Erring(events, |events|) ==> t.interest.polled.read
    ensures t.Valid() && t.socket.inbound == inbound && !t.rejected && !t.overrun
    ensures t.state.calls <= NonEmpty(msgs)
    ensures t.socket.pos == |Wire(msgs)| ==> t.offset == 0 && t.state.calls == NonEmpty(msgs)
  {
    hide Wire, NonEmpty, AllSendable, AcceptsAll, AsLayer, Ideal;
    t := RunConnection(upper, prepareSend, doneSending, inbound, maxReads, events);
    ghost var r, b := inbound[..t.socket.pos], Wire(msgs)[t.socket.pos..];
    assert r + b == Wire(msgs);
    PrefixDelivered(upper, msgs, r, b);
  }

  /** The frames that the sending framing writes for messages it accepts, one batch for each. */
  method WriteMessages(upper: Upper, msgs: seq<seq<byte>>) returns (batches: seq<seq<byte>>)
    requires forall m :: m in msgs ==> Accepted(m)
    ensures O.Flat(batches) == Wire(AsMessages(msgs))
  {
    var framing := new Framing(upper);
    batches := [];
    assert msgs[0..] == msgs;
    hide Wire, O.Flat, Frame;
    NothingSent();
    var k := 0;
    while k < |msgs|
      invariant k <= |msgs|
      invariant O.Flat(batches) + Wire(AsMessages(msgs[k..])) == Wire(AsMessages(msgs))
    {
      assert msgs[k] in msgs;
      var before := |framing.out|;
      var ok := framing.Send(msgs[k]);
      var batch := framing.out[before..];
      assert batch == Frame(msgs[k]);
      WireStep(msgs[k..]);
      assert msgs[k..][1..] == msgs[k + 1..];
      O.FlatConcat(batches, [batch]);
      O.OneBatch(batch);
      Associative(O.Flat(batches), batch, Wire(AsMessages(msgs[k + 1..])));
      batches := batches + [batch];
      k := k + 1;
    }
    assert msgs[k..] == [];
    assert O.Flat(batches) + [] == O.Flat(batches);
  }

  function AsMessages(msgs: seq<seq<byte>>): seq<Message> {
    seq(|msgs|, i requires 0 <= i < |msgs| => Message(msgs[i]))
  }

  lemma NothingSent()
    ensures O.Flat([]) == [] && Wire(AsMessages([])) == []
    ensures forall w: seq<byte> :: [] + w == w
  {}

  lemma WireStep(msgs: seq<seq<byte>>)
    requires msgs != []
    ensures Wire(AsMessages(msgs)) == Frame(msgs[0]) + Wire(AsMessages(msgs[1..]))
  {
    assert AsMessages(msgs)[1..] == AsMessages(msgs[1..]);
  }

  lemma {:induction false} AcceptedIsSendable(msgs: seq<seq<byte>>)
    requires forall m :: m in msgs ==> Accepted(m)
    ensures AllSendable(AsMessages(msgs)) && NonEmpty(AsMessages(msgs)) == AsMessages(msgs)
  {
    if msgs != [] {
      assert msgs[0] in msgs;
      assert AsMessages(msgs)[1..] == AsMessages(msgs[1..]);
      AcceptedIsSendable(msgs[1..]);
      assert AsMessages(msgs) == [Message(msgs[0])] + AsMessages(msgs[1..]);
    }
  }

  /** Sender, two transports and receiver together: at every point the receiver has delivered a prefix of exactly the
      messages that were sent, and all of them once everything has been sent and read. */
  method SendAndReceive(upper: Upper, msgs: seq<seq<byte>>, prepareSend: State -> Sending<State>,
                        doneSending: State -> bool, toSender: seq<byte>, senderReads: nat, senderEvents: seq<S.Event>,
                        maxReads: nat, events: seq<S.Event>)
    returns (sender: S.Transport<O.Outbox, seq<byte>>, receiver: S.Transport<State, State>)
    requires (forall m :: m in msgs ==> Accepted(m)) && AcceptsAll(upper)
    requires SendsAside(AsLayer(upper, prepareSend, doneSending), Id)
    ensures sender.Valid() && receiver.Valid() && receiver.socket.inbound == sender.socket.sent && !receiver.rejected
    ensures receiver.state.calls <= AsMessages(msgs)
    ensures O.Done(sender) && receiver.socket.pos == |sender.socket.sent| ==>
              receiver.state.calls == AsMessages(msgs)
  {
    hide AsLayer, AcceptsAll, Wire, NonEmpty, AllSendable, AsMessages, Accepted;
    AcceptedIsSendable(msgs);
    var batches := WriteMessages(upper, msgs);
    sender := O.RunSender(batches, toSender, senderReads, senderEvents);
    var inbound := sender.socket.sent;
    receiver := RunMessages(upper, AsMessages(msgs), inbound, prepareSend, doneSending, maxReads, events);
  }
}
