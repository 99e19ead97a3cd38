/** From the sending layer through two transports to the receiving application. */
module WebSocketExchange {
  import opened Bytes
  import opened StreamLayer
  import opened WebSocketHandshake
  import opened WebSocketStack
  import opened WebSocketSessions
  import F = WebSocketFraming
  import O = Outbox
  import R = Rfc6455
  import S = StreamTransport
  import T = WebSocketTheorems

  /** The request and one frame for each message, as the client's framing layer writes them. */
  method WriteSession(c: Crypto, clientEnv: F.Env, hs: Handshake, ms: seq<F.Message>) returns (batches: seq<seq<byte>>)
    requires T.AllFit(clientEnv, 0, ms)
    ensures O.Flat(batches) == ToBytes(Request(c, hs)) + T.Wire(T.Sent(clientEnv, 0, ms))
  {
    var request := WriteRequest(c, hs, "");
    assert "" + Request(c, hs) == Request(c, hs);
    var writer := new R.FrameWriter([]);
    var framing := new F.Framing(clientEnv, writer);
    batches := [ToBytes(request)];
    hide Request, ToBytes, T.AllFit, T.Wire, T.Sent, F.Ship, R.Frame, O.Flat;
    ghost var start := framing.Sess();
    ghost var head := ToBytes(request);
    O.OneBatch(head);
    var k := 0;
    assert ms[0..] == ms;
    while k < |ms|
      invariant k <= |ms| && framing.env == clientEnv && framing.writer == writer && start == F.Session([], 0, [])
      invariant T.AllFit(clientEnv, framing.draws, ms[k..])
      invariant F.ShipAll(clientEnv, start, ms) == F.ShipAll(clientEnv, framing.Sess(), ms[k..])
      invariant O.Flat(batches) == head + writer.out
    {
      AllFitStep(clientEnv, framing.draws, ms[k..]);
      assert ms[k..][1..] == ms[k + 1..];
      ghost var before := writer.out;
      var written := |writer.out|;
      ShipGrows(clientEnv, framing.Sess(), F.Opcode(ms[k]), ms[k].payload);
      framing.ShipFrame(F.Opcode(ms[k]), ms[k].payload);
      var batch := writer.out[written..];
      AddedBatch(batches, batch, head, before, writer.out);
      batches := batches + [batch];
      k := k + 1;
    }
    T.SentWire(clientEnv, start, ms);
    assert [] + T.Wire(T.Sent(clientEnv, 0, ms)) == T.Wire(T.Sent(clientEnv, 0, ms));
  }

  lemma AddedBatch(batches: seq<seq<byte>>, batch: seq<byte>, head: seq<byte>, before: seq<byte>, after: seq<byte>)
    requires O.Flat(batches) == head + before && before <= after && batch == after[|before|..]
    ensures O.Flat(batches + [batch]) == head + after
  {
    O.FlatConcat(batches, [batch]);
    O.OneBatch(batch);
    hide O.Flat;
    assert batch + [] == batch;
    assert before + batch == after;
    Associative(head, before, batch);
  }

  lemma AllFitStep(env: F.Env, draws: nat, ms: seq<F.Message>)
    requires T.AllFit(env, draws, ms) && ms != []
    ensures |ms[0].payload| < UINT64_LIMIT && T.AllFit(env, F.NextDraw(env, draws), ms[1..])
  {}

  lemma ShipGrows(env: F.Env, s: F.Session, opcode: nibble, payload: seq<byte>)
    ensures s.out <= F.Ship(env, s, opcode, payload).out
    ensures F.Ship(env, s, opcode, payload).draws == F.NextDraw(env, s.draws)
  {}

  /** From the sending layer through two sockets to the receiving application: a client writes its request and its
      messages, its transport sends them as its socket allows, a server's transport reads whatever of it arrives in
      whatever chunks. At every point the server has delivered a prefix of exactly the client's messages, and all of
      them once everything has been sent and read. */
  method ClientToServer(c: Crypto, clientEnv: F.Env, env: F.Env, init: string -> bool, scribble: seq<byte> -> seq<byte>,
                        hs: Handshake, ms: seq<F.Message>, prepareSend: Phase -> Sending<Phase>,
                        doneSending: Phase -> bool, fromServer: seq<byte>, clientReads: nat, clientEvents: seq<S.Event>,
                        serverReads: nat, serverEvents: seq<S.Event>)
    returns (client: S.Transport<O.Outbox, seq<byte>>, server: S.Transport<Phase, Phase>)
    requires T.AllFit(clientEnv, 0, ms) && Serves(c, env, init, hs, T.Sent(clientEnv, 0, ms))
    requires SendsFrames(ServerEndpoint(c, env, init, scribble), prepareSend, doneSending)
    ensures client.Valid() && server.Valid() && server.socket.inbound == client.socket.sent && !server.rejected
    ensures server.state.Open? ==> server.state.framing.session.calls <= ms
    ensures O.Done(client) && server.socket.pos == |client.socket.sent| ==>
              server.state.Open? && server.state.framing.session.calls == ms
  {
    hide Serves, SendsFrames, T.AllFit, Request, T.Wire, T.Messages, T.Sent, ToBytes;
    T.SentMessages(clientEnv, 0, ms);
    var batches := WriteSession(c, clientEnv, hs, ms);
    client := O.RunSender(batches, fromServer, clientReads, clientEvents);
    var inbound := client.socket.sent;
    server := RunServer(c, env, init, scribble, hs, T.Sent(clientEnv, 0, ms), inbound, prepareSend, doneSending,
                        serverReads, serverEvents);
  }
}
