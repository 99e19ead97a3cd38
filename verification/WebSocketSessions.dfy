/** Whole WebSocket connections: handshake and messages, for every chunking and every order of events. */
module WebSocketSessions {
  import opened Bytes
  import opened StreamLayer
  import opened HttpText
  import opened WebSocketHandshake
  import opened WebSocketHandshakeTheorems
  import opened WebSocketStack
  import F = WebSocketFraming
  import T = WebSocketTheorems
  import A = WebSocketAnswers
  import S = StreamTransport

  /** The server: a valid request opens the connection if the upper layer can be initialized with it. */
  function ServerEndpoint(c: Crypto, env: F.Env, init: string -> bool, scribble: seq<byte> -> seq<byte>): Endpoint {
    Endpoint(env,
             header => match HandleRequest(c, header)
                       case Refused => Opening(false, [])
                       case Accepted(_, _, _, _, key) => Opening(init(header), ToBytes(Response(c, key))),
             scribble)
  }

  /** The client that has sent a request with `key`. */
  function ClientEndpoint(c: Crypto, key: seq<byte>, env: F.Env, init: string -> bool,
      scribble: seq<byte> -> seq<byte>): Endpoint {
    Endpoint(env, header => Opening(IsValidResponse(c, key, header) && init(header), []), scribble)
  }

  /** A header in front of the stream is found and decided on as a whole. */
  lemma HeaderDecided(e: Endpoint, lines: seq<string>, rest: seq<byte>)
    requires lines != [] && AreLines(lines)
    requires var h := Header(lines); |h| <= MAX_HTTP_SIZE && IsByteText(h) && e.onHeader(h).accepted
    ensures var h := Header(lines);
            && |ToBytes(h)| == |h|
            && Decide(e, Chars(First2048(ToBytes(h) + rest))) == Accept(h, |h|, e.onHeader(h).output)
  {
    var h := Header(lines);
    var text := Chars(First2048(ToBytes(h) + rest));
    CharsOfBytes(h);
    assert text == h + text[|h|..];
    HeaderEnds(lines, text[|h|..]);
    assert text[..|h|] == h;
  }

  /** Behind a header that is accepted, everything is parsed as frames. */
  lemma OpenedFrames(e: Endpoint, lines: seq<string>, rest: seq<byte>)
    requires lines != [] && AreLines(lines)
    requires var h := Header(lines); |h| <= MAX_HTTP_SIZE && IsByteText(h) && e.onHeader(h).accepted
    ensures var h := Header(lines);
            Progressed(e, ToBytes(h) + rest) == Framed(h, F.Parse(e.env, FRESH, rest), |h|)
  {
    var h := Header(lines);
    HeaderDecided(e, lines, rest);
    hide Decide, F.Parse, Header, ToBytes;
    assert (ToBytes(h) + rest)[|h|..] == rest;
  }

  /** A header the endpoint accepts, followed by any mix of whole and fragmented messages, pings and pongs: the upper
      layer receives exactly the messages, in order and each once, and everything is consumed. */
  lemma OpenedDelivers(e: Endpoint, lines: seq<string>, items: seq<T.Item>)
    requires lines != [] && AreLines(lines) && T.AllSendable(items) && T.AcceptsAll(e.env)
    requires var h := Header(lines); |h| <= MAX_HTTP_SIZE && IsByteText(h) && e.onHeader(h).accepted
    ensures var wire := ToBytes(Header(lines)) + T.Wire(items);
            var p := Progressed(e, wire);
            && p.state.Open? && p == Progress(Open(Header(lines), p.state.framing), |wire|, UpTo(2048), false)
            && p.state.framing.session.calls == T.Messages(items)
            && p.state.framing == F.Idle(p.state.framing.session)
  {
    var h, frames := Header(lines), T.Wire(items);
    HeaderDecided(e, lines, frames);
    OpenedFrames(e, lines, frames);
    T.Delivery(e.env, F.Session([], 0, []), items);
    assert [] + T.Messages(items) == T.Messages(items);
    hide F.Parse, T.Wire, T.Messages, Progressed, Header, ToBytes, Decide;
  }

  /** The same header and items, whether or not the upper layer accepts every message: what is written behind the answer
      to the header are the answers to the items that are taken. */
  lemma OpenedAnswers(e: Endpoint, lines: seq<string>, items: seq<T.Item>)
    requires lines != [] && AreLines(lines) && T.AllSendable(items)
    requires var h := Header(lines); |h| <= MAX_HTTP_SIZE && IsByteText(h) && e.onHeader(h).accepted
    ensures var h := Header(lines);
            var p := Progressed(e, ToBytes(h) + T.Wire(items));
            && p.failed == A.Refused(e.env, [], items)
            && Written(e, p.state) ==
               e.onHeader(h).output + T.Wire(A.Answers(e.env, [], 0, A.Taken(e.env, [], items)))
            && (!p.failed ==> A.Taken(e.env, [], items) == items)
  {
    var h, frames := Header(lines), T.Wire(items);
    OpenedFrames(e, lines, frames);
    A.AnswersExactly(e.env, F.Session([], 0, []), items);
    FramedWrites(e, h, F.Parse(e.env, FRESH, frames), |h|);
    hide *;
    Neutral(T.Wire(A.Answers(e.env, [], 0, A.Taken(e.env, [], items))));
  }

  lemma FramedWrites(e: Endpoint, header: string, p: F.Parsed, size: nat)
    ensures var q := Framed(header, p, size);
            q.failed == p.Aborted? && Written(e, q.state) == e.onHeader(header).output + p.state.session.out
  {}

  lemma Neutral(s: seq<byte>)
    ensures [] + s == s
  {}

  /** A request of the client, and messages, that the server can take. */
  ghost predicate Serves(c: Crypto, env: F.Env, init: string -> bool, hs: Handshake, items: seq<T.Item>) {
    && Base64Laws(c) && Sound(hs)
    && |Request(c, hs)| <= MAX_HTTP_SIZE && IsByteText(Request(c, hs)) && init(Request(c, hs))
    && T.AllSendable(items) && T.AcceptsAll(env)
  }

  /** The server's side: it also recovers the request as the client meant it and answers for the client's key. */
  lemma ServerSession(c: Crypto, env: F.Env, init: string -> bool, scribble: seq<byte> -> seq<byte>, hs: Handshake,
                      items: seq<T.Item>)
    requires Serves(c, env, init, hs, items)
    ensures var e := ServerEndpoint(c, env, init, scribble);
            var wire := ToBytes(Request(c, hs)) + T.Wire(items);
            var p := Progressed(e, wire);
            && !p.failed && p.consumed == |wire| && p.state.Open?
            && p.state.framing.session.calls == T.Messages(items)
            && HandleRequest(c, p.state.header) ==
               Accepted("GET", Lookup(hs.fields, "_endpoint"), "HTTP/1.1", Store(map[], AllFields(c, hs)), hs.key)
            && e.onHeader(p.state.header).output == ToBytes(Response(c, hs.key))
  {
    RequestRecovered(c, hs);
    RequestIsHeader(c, hs);
    var e := ServerEndpoint(c, env, init, scribble);
    assert e.onHeader(Request(c, hs)) == Opening(true, ToBytes(Response(c, hs.key)));
    hide HandleRequest, Response, RequestLines, Progressed, Sound, AllClean, FieldLines;
    OpenedDelivers(e, RequestLines(c, hs), items);
  }

  /** An answer of the server for the client's key, and messages, that the client can take. */
  ghost predicate Welcomes(c: Crypto, key: seq<byte>, env: F.Env, init: string -> bool, items: seq<T.Item>) {
    && Base64Laws(c) && |Response(c, key)| <= MAX_HTTP_SIZE && IsByteText(Response(c, key)) && init(Response(c, key))
    && T.AllSendable(items) && T.AcceptsAll(env)
  }

  /** The client's side: the server's answer for its key opens the connection. */
  lemma ClientSession(c: Crypto, key: seq<byte>, env: F.Env, init: string -> bool, scribble: seq<byte> -> seq<byte>,
                      items: seq<T.Item>)
    requires Welcomes(c, key, env, init, items)
    ensures var e := ClientEndpoint(c, key, env, init, scribble);
            var wire := ToBytes(Response(c, key)) + T.Wire(items);
            var p := Progressed(e, wire);
            && !p.failed && p.consumed == |wire| && p.state.Open?
            && p.state.framing.session.calls == T.Messages(items)
  {
    ResponseAccepted(c, key, key);
    ResponseIsHeader(c, key);
    var e := ClientEndpoint(c, key, env, init, scribble);
    assert e.onHeader(Response(c, key)).accepted;
    hide IsValidResponse, ResponseFields, FieldLines, AllClean, Progressed;
    OpenedDelivers(e, [STATUS_LINE] + FieldLines(ResponseFields(ResponseKey(c, key))), items);
  }

  /** What has been delivered is never taken back, and a rejection is final: at every point of a connection the calls
      made so far are a prefix of the calls for the whole stream. */
  lemma ProgressGrows(e: Endpoint, r: seq<byte>, b: seq<byte>)
    requires Progressed(e, r).state.Open?
    ensures var p, q := Progressed(e, r), Progressed(e, r + b);
            && q.state.Open? && q.state.header == p.state.header
            && p.state.framing.session.calls <= q.state.framing.session.calls
            && p.state.framing.session.out <= q.state.framing.session.out
            && (p.failed ==> q == p)
  {
    var header, size := OpenExtends(e, r, b);
    hide Progressed;
    var p := F.Parse(e.env, FRESH, r[size..]);
    T.ParseKeeps(e.env, FRESH, r[size..]);
    T.ParseSplit(e.env, FRESH, r[size..], b);
    if p.Parsed? {
      T.ParseKeeps(e.env, p.state, r[size..][p.consumed..] + b);
    }
    hide F.Parse;
  }

  /** Between two events an endpoint may only ship frames: nothing received is touched, and all output is recorded. */
  ghost predicate SendsFrames(e: Endpoint, prepareSend: Phase -> Sending<Phase>, doneSending: Phase -> bool) {
    && SendsAside(AsLayer(e, prepareSend, doneSending), View(true))
    && forall s :: SendShips(AsLayer(e, prepareSend, doneSending), Output(e), s)
  }

  /** A connection: any stream from the peer, any chunking and errors of the socket, any order of read and write
      events and anything the endpoint sends in between. What it has received is a function of the bytes received
      alone, and all it has written is what `init` wrote, the answer to the header and the frames shipped. */
  method RunEndpoint(e: Endpoint, prepareSend: Phase -> Sending<Phase>, doneSending: Phase -> bool, opening: seq<byte>,
                     inbound: seq<byte>, maxReads: nat, events: seq<S.Event>)
    returns (t: S.Transport<Phase, Phase>)
    requires SendsFrames(e, prepareSend, doneSending)
    ensures t.Valid() && t.socket.inbound == inbound && !t.overrun && !t.faulted
    ensures var p := Progressed(e, t.socket.Received());
            && Shown(true, t.state) == Shown(true, p.state)
            && t.rejected == p.failed
            && (!p.failed ==> |t.eaten| == p.consumed && t.eaten + t.readBuf[..t.offset] == t.socket.Received())
    ensures t.socket.sent + t.writeBuf == t.appended == opening + Written(e, t.state)
    ensures t.history == events
    ensures !t.rejected && !t.socket.recvs.failed && !S.Erring(events, |events|) ==> t.interest.polled.read
    ensures t.Consistent() && (t.Stranded() ==> t.readAborted) && (!t.readAborted ==> t.interest.polled.read)
    ensures !t.writeAborted && t.writeBuf != [] && !t.Stranded() ==> t.interest.polled.write
    ensures S.NeverDone(AsLayer(e, prepareSend, doneSending)) && (opening != [] || S.Woken(events, |events|)) ==>
              t.writeAborted || t.interest.polled.write
  {
    LayerWellBehaved(e, prepareSend, doneSending);
    LayerRefinesSpec(e, true, prepareSend, doneSending);
    EndpointShips(e, prepareSend, doneSending);
    var layer := AsLayer(e, prepareSend, doneSending);
    hide Ships, Refines, SendsAside, WellBehaved, Progressed, Written, AsLayer, SendShips, S.NeverDone;
    NothingReceived(e);
    t := S.RunConnection(layer, View(true), Spec(e, true), Output(e), Awaiting, UpTo(MAX_HTTP_SIZE), opening, inbound,
                         maxReads, events);
  }

  function Silence(): Phase -> Sending<Phase> {
    (s: Phase) => Sending(s, [], false, true)
  }

  lemma SilenceSendsFrames(e: Endpoint, blind: bool, doneSending: Phase -> bool)
    ensures SendsAside(AsLayer(e, Silence(), doneSending), View(blind))
    ensures forall s :: SendShips(AsLayer(e, Silence(), doneSending), Output(e), s)
  {
    forall s ensures SendShips(AsLayer(e, Silence(), doneSending), Output(e), s) {
      assert Written(e, s) + [] == Written(e, s);
    }
  }

  /** An endpoint that only answers: its whole state, and all it has written, is a function of the bytes received. So
      two splittings of the same stream lead to the same calls, the same pongs and replies under the same random keys,
      and the same verdict. */
  method RunAnswering(e: Endpoint, doneSending: Phase -> bool, opening: seq<byte>, inbound: seq<byte>, maxReads: nat,
                      events: seq<S.Event>)
    returns (t: S.Transport<Phase, Phase>)
    ensures t.Valid() && t.socket.inbound == inbound && !t.overrun && !t.faulted
    ensures var p := Progressed(e, t.socket.Received());
            t.state == p.state && t.rejected == p.failed && t.socket.sent + t.writeBuf == opening + Written(e, p.state)
  {
    LayerWellBehaved(e, Silence(), doneSending);
    LayerRefinesSpec(e, false, Silence(), doneSending);
    SilenceSendsFrames(e, false, doneSending);
    EndpointShips(e, Silence(), doneSending);
    var layer := AsLayer(e, Silence(), doneSending);
    hide Ships, Refines, SendsAside, WellBehaved, Progressed, Written, AsLayer, SendShips;
    NothingReceived(e);
    t := S.RunConnection(layer, View(false), Spec(e, false), Output(e), Awaiting, UpTo(MAX_HTTP_SIZE), opening,
                         inbound, maxReads, events);
  }

  /** An endpoint that has written nothing and does not accept the header on its stream, over every run without a
      wake-up by another thread: nothing is ever sent. Once the header has been rejected, the answer stays in the
      output buffer, and the manager is stranded with it. */
  method RunRejected(e: Endpoint, prepareSend: Phase -> Sending<Phase>, doneSending: Phase -> bool, inbound: seq<byte>,
                     maxReads: nat, events: seq<S.Event>)
    returns (t: S.Transport<Phase, Phase>)
    requires SendsFrames(e, prepareSend, doneSending)
    requires !Decide(e, Chars(First2048(inbound))).Accept?
    requires forall event :: event in events ==> event.Poll?
    ensures t.Valid() && t.socket.inbound == inbound && t.socket.sent == []
    ensures t.rejected == Decide(e, Chars(First2048(t.socket.Received()))).Reject?
    ensures if t.rejected then Decide(e, Chars(First2048(inbound))) == Reject(t.writeBuf) else t.writeBuf == []
    ensures t.writeBuf != [] ==> t.Stranded()
  {
    var layer := AsLayer(e, prepareSend, doneSending);
    RejectingLayer(e, prepareSend, doneSending, inbound);
    hide Ships, Refines, WellBehaved, Progressed, Decide, AsLayer, Spec, View, Output, Waits, Written,
         S.NeverBare, NotOpened;
    t := S.RunUnsentConnection(layer, View(true), Spec(e, true), Output(e), Awaiting, UpTo(MAX_HTTP_SIZE), inbound,
                               maxReads, events, Waits());
    assert t.socket.Received() == inbound[..t.socket.pos];
    assert NotOpened(e, inbound, t.socket.pos);
    AtRejection(e, inbound, t.socket.pos, t.state, t.rejected);
  }

  function Waits(): Phase -> bool {
    (s: Phase) => s.Awaiting?
  }

  /** What the transport relies on. */
  lemma RejectingLayer(e: Endpoint, prepareSend: Phase -> Sending<Phase>, doneSending: Phase -> bool,
                       inbound: seq<byte>)
    requires SendsFrames(e, prepareSend, doneSending) && !Decide(e, Chars(First2048(inbound))).Accept?
    ensures var layer := AsLayer(e, prepareSend, doneSending);
            && WellBehaved(layer) && Refines(layer, View(true), Spec(e, true))
            && Ships(layer, Output(e)) && S.NeverBare(layer)
    ensures Output(e)(Awaiting) == []
    ensures Spec(e, true)([]) == Progress(View(true)(Awaiting), 0, UpTo(MAX_HTTP_SIZE), false)
    ensures forall s :: Waits()(View(true)(s)) ==> Output(e)(s) == []
    ensures forall k: nat :: k <= |inbound| ==> NotOpened(e, inbound, k)
    ensures forall k: nat :: k <= |inbound| && !Spec(e, true)(inbound[..k]).failed ==>
              Waits()(Spec(e, true)(inbound[..k]).state)
  {
    LayerWellBehaved(e, prepareSend, doneSending);
    LayerRefinesSpec(e, true, prepareSend, doneSending);
    EndpointShips(e, prepareSend, doneSending);
    NothingReceived(e);
    LayerNeverBare(e, prepareSend, doneSending);
    NeverOpens(e, inbound);
    hide Ships, Refines, WellBehaved, Progressed, Decide, AsLayer, S.NeverBare, NotOpened;
  }

  lemma AtRejection(e: Endpoint, inbound: seq<byte>, k: nat, st: Phase, rejected: bool)
    requires k <= |inbound| && NotOpened(e, inbound, k)
    requires View(true)(st) == Spec(e, true)(inbound[..k]).state && rejected == Spec(e, true)(inbound[..k]).failed
    ensures rejected == Decide(e, Chars(First2048(inbound[..k]))).Reject?
    ensures if rejected then Decide(e, Chars(First2048(inbound))) == Reject(Output(e)(st)) else Output(e)(st) == []
  {
    hide Progressed, Decide;
  }

  lemma LayerNeverBare(e: Endpoint, prepareSend: Phase -> Sending<Phase>, doneSending: Phase -> bool)
    ensures S.NeverBare(AsLayer(e, prepareSend, doneSending))
  {
    hide Decide, F.Parse, Leftover, NewOutput;
  }

  /** After the first `k` bytes the endpoint waits, or has rejected the header with the answer for the whole stream. */
  predicate NotOpened(e: Endpoint, inbound: seq<byte>, k: nat)
    requires k <= |inbound|
  {
    var d := Decide(e, Chars(First2048(inbound[..k])));
    && Progressed(e, inbound[..k]).failed == d.Reject?
    && match Progressed(e, inbound[..k]).state
       case Awaiting => d.Wait?
       case Closed(output) => d.Reject? && Decide(e, Chars(First2048(inbound))) == d && output == d.output
       case Open(_, _) => false
  }

  lemma NeverOpens(e: Endpoint, inbound: seq<byte>)
    requires !Decide(e, Chars(First2048(inbound))).Accept?
    ensures forall k: nat :: k <= |inbound| ==> NotOpened(e, inbound, k)
    ensures forall k: nat :: k <= |inbound| && !Spec(e, true)(inbound[..k]).failed ==>
              Spec(e, true)(inbound[..k]).state.Awaiting?
  {
    hide NotOpened, Decide, Spec;
    forall k: nat | k <= |inbound| ensures NotOpened(e, inbound, k) {
      NotOpenedAt(e, inbound, k);
    }
    forall k: nat | k <= |inbound| && !Spec(e, true)(inbound[..k]).failed
      ensures Spec(e, true)(inbound[..k]).state.Awaiting?
    {
      WaitsAt(e, inbound, k);
    }
  }

  lemma NotOpenedAt(e: Endpoint, inbound: seq<byte>, k: nat)
    requires k <= |inbound| && !Decide(e, Chars(First2048(inbound))).Accept?
    ensures NotOpened(e, inbound, k)
  {
    hide Decide, Chars, First2048, Framed;
    var r := inbound[..k];
    if !Decide(e, Chars(First2048(r))).Wait? {
      assert r + inbound[k..] == inbound;
      DecisionStable(e, r, inbound[k..]);
    }
  }

  lemma WaitsAt(e: Endpoint, inbound: seq<byte>, k: nat)
    requires k <= |inbound| && !Decide(e, Chars(First2048(inbound))).Accept? && !Spec(e, true)(inbound[..k]).failed
    ensures Spec(e, true)(inbound[..k]).state.Awaiting?
  {
    NotOpenedAt(e, inbound, k);
    hide Progressed, Decide;
  }

  /** A server whose client sends 2048 bytes without the end of a header: it rejects them exactly when it has read 2048
      bytes, and the answer 431 does not leave its buffer. */
  method RunTooLarge(c: Crypto, env: F.Env, init: string -> bool, scribble: seq<byte> -> seq<byte>,
                     prepareSend: Phase -> Sending<Phase>, doneSending: Phase -> bool, inbound: seq<byte>,
                     maxReads: nat, events: seq<S.Event>)
    returns (t: S.Transport<Phase, Phase>)
    requires SendsFrames(ServerEndpoint(c, env, init, scribble), prepareSend, doneSending)
    requires |inbound| >= MAX_HTTP_SIZE && Find(Chars(inbound[..MAX_HTTP_SIZE]), END_OF_HEADER).None?
    requires forall event :: event in events ==> event.Poll?
    ensures t.Valid() && t.socket.inbound == inbound && t.socket.sent == []
    ensures t.rejected == (t.socket.pos >= MAX_HTTP_SIZE)
    ensures t.rejected ==> t.writeBuf == ToBytes(HEADER_TOO_LARGE) && t.Stranded()
  {
    var e := ServerEndpoint(c, env, init, scribble);
    hide SendsFrames, ServerEndpoint, ToBytes;
    HeaderTooLarge(e, inbound, MAX_HTTP_SIZE);
    HeaderTooLarge(e, inbound, |inbound|);
    assert inbound[..|inbound|] == inbound;
    t := RunRejected(e, prepareSend, doneSending, inbound, maxReads, events);
    assert t.socket.Received() == inbound[..t.socket.pos];
    HeaderTooLarge(e, inbound, t.socket.pos);
    LongAnswer();
    hide Decide, Find;
  }

  lemma LongAnswer()
    ensures ToBytes(HEADER_TOO_LARGE) != []
  {
    assert |ToBytes(HEADER_TOO_LARGE)| == |HEADER_TOO_LARGE|;
  }

  /** The other side: an endpoint that has been woken by another thread first, and is not done sending, is polled for
      output until writing fails; so whatever it writes, be it the answer to a header it rejects, is not stranded. */
  method RunWoken(e: Endpoint, prepareSend: Phase -> Sending<Phase>, doneSending: Phase -> bool, inbound: seq<byte>,
                  maxReads: nat, events: seq<S.Event>)
    returns (t: S.Transport<Phase, Phase>)
    requires SendsFrames(e, prepareSend, doneSending) && S.NeverDone(AsLayer(e, prepareSend, doneSending))
    ensures t.Valid() && t.socket.inbound == inbound
    ensures t.rejected == Progressed(e, t.socket.Received()).failed
    ensures t.socket.sent + t.writeBuf == Written(e, t.state)
    ensures t.writeAborted || (t.interest.polled.write && !t.Stranded())
  {
    hide SendsFrames, Progressed, Written, AsLayer, S.NeverDone;
    t := RunEndpoint(e, prepareSend, doneSending, [], inbound, maxReads, [S.Wake] + events);
    assert [] + Written(e, t.state) == Written(e, t.state);
  }

  /** Of 2048 bytes without the end of a header, fewer are waited for, and more are rejected with 431. */
  lemma HeaderTooLarge(e: Endpoint, inbound: seq<byte>, k: nat)
    requires MAX_HTTP_SIZE <= |inbound| && k <= |inbound|
    requires Find(Chars(inbound[..MAX_HTTP_SIZE]), END_OF_HEADER).None?
    ensures Decide(e, Chars(First2048(inbound[..k]))) ==
            if k < MAX_HTTP_SIZE then Wait else Reject(ToBytes(HEADER_TOO_LARGE))
  {
    hide ToBytes;
    var whole := Chars(inbound[..MAX_HTTP_SIZE]);
    if k < MAX_HTTP_SIZE {
      var text, rest := Chars(inbound[..k]), Chars(inbound[k..MAX_HTTP_SIZE]);
      assert text + rest == whole;
      if Find(text, END_OF_HEADER).Some? {
        FindStable(text, rest, END_OF_HEADER);
      }
    } else {
      assert First2048(inbound[..k]) == inbound[..MAX_HTTP_SIZE];
    }
    hide Find;
  }

  lemma NothingReceived(e: Endpoint)
    ensures Progressed(e, []) == Progress(Awaiting, 0, UpTo(MAX_HTTP_SIZE), false)
  {
    assert Chars(First2048([])) == "";
  }

  lemma RejectionIsFinal(e: Endpoint, r: seq<byte>, b: seq<byte>)
    requires Progressed(e, r).failed
    ensures Progressed(e, r + b).failed
  {
    if Progressed(e, r).state.Open? {
      ProgressGrows(e, r, b);
    } else {
      DecisionStable(e, r, b);
      hide Decide, F.Parse;
    }
  }

  /** Every prefix `r` of a session's stream has delivered a prefix of the session's messages. */
  lemma PrefixDelivers(e: Endpoint, messages: seq<F.Message>, wire: seq<byte>, r: seq<byte>, b: seq<byte>)
    requires r + b == wire
    requires var p := Progressed(e, wire);
             !p.failed && p.consumed == |wire| && p.state.Open? && p.state.framing.session.calls == messages
    ensures var p := Progressed(e, r);
            && !p.failed
            && (p.state.Open? ==> p.state.framing.session.calls <= messages)
            && (b == [] ==> p.state.Open? && p.consumed == |r| && p.state.framing.session.calls == messages)
  {
    hide Progressed;
    if Progressed(e, r).failed {
      RejectionIsFinal(e, r, b);
    }
    if Progressed(e, r).state.Open? {
      ProgressGrows(e, r, b);
    }
    assert b == [] ==> r + b == r;
  }

  /** Any part of a stream, from its beginning. */
  predicate IsPartOf(part: seq<byte>, whole: seq<byte>) {
    part <= whole
  }

  /** An endpoint that is sent a stream of which it should deliver `messages`, or any part of it. */
  method RunSession(e: Endpoint, ghost messages: seq<F.Message>, ghost wire: seq<byte>, opening: seq<byte>,
                    inbound: seq<byte>, prepareSend: Phase -> Sending<Phase>, doneSending: Phase -> bool, maxReads: nat,
                    events: seq<S.Event>)
    returns (t: S.Transport<Phase, Phase>)
    requires IsPartOf(inbound, wire) && SendsFrames(e, prepareSend, doneSending)
    requires var p := Progressed(e, wire);
             !p.failed && p.consumed == |wire| && p.state.Open? && p.state.framing.session.calls == messages
    ensures !t.socket.recvs.failed && !S.Erring(events, |events|) ==> t.interest.polled.read
    ensures t.Valid() && t.socket.inbound == inbound && !t.rejected && !t.overrun
    ensures t.socket.sent + t.writeBuf == opening + Written(e, t.state)
    ensures t.state.Open? ==> t.state.framing.session.calls <= messages
    ensures t.socket.pos == |wire| ==> t.offset == 0 && t.state.Open? && t.state.framing.session.calls == messages
  {
    hide Progressed, AsLayer, View, SendsFrames, Written;
    t := RunEndpoint(e, prepareSend, doneSending, opening, inbound, maxReads, events);
    ghost var r, b := inbound[..t.socket.pos], wire[t.socket.pos..];
    assert r + b == wire;
    PrefixDelivers(e, messages, wire, r, b);
  }

  /** A server that is sent a client's request and then messages of any kind: at every point of every run it has
      delivered a prefix of exactly these messages, nothing has been rejected, and once all bytes have been read it has
      delivered all of them and its buffer is empty. */
  method RunServer(c: Crypto, env: F.Env, init: string -> bool, scribble: seq<byte> -> seq<byte>, hs: Handshake,
                   ghost items: seq<T.Item>, inbound: seq<byte>, prepareSend: Phase -> Sending<Phase>,
                   doneSending: Phase -> bool, maxReads: nat, events: seq<S.Event>)
    returns (t: S.Transport<Phase, Phase>)
    requires Serves(c, env, init, hs, items)
    requires IsPartOf(inbound, ToBytes(Request(c, hs)) + T.Wire(items))
    requires SendsFrames(ServerEndpoint(c, env, init, scribble), prepareSend, doneSending)
    ensures !t.socket.recvs.failed && !S.Erring(events, |events|) ==> t.interest.polled.read
    ensures t.Valid() && t.socket.inbound == inbound && !t.rejected && !t.overrun
    ensures t.socket.sent + t.writeBuf == Written(ServerEndpoint(c, env, init, scribble), t.state)
    ensures t.state.Open? ==> t.state.framing.session.calls <= T.Messages(items)
    ensures t.socket.pos == |ToBytes(Request(c, hs)) + T.Wire(items)| ==>
              t.offset == 0 && t.state.Open? && t.state.framing.session.calls == T.Messages(items)
  {
    hide Progressed, Serves, Request, T.Wire, T.Messages, ToBytes, SendsFrames, IsPartOf, HandleRequest, Written;
    var e := ServerEndpoint(c, env, init, scribble);
    ServerSession(c, env, init, scribble, hs, items);
    t := RunSession(e, T.Messages(items), ToBytes(Request(c, hs)) + T.Wire(items), [], inbound, prepareSend,
                    doneSending, maxReads, events);
    assert [] + Written(e, t.state) == Written(e, t.state);
  }

  /** A server that only answers, on the same stream: what it has written is at every point a prefix of the response to
      the client's key, one pong for each ping and the replies to each message, and all of it once all bytes have been
      read. */
  method RunAnsweringServer(c: Crypto, env: F.Env, init: string -> bool, scribble: seq<byte> -> seq<byte>,
                            hs: Handshake, ghost items: seq<T.Item>, inbound: seq<byte>, doneSending: Phase -> bool,
                            maxReads: nat, events: seq<S.Event>)
    returns (t: S.Transport<Phase, Phase>)
    requires Serves(c, env, init, hs, items)
    requires IsPartOf(inbound, ToBytes(Request(c, hs)) + T.Wire(items))
    ensures t.Valid() && t.socket.inbound == inbound && !t.rejected
    ensures var output := ToBytes(Response(c, hs.key)) + T.Wire(A.Answers(env, [], 0, items));
            && t.socket.sent + t.writeBuf <= output
            && (t.socket.pos == |ToBytes(Request(c, hs)) + T.Wire(items)| ==> t.socket.sent + t.writeBuf == output)
  {
    hide Progressed, Serves, Request, T.Wire, T.Messages, ToBytes, IsPartOf, HandleRequest, Written, A.Answers;
    var e := ServerEndpoint(c, env, init, scribble);
    ServerSession(c, env, init, scribble, hs, items);
    ServerAnswers(c, env, init, scribble, hs, items);
    t := RunAnswering(e, doneSending, [], inbound, maxReads, events);
    ghost var wire := ToBytes(Request(c, hs)) + T.Wire(items);
    PartWritten(e, T.Messages(items), wire, inbound, t.socket.pos);
    assert t.socket.Received() == inbound[..t.socket.pos];
    assert [] + Written(e, t.state) == Written(e, t.state);
  }

  lemma PartWritten(e: Endpoint, messages: seq<F.Message>, wire: seq<byte>, inbound: seq<byte>, k: nat)
    requires IsPartOf(inbound, wire) && k <= |inbound|
    requires var p := Progressed(e, wire);
             !p.failed && p.consumed == |wire| && p.state.Open? && p.state.framing.session.calls == messages
    ensures var p, q := Progressed(e, inbound[..k]), Progressed(e, wire);
            !p.failed && Written(e, p.state) <= Written(e, q.state) && (k == |wire| ==> p == q)
  {
    hide Progressed, Written;
    var r, b := inbound[..k], wire[k..];
    assert r + b == wire;
    PrefixWritten(e, wire, r, b);
    PrefixDelivers(e, messages, wire, r, b);
    assert b == [] ==> r == wire;
  }

  lemma ServerAnswers(c: Crypto, env: F.Env, init: string -> bool, scribble: seq<byte> -> seq<byte>, hs: Handshake,
                      items: seq<T.Item>)
    requires Serves(c, env, init, hs, items)
    ensures var e := ServerEndpoint(c, env, init, scribble);
            Written(e, Progressed(e, ToBytes(Request(c, hs)) + T.Wire(items)).state) ==
            ToBytes(Response(c, hs.key)) + T.Wire(A.Answers(env, [], 0, items))
  {
    RequestRecovered(c, hs);
    RequestIsHeader(c, hs);
    var e := ServerEndpoint(c, env, init, scribble);
    assert e.onHeader(Request(c, hs)) == Opening(true, ToBytes(Response(c, hs.key)));
    hide HandleRequest, Response, RequestLines, Progressed, Sound, AllClean, FieldLines, Written, A.Answers, A.Taken,
         A.Refused;
    OpenedAnswers(e, RequestLines(c, hs), items);
    A.AllTaken(env, [], items);
  }

  /** What has been written for a prefix of a stream that is not rejected is a prefix of what is written for all of
      it. */
  lemma PrefixWritten(e: Endpoint, wire: seq<byte>, r: seq<byte>, b: seq<byte>)
    requires r + b == wire && !Progressed(e, wire).failed
    ensures Written(e, Progressed(e, r).state) <= Written(e, Progressed(e, wire).state)
  {
    if Progressed(e, r).failed {
      RejectionIsFinal(e, r, b);
      assert false;
    } else if Progressed(e, r).state.Open? {
      ProgressGrows(e, r, b);
      hide Progressed;
      var p, q := Progressed(e, r).state, Progressed(e, wire).state;
      var start := e.onHeader(p.header).output;
      assert start + p.framing.session.out <= start + q.framing.session.out;
    } else {
      AwaitingProgress(e, r);
      hide Progressed;
    }
  }

  /** A client that writes its request and is sent the server's answer and then messages of any kind; what it has
      written is its request and the frames it ships. */
  method RunClient(c: Crypto, env: F.Env, init: string -> bool, scribble: seq<byte> -> seq<byte>, hs: Handshake,
                   ghost items: seq<T.Item>, inbound: seq<byte>, prepareSend: Phase -> Sending<Phase>,
                   doneSending: Phase -> bool, maxReads: nat, events: seq<S.Event>)
    returns (t: S.Transport<Phase, Phase>)
    requires Welcomes(c, hs.key, env, init, items)
    requires IsPartOf(inbound, ToBytes(Response(c, hs.key)) + T.Wire(items))
    requires SendsFrames(ClientEndpoint(c, hs.key, env, init, scribble), prepareSend, doneSending)
    ensures !t.socket.recvs.failed && !S.Erring(events, |events|) ==> t.interest.polled.read
    ensures t.Valid() && t.socket.inbound == inbound && !t.rejected && !t.overrun
    ensures t.socket.sent + t.writeBuf ==
            ToBytes(Request(c, hs)) + Written(ClientEndpoint(c, hs.key, env, init, scribble), t.state)
    ensures t.state.Open? ==> t.state.framing.session.calls <= T.Messages(items)
    ensures t.socket.pos == |ToBytes(Response(c, hs.key)) + T.Wire(items)| ==>
              t.offset == 0 && t.state.Open? && t.state.framing.session.calls == T.Messages(items)
  {
    hide Progressed, Welcomes, Request, Response, T.Wire, T.Messages, ToBytes, SendsFrames, IsPartOf, IsValidResponse,
         Written;
    var e := ClientEndpoint(c, hs.key, env, init, scribble);
    ClientSession(c, hs.key, env, init, scribble, items);
    var request := WriteRequest(c, hs, "");
    assert "" + Request(c, hs) == Request(c, hs);
    t := RunSession(e, T.Messages(items), ToBytes(Response(c, hs.key)) + T.Wire(items), ToBytes(request), inbound,
                    prepareSend, doneSending, maxReads, events);
  }
}
