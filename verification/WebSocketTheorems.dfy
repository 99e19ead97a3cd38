/** Properties of the framing for every input: independence of chunking, delivery, fragmentation, rejection. */
module WebSocketTheorems {
  import opened Bytes
  import opened Rfc6455
  import opened StreamLayer
  import opened WebSocketFraming

  // -- chunking ---------------------------------------------------------------

  /** A round that advances or rejects does the same when more bytes follow. */
  lemma RoundStable(env: Env, st: State, a: seq<byte>, b: seq<byte>)
    ensures var r := NextRound(env, st, a);
            r.Advance? || r.result.Aborted? ==> NextRound(env, st, a + b) == r
  {
    hide OnFrame, Mask, Decode;
    if !Decode(a).Incomplete? {
      DecodeStable(a, b);
    }
    if Decode(a).Complete? {
      var Complete(hdr, n) := Decode(a);
      if n + hdr.payloadLen <= |a| {
        SliceAppended(a, b, n, n + hdr.payloadLen);
      }
    }
  }

  /** A round that waits leaves less than the new maximum, and goes on waiting below the new minimum. */
  lemma RoundWaits(env: Env, st: State, a: seq<byte>, b: seq<byte>)
    requires NextRound(env, st, a).Stop? && NextRound(env, st, a).result.Parsed?
    ensures var p := NextRound(env, st, a).result.policy;
            && |a| < p.maxSize && 0 < p.minSize <= p.maxSize
            && (|a + b| < p.minSize ==> NextRound(env, st, a + b) == NextRound(env, st, a))
  {
    hide OnFrame, Mask;
    if Decode(a).Incomplete? {
      if b == [] {
        assert a + b == a;
      }
    } else {
      DecodeStable(a, b);
    }
  }

  /** Parsing `a` and later the rest together with `b` is parsing `a + b` at once; a rejection is final. */
  lemma {:induction false} ParseSplit(env: Env, st: State, a: seq<byte>, b: seq<byte>)
    ensures match Parse(env, st, a)
            case Aborted(_, _) => Parse(env, st, a + b) == Parse(env, st, a)
            case Parsed(st', n, _) => Parse(env, st, a + b) == Shift(Parse(env, st', a[n..] + b), n)
    decreases |a|
  {
    RoundStable(env, st, a, b);
    hide NextRound;
    match NextRound(env, st, a)
    case Stop(p) =>
      assert a[0..] + b == a + b;
    case Advance(st', size) =>
      assert (a + b)[size..] == a[size..] + b;
      ParseSplit(env, st', a[size..], b);
      var p := Parse(env, st', a[size..]);
      if p.Parsed? {
        assert a[size..][p.consumed..] == a[size + p.consumed..];
      }
  }

  /** What is left over is smaller than the new maximum, and fewer bytes than the new minimum change nothing. */
  lemma {:induction false} ParseRest(env: Env, st: State, a: seq<byte>, b: seq<byte>)
    requires Parse(env, st, a).Parsed?
    ensures var p := Parse(env, st, a);
            && |a| - p.consumed < p.policy.maxSize
            && 0 < p.policy.minSize <= p.policy.maxSize
            && (|a| - p.consumed + |b| < p.policy.minSize ==>
                Parse(env, p.state, a[p.consumed..] + b) == Parsed(p.state, 0, p.policy))
    decreases |a|
  {
    hide NextRound;
    match NextRound(env, st, a)
    case Stop(p) =>
      RoundWaits(env, st, a, b);
      assert a[0..] == a;
    case Advance(st', size) =>
      ParseRest(env, st', a[size..], b);
      var p := Parse(env, st', a[size..]);
      assert a[size..][p.consumed..] == a[size + p.consumed..];
  }

  // -- single frames ----------------------------------------------------------

  /** A frame of `length` bytes under `key` passes the size check of the receiver. */
  predicate FitsFrame(key: Key, length: nat) {
    1 + |LengthField(key, length)| + |KeyField(key)| + length < MAX_FRAME_SIZE
  }

  function MaskedFrame(fin: bool, opcode: nibble, key: Key, data: seq<byte>): seq<byte>
  {
    Frame(fin, opcode, key, Mask(key, data))
  }

  /** A frame on the wire is processed with exactly the fields and the payload it was made from, and is rejected
      for its size if and only if it does not fit. */
  lemma FrameOnWire(env: Env, st: State, fin: bool, opcode: nibble, key: Key, data: seq<byte>, rest: seq<byte>)
    requires KnownOpcode(opcode) && |data| < UINT64_LIMIT
    ensures var w := MaskedFrame(fin, opcode, key, data);
            var step := OnFrame(env, st, Header(fin, opcode, key, |data|), data);
            && NextRound(env, st, w + rest) ==
               (if !FitsFrame(key, |data|) then Stop(Aborted(st, FrameTooLarge))
                else if step.failure.Some? then Stop(Aborted(step.state, step.failure.value))
                else Advance(step.state, |w|))
            && (w + rest)[|w|..] == rest
  {
    DecodeFrame(fin, opcode, key, Mask(key, data), rest);
    MaskTwice(key, data);
    hide OnFrame, Decode, Mask, Frame;
  }

  lemma ParseFrame(env: Env, st: State, fin: bool, opcode: nibble, key: Key, data: seq<byte>, rest: seq<byte>)
    requires KnownOpcode(opcode) && FitsFrame(key, |data|)
    ensures var w := MaskedFrame(fin, opcode, key, data);
            var step := OnFrame(env, st, Header(fin, opcode, key, |data|), data);
            Parse(env, st, w + rest) ==
            if step.failure.Some? then Aborted(step.state, step.failure.value)
            else Shift(Parse(env, step.state, rest), |w|)
  {
    FrameOnWire(env, st, fin, opcode, key, data, rest);
    hide NextRound, MaskedFrame, OnFrame;
  }

  /** A frame of which only a part has arrived: nothing happens, and the next read is as large as it has to be, that is
      up to 2048 bytes before the end of the header and exactly the rest of the frame behind it. */
  lemma PartialFrame(env: Env, st: State, fin: bool, opcode: nibble, key: Key, data: seq<byte>, k: nat)
    requires KnownOpcode(opcode) && FitsFrame(key, |data|) && k < |MaskedFrame(fin, opcode, key, data)|
    ensures var w := MaskedFrame(fin, opcode, key, data);
            Parse(env, st, w[..k]) ==
            Parsed(st, 0, if k < |w| - |data| then UpTo(2048) else Exactly(|w|))
  {
    var masked := Mask(key, data);
    var h := FrameHeader(fin, opcode, key, |data|);
    var w := h + masked;
    assert w == MaskedFrame(fin, opcode, key, data);
    if k < |h| {
      DecodeStrictPrefix(fin, opcode, key, |data|, k);
      assert w[..k] == h[..k];
    } else {
      DecodeFrameHeader(fin, opcode, key, |data|, w[|h|..k]);
      assert w[..k] == h + w[|h|..k];
    }
    hide Decode, FrameHeader, Mask, OnFrame;
    FitsForm(fin, opcode, key, |data|);
  }

  lemma FitsForm(fin: bool, opcode: nibble, key: Key, length: nat)
    ensures FitsFrame(key, length) <==> |FrameHeader(fin, opcode, key, length)| + length < MAX_FRAME_SIZE
  {}

  /** A header that is not valid ends the connection, and that is the reason, whatever has been reassembled so far. */
  lemma InvalidEnds(env: Env, st: State, data: seq<byte>)
    ensures NextRound(env, st, data) == Stop(Aborted(st, InvalidHeader)) <==> Decode(data) == Invalid
    ensures Decode(data) == Invalid ==> Parse(env, st, data) == Aborted(st, InvalidHeader)
  {
    hide Decode, Mask;
    if Decode(data).Complete? {
      var Complete(hdr, n) := Decode(data);
      if n + hdr.payloadLen <= |data| {
        NeverInvalid(env, st, hdr, Mask(hdr.maskKey, data[n..n + hdr.payloadLen]));
      }
    }
    hide OnFrame;
  }

  lemma NeverInvalid(env: Env, st: State, hdr: Header, payload: seq<byte>)
    ensures OnFrame(env, st, hdr, payload).failure !in {Some(InvalidHeader), Some(FrameTooLarge)}
  {
    ReasonsOfHandle(env, st.session, hdr.opcode, payload);
    ReasonsOfHandle(env, st.session, st.opcode, st.payloadBuf + payload);
    hide Handle;
  }

  // -- messages in fragments --------------------------------------------------

  datatype Fragment = Fragment(key: Key, data: seq<byte>)

  /** A message or control frame as it is put on the wire: one frame, or a first frame and continuations. */
  datatype Item = Item(opcode: nibble, parts: seq<Fragment>)

  function Joined(parts: seq<Fragment>): seq<byte> {
    if parts == [] then [] else parts[0].data + Joined(parts[1..])
  }

  function PartsWire(opcode: nibble, parts: seq<Fragment>): seq<byte>
  {
    if parts == [] then []
    else MaskedFrame(|parts| == 1, opcode, parts[0].key, parts[0].data) + PartsWire(CONTINUATION_FRAME, parts[1..])
  }

  predicate PartsFit(parts: seq<Fragment>) {
    forall p :: p in parts ==> FitsFrame(p.key, |p.data|)
  }

  /** The frames of a message handed to `OnFrame` one after the other. */
  function FeedParts(env: Env, st: State, opcode: nibble, parts: seq<Fragment>): Step
    decreases |parts|
  {
    if parts == [] then Step(st, None)
    else
      var step := OnFrame(env, st, Header(|parts| == 1, opcode, parts[0].key, |parts[0].data|), parts[0].data);
      if step.failure.Some? then step else FeedParts(env, step.state, CONTINUATION_FRAME, parts[1..])
  }

  lemma {:induction false} PartsParse(env: Env, st: State, opcode: nibble, parts: seq<Fragment>, rest: seq<byte>)
    requires KnownOpcode(opcode) && PartsFit(parts)
    ensures var step := FeedParts(env, st, opcode, parts);
            var w := PartsWire(opcode, parts);
            Parse(env, st, w + rest) == if step.failure.Some? then Aborted(step.state, step.failure.value)
                                        else Shift(Parse(env, step.state, rest), |w|)
    decreases |parts|
  {
    hide MaskedFrame, OnFrame, Parse, FitsFrame;
    if parts == [] {
      assert [] + rest == rest;
    } else {
      var first := MaskedFrame(|parts| == 1, opcode, parts[0].key, parts[0].data);
      var tail := PartsWire(CONTINUATION_FRAME, parts[1..]);
      Associative(first, tail, rest);
      assert parts[0] in parts;
      ParseFrame(env, st, |parts| == 1, opcode, parts[0].key, parts[0].data, tail + rest);
      var step := OnFrame(env, st, Header(|parts| == 1, opcode, parts[0].key, |parts[0].data|), parts[0].data);
      if step.failure.None? {
        assert forall p :: p in parts[1..] ==> p in parts;
        PartsParse(env, step.state, CONTINUATION_FRAME, parts[1..], rest);
      }
    }
  }

  /** Section 5.4: however a payload is cut into a first frame and continuations, it is handled once, as a whole and
      under the opcode of the first frame; then the layer is idle again. */
  lemma {:induction false} PartsReassemble(env: Env, st: State, opcode: nibble, parts: seq<Fragment>)
    requires parts != []
    requires st.opcode == NIL_CODE ==> opcode != CONTINUATION_FRAME && st.payloadBuf == []
    requires st.opcode != NIL_CODE ==> opcode == CONTINUATION_FRAME
    requires |parts| > 1 || st.opcode != NIL_CODE ==> |st.payloadBuf| + |Joined(parts)| <= MAX_FRAME_SIZE
    ensures var h := Handle(env, st.session, if st.opcode == NIL_CODE then opcode as int else st.opcode,
                            st.payloadBuf + Joined(parts));
            var step := FeedParts(env, st, opcode, parts);
            && step.failure == h.failure
            && step.state.session == h.session
            && (h.failure.None? ==> step.state == Idle(h.session))
    decreases |parts|
  {
    hide Handle;
    if |parts| == 1 {
      assert parts[1..] == [];
      assert Joined(parts) == parts[0].data + [] == parts[0].data;
      assert [] + parts[0].data == parts[0].data;
    } else {
      var step := OnFrame(env, st, Header(false, opcode, parts[0].key, |parts[0].data|), parts[0].data);
      assert step.state.payloadBuf == st.payloadBuf + parts[0].data;
      assert step.state.payloadBuf + Joined(parts[1..]) == st.payloadBuf + Joined(parts);
      PartsReassemble(env, step.state, CONTINUATION_FRAME, parts[1..]);
    }
  }

  // -- delivery ---------------------------------------------------------------

  /** One item the receiver can take: a text or binary message in any number of fragments, or a ping or pong. */
  predicate Sendable(item: Item) {
    && item.opcode in {TEXT_FRAME, BINARY_FRAME, PING, PONG}
    && item.parts != []
    && PartsFit(item.parts)
    && (|item.parts| > 1 ==> |Joined(item.parts)| <= MAX_FRAME_SIZE)
  }

  predicate AllSendable(items: seq<Item>) {
    forall i :: i in items ==> Sendable(i)
  }

  function Wire(items: seq<Item>): seq<byte> {
    if items == [] then [] else PartsWire(items[0].opcode, items[0].parts) + Wire(items[1..])
  }

  /** The messages among the items, in order. */
  function Messages(items: seq<Item>): seq<Message> {
    if items == [] then [] else MessageIn(items[0]) + Messages(items[1..])
  }

  function MessageIn(item: Item): seq<Message> {
    if item.opcode == TEXT_FRAME then [Text(Joined(item.parts))]
    else if item.opcode == BINARY_FRAME then [Binary(Joined(item.parts))]
    else []
  }

  /** The items handled one after the other until one is refused. */
  function HandleAll(env: Env, s: Session, items: seq<Item>): Handled
    decreases |items|
  {
    if items == [] then Handled(s, None)
    else
      var h := Handle(env, s, items[0].opcode, Joined(items[0].parts));
      if h.failure.Some? then h else HandleAll(env, h.session, items[1..])
  }

  lemma {:induction false} ItemsParse(env: Env, s: Session, items: seq<Item>)
    requires AllSendable(items)
    ensures var h := HandleAll(env, s, items);
            var p := Parse(env, Idle(s), Wire(items));
            if h.failure.Some? then p.Aborted? && p.reason == h.failure.value && p.state.session == h.session
            else p == Parsed(Idle(h.session), |Wire(items)|, UpTo(2048))
    decreases |items|
  {
    if items == [] {
      ParseNothing(env, Idle(s));
    } else {
      assert items[0] in items;
      var h := Handle(env, s, items[0].opcode, Joined(items[0].parts));
      assert [] + Joined(items[0].parts) == Joined(items[0].parts);
      PartsParse(env, Idle(s), items[0].opcode, items[0].parts, Wire(items[1..]));
      PartsReassemble(env, Idle(s), items[0].opcode, items[0].parts);
      hide Parse, Handle, FeedParts, PartsWire;
      if h.failure.None? {
        ItemsParse(env, h.session, items[1..]);
      }
    }
  }

  lemma {:induction false} ShipAllKeepsCalls(env: Env, s: Session, ms: seq<Message>)
    ensures ShipAll(env, s, ms).calls == s.calls
    decreases |ms|
  {
    if ms != [] {
      ShipAllKeepsCalls(env, Ship(env, s, Opcode(ms[0]), ms[0].payload), ms[1..]);
    }
  }

  ghost predicate AcceptsAll(env: Env) {
    forall calls :: env.upper(calls).accepted
  }

  lemma HandleCalls(env: Env, s: Session, item: Item)
    requires item.opcode in {TEXT_FRAME, BINARY_FRAME, PING, PONG}
    ensures var h := Handle(env, s, item.opcode, Joined(item.parts));
            && h.session.calls == s.calls + MessageIn(item)
            && (AcceptsAll(env) ==> h.failure.None?)
  {
    if item.opcode in {TEXT_FRAME, BINARY_FRAME} {
      var m := if item.opcode == TEXT_FRAME then Text(Joined(item.parts)) else Binary(Joined(item.parts));
      assert MessageIn(item) == [m];
      ShipAllKeepsCalls(env, s.(calls := s.calls + [m]), env.upper(s.calls + [m]).replies);
    } else {
      assert MessageIn(item) == [];
      hide Frame, Mask;
    }
  }

  lemma PrefixChain(a: seq<Message>, b: seq<Message>, c: seq<Message>)
    requires a <= b <= c
    ensures a <= c
  {}

  lemma {:induction false} HandleAllCalls(env: Env, s: Session, items: seq<Item>)
    requires AllSendable(items)
    ensures var h := HandleAll(env, s, items);
            && (AcceptsAll(env) ==> h.failure.None?)
            && (h.failure.None? ==> h.session.calls == s.calls + Messages(items))
            && s.calls <= h.session.calls <= s.calls + Messages(items)
    decreases |items|
  {
    if items != [] {
      assert items[0] in items;
      HandleCalls(env, s, items[0]);
      hide Handle;
      var h := Handle(env, s, items[0].opcode, Joined(items[0].parts));
      assert h.failure.None? ==> HandleAll(env, s, items) == HandleAll(env, h.session, items[1..]);
      assert Messages(items) == MessageIn(items[0]) + Messages(items[1..]);
      assert AllSendable(items[1..]);
      hide *;
      Associative(s.calls, MessageIn(items[0]), Messages(items[1..]));
      if h.failure.None? {
        HandleAllCalls(env, h.session, items[1..]);
        PrefixChain(s.calls, h.session.calls, HandleAll(env, h.session, items[1..]).session.calls);
      }
    }
  }

  /** Whatever mix of whole and fragmented messages, pings and pongs arrives: the upper layer receives exactly the
      messages, in order, each once, as long as it accepts them, and never anything else; the layer ends up idle. */
  lemma Delivery(env: Env, s: Session, items: seq<Item>)
    requires AllSendable(items)
    ensures var p := Parse(env, Idle(s), Wire(items));
            && s.calls <= p.state.session.calls <= s.calls + Messages(items)
            && (p.Parsed? ==> p.consumed == |Wire(items)| && p.policy == UpTo(2048) && p.state == Idle(p.state.session)
                              && p.state.session.calls == s.calls + Messages(items))
            && (AcceptsAll(env) ==> p.Parsed?)
  {
    ItemsParse(env, s, items);
    HandleAllCalls(env, s, items);
  }

  // -- the sender -------------------------------------------------------------

  /** The frames `ship_frame` makes of `ms`, drawing keys from `draws` on. */
  function Sent(env: Env, draws: nat, ms: seq<Message>): seq<Item>
    decreases |ms|
  {
    if ms == [] then []
    else [SentItem(env, draws, ms[0])] + Sent(env, NextDraw(env, draws), ms[1..])
  }

  function SentItem(env: Env, draws: nat, m: Message): Item {
    Item(Opcode(m), [Fragment(OutKey(env, draws), m.payload)])
  }

  lemma SingleFrame(opcode: nibble, part: Fragment)
    ensures PartsWire(opcode, [part]) == MaskedFrame(true, opcode, part.key, part.data)
    ensures Joined([part]) == part.data
  {
    assert [part][1..] == [];
    assert PartsWire(opcode, [part]) == MaskedFrame(true, opcode, part.key, part.data) + [];
    assert Joined([part]) == part.data + [];
  }

  lemma ShipIsOneItem(env: Env, s: Session, m: Message)
    ensures var item := SentItem(env, s.draws, m);
            Ship(env, s, Opcode(m), m.payload).out == s.out + PartsWire(item.opcode, item.parts)
  {
    SingleFrame(Opcode(m), Fragment(OutKey(env, s.draws), m.payload));
    hide Frame, Mask, PartsWire;
  }

  lemma {:induction false} SentMessages(env: Env, draws: nat, ms: seq<Message>)
    ensures Messages(Sent(env, draws, ms)) == ms
    decreases |ms|
  {
    if ms != [] {
      SentMessages(env, NextDraw(env, draws), ms[1..]);
      SingleFrame(Opcode(ms[0]), Fragment(OutKey(env, draws), ms[0].payload));
      hide NextDraw, PartsWire;
      assert ms == [ms[0]] + ms[1..];
    }
  }

  lemma {:induction false} SentWire(env: Env, s: Session, ms: seq<Message>)
    ensures ShipAll(env, s, ms).out == s.out + Wire(Sent(env, s.draws, ms))
    decreases |ms|
  {
    if ms != [] {
      var s' := Ship(env, s, Opcode(ms[0]), ms[0].payload);
      assert s'.draws == NextDraw(env, s.draws);
      ShipIsOneItem(env, s, ms[0]);
      var item := SentItem(env, s.draws, ms[0]);
      var rest := Sent(env, s'.draws, ms[1..]);
      assert Sent(env, s.draws, ms) == [item] + rest && ([item] + rest)[1..] == rest;
      assert Wire([item] + rest) == PartsWire(item.opcode, item.parts) + Wire(rest);
      assert ShipAll(env, s, ms) == ShipAll(env, s', ms[1..]);
      hide *;
      SentWire(env, s', ms[1..]);
      Associative(s.out, PartsWire(item.opcode, item.parts), Wire(rest));
    }
  }

  /** Every message fits one frame under the key it will be masked with. */
  predicate AllFit(env: Env, draws: nat, ms: seq<Message>)
    decreases |ms|
  {
    ms != [] ==>
      && FitsFrame(OutKey(env, draws), |ms[0].payload|)
      && AllFit(env, NextDraw(env, draws), ms[1..])
  }

  lemma {:induction false} FittingIsSendable(env: Env, draws: nat, ms: seq<Message>)
    requires AllFit(env, draws, ms)
    ensures AllSendable(Sent(env, draws, ms))
    decreases |ms|
  {
    if ms != [] {
      FittingIsSendable(env, NextDraw(env, draws), ms[1..]);
    }
  }

  /** Messages shipped by one framing layer and parsed by another arrive unchanged, in order and each once, whatever
      keys the sender draws and whether or not it masks. */
  lemma ShipThenParse(sender: Env, receiver: Env, s: Session, ms: seq<Message>)
    requires AllFit(sender, 0, ms) && AcceptsAll(receiver)
    ensures var wire := ShipAll(sender, Session([], 0, []), ms).out;
            var p := Parse(receiver, Idle(s), wire);
            && p == Parsed(Idle(p.state.session), |wire|, UpTo(2048))
            && p.state.session.calls == s.calls + ms
  {
    FittingIsSendable(sender, 0, ms);
    SentWire(sender, Session([], 0, []), ms);
    SentMessages(sender, 0, ms);
    Delivery(receiver, s, Sent(sender, 0, ms));
    assert [] + Wire(Sent(sender, 0, ms)) == Wire(Sent(sender, 0, ms));
  }

  // -- what is rejected, and what never happens -------------------------------

  /** Section 5.4 without interleaved control frames: a continuation if and only if a message is in progress. */
  predicate InSequence(st: State, hdr: Header, payload: seq<byte>) {
    && (st.opcode == NIL_CODE <==> hdr.opcode != CONTINUATION_FRAME)
    && (st.opcode != NIL_CODE ==> |st.payloadBuf| + |payload| <= MAX_FRAME_SIZE)
  }

  /** A frame is accepted if and only if it is in sequence and, when it is final, the reassembled message is handled. */
  lemma AcceptedExactly(env: Env, st: State, hdr: Header, payload: seq<byte>)
    requires st.opcode == NIL_CODE ==> st.payloadBuf == []
    ensures OnFrame(env, st, hdr, payload).failure.None? <==>
            && InSequence(st, hdr, payload)
            && (hdr.fin ==> Handle(env, st.session, if st.opcode == NIL_CODE then hdr.opcode as int else st.opcode,
                                   st.payloadBuf + payload).failure.None?)
  {
    assert [] + payload == payload;
  }

  /** While a message is in progress, any frame but a continuation is rejected, control frames included; and only then
      is that the reason. */
  lemma InterleavedExactly(env: Env, st: State, hdr: Header, payload: seq<byte>)
    ensures OnFrame(env, st, hdr, payload) == Step(st, Some(ExpectedContinuation)) <==>
            st.opcode != NIL_CODE && hdr.opcode != CONTINUATION_FRAME
  {
    ReasonsOfHandle(env, st.session, hdr.opcode, payload);
    ReasonsOfHandle(env, st.session, st.opcode, st.payloadBuf + payload);
    hide Handle;
  }

  lemma ReasonsOfHandle(env: Env, s: Session, opcode: nat, payload: seq<byte>)
    ensures var failure := Handle(env, s, opcode, payload).failure;
            && failure in {None, Some(ConnectionClosed), Some(Unset)}
            && (failure == Some(ConnectionClosed) <==> opcode == CONNECTION_CLOSE)
  {}

  /** When each of the other reasons is given: a first fragment without an opcode, fragments that add up to more than
      the maximum, and a complete close frame or message. */
  lemma ReasonsExactly(env: Env, st: State, hdr: Header, payload: seq<byte>)
    ensures var failure := OnFrame(env, st, hdr, payload).failure;
            var fits := |st.payloadBuf| + |payload| <= MAX_FRAME_SIZE;
            && (failure == Some(NoPriorOpcode) <==>
                  st.opcode == NIL_CODE && hdr.opcode == CONTINUATION_FRAME && !hdr.fin)
            && (failure == Some(PayloadTooLarge) <==>
                  st.opcode != NIL_CODE && hdr.opcode == CONTINUATION_FRAME && !fits)
            && (failure == Some(ConnectionClosed) <==>
                  && hdr.fin
                  && if st.opcode == NIL_CODE then hdr.opcode == CONNECTION_CLOSE
                     else st.opcode == CONNECTION_CLOSE && hdr.opcode == CONTINUATION_FRAME && fits)
  {
    ReasonsOfHandle(env, st.session, hdr.opcode, payload);
    ReasonsOfHandle(env, st.session, st.opcode, st.payloadBuf + payload);
    hide Handle;
  }

  /** At the input: a ping between two fragments of a message, as section 5.4 of RFC 6455 allows it, ends the
      connection. */
  lemma PingBetweenFragments(env: Env, s: Session, keys: (Key, Key), first: seq<byte>, ping: seq<byte>, rest: seq<byte>)
    requires FitsFrame(keys.0, |first|) && FitsFrame(keys.1, |ping|)
    ensures Parse(env, Idle(s), MaskedFrame(false, TEXT_FRAME, keys.0, first)
                                + (MaskedFrame(true, PING, keys.1, ping) + rest))
            == Aborted(State(TEXT_FRAME, first, s), ExpectedContinuation)
  {
    hide MaskedFrame, Parse, OnFrame, FitsFrame;
    var st, behind := State(TEXT_FRAME, first, s), MaskedFrame(true, PING, keys.1, ping) + rest;
    FirstFragment(env, s, keys.0, first);
    InterleavedExactly(env, st, Header(true, PING, keys.1, |ping|), ping);
    ParseFrame(env, Idle(s), false, TEXT_FRAME, keys.0, first, behind);
    ParseFrame(env, st, true, PING, keys.1, ping, rest);
  }

  lemma FirstFragment(env: Env, s: Session, key: Key, first: seq<byte>)
    ensures OnFrame(env, Idle(s), Header(false, TEXT_FRAME, key, |first|), first) ==
        Step(State(TEXT_FRAME, first, s), None)
  {
    assert [] + first == first;
  }

  ghost predicate ValidState(st: State) {
    && |st.payloadBuf| <= MAX_FRAME_SIZE
    && (st.opcode == NIL_CODE ==> st.payloadBuf == [])
  }

  /** For all input, the reassembly buffer never exceeds the maximum, an idle layer holds no fragments, and the
      histories of calls and of output only grow. */
  lemma {:induction false} ParseKeeps(env: Env, st: State, data: seq<byte>)
    requires ValidState(st)
    ensures var p := Parse(env, st, data);
            && (p.Parsed? ==> ValidState(p.state))
            && |p.state.payloadBuf| <= MAX_FRAME_SIZE
            && st.session.calls <= p.state.session.calls
            && st.session.out <= p.state.session.out
    decreases |data|
  {
    RoundKeeps(env, st, data);
    hide NextRound;
    match NextRound(env, st, data)
    case Stop(_) =>
    case Advance(st', size) =>
      ParseKeeps(env, st', data[size..]);
  }

  lemma RoundKeeps(env: Env, st: State, data: seq<byte>)
    requires ValidState(st)
    ensures var r := NextRound(env, st, data);
            var st' := if r.Advance? then r.state else r.result.state;
            && (r.Advance? ==> ValidState(st'))
            && |st'.payloadBuf| <= MAX_FRAME_SIZE
            && st.session.calls <= st'.session.calls
            && st.session.out <= st'.session.out
  {
    if Decode(data).Complete? {
      var Complete(hdr, n) := Decode(data);
      if !TooLarge(hdr, n) && n + hdr.payloadLen <= |data| {
        hide Decode;
        FrameKeeps(env, st, hdr, Mask(hdr.maskKey, data[n..n + hdr.payloadLen]));
        hide OnFrame, Mask;
      }
    }
  }

  lemma FrameKeeps(env: Env, st: State, hdr: Header, payload: seq<byte>)
    requires ValidState(st) && |payload| <= MAX_FRAME_SIZE
    ensures var step := OnFrame(env, st, hdr, payload);
            && (step.failure.None? ==> ValidState(step.state))
            && |step.state.payloadBuf| <= MAX_FRAME_SIZE
            && st.session.calls <= step.state.session.calls
            && st.session.out <= step.state.session.out
  {
    HandleGrows(env, st.session, hdr.opcode, payload);
    HandleGrows(env, st.session, st.opcode, st.payloadBuf + payload);
    hide Handle;
  }

  lemma HandleGrows(env: Env, s: Session, opcode: nat, payload: seq<byte>)
    ensures s.calls <= Handle(env, s, opcode, payload).session.calls
    ensures s.out <= Handle(env, s, opcode, payload).session.out
  {
    var m := if opcode == TEXT_FRAME then Text(payload) else Binary(payload);
    ShipAllGrows(env, s.(calls := s.calls + [m]), env.upper(s.calls + [m]).replies);
  }

  lemma {:induction false} ShipAllGrows(env: Env, s: Session, ms: seq<Message>)
    ensures s.calls == ShipAll(env, s, ms).calls
    ensures s.out <= ShipAll(env, s, ms).out
    decreases |ms|
  {
    if ms != [] {
      ShipAllGrows(env, Ship(env, s, Opcode(ms[0]), ms[0].payload), ms[1..]);
    }
  }

  /** A layer never takes back output. */
  lemma {:induction false} OutputGrows(env: Env, st: State, data: seq<byte>)
    ensures st.session.out <= Parse(env, st, data).state.session.out
    decreases |data|
  {
    RoundGrows(env, st, data);
    hide NextRound;
    match NextRound(env, st, data)
    case Stop(_) =>
    case Advance(st', size) => OutputGrows(env, st', data[size..]);
  }

  lemma RoundGrows(env: Env, st: State, data: seq<byte>)
    ensures var r := NextRound(env, st, data);
            st.session.out <= (if r.Advance? then r.state else r.result.state).session.out
  {
    hide Decode, Mask, Handle;
    if Decode(data).Complete? {
      var Complete(hdr, n) := Decode(data);
      if n + hdr.payloadLen <= |data| {
        var payload := Mask(hdr.maskKey, data[n..n + hdr.payloadLen]);
        HandleGrows(env, st.session, hdr.opcode, payload);
        HandleGrows(env, st.session, st.opcode, st.payloadBuf + payload);
      }
    }
  }

  // -- what the layer sends does not change what it receives -------------------

  /** The part of the state that decides how input is processed. */
  function Erase(st: State): State {
    st.(session := Session(st.session.calls, 0, []))
  }

  lemma HandleBlind(env: Env, s1: Session, s2: Session, opcode: nat, payload: seq<byte>)
    requires s1.calls == s2.calls
    ensures var h1, h2 := Handle(env, s1, opcode, payload), Handle(env, s2, opcode, payload);
            h1.failure == h2.failure && h1.session.calls == h2.session.calls
  {
    var m := if opcode == TEXT_FRAME then Text(payload) else Binary(payload);
    var calls := s1.calls + [m];
    ShipAllKeepsCalls(env, s1.(calls := calls), env.upper(calls).replies);
    ShipAllKeepsCalls(env, s2.(calls := calls), env.upper(calls).replies);
    hide ShipAll, Frame, Mask;
  }

  lemma FrameBlind(env: Env, st1: State, st2: State, hdr: Header, payload: seq<byte>)
    requires Erase(st1) == Erase(st2)
    ensures var step1, step2 := OnFrame(env, st1, hdr, payload), OnFrame(env, st2, hdr, payload);
            step1.failure == step2.failure && Erase(step1.state) == Erase(step2.state)
  {
    HandleBlind(env, st1.session, st2.session, hdr.opcode, payload);
    HandleBlind(env, st1.session, st2.session, st1.opcode, st1.payloadBuf + payload);
    hide Handle;
  }

  lemma RoundBlind(env: Env, st1: State, st2: State, data: seq<byte>)
    requires Erase(st1) == Erase(st2)
    ensures SameRound(NextRound(env, st1, data), NextRound(env, st2, data))
  {
    if Decode(data).Complete? {
      var Complete(hdr, n) := Decode(data);
      if n + hdr.payloadLen <= |data| {
        FrameBlind(env, st1, st2, hdr, Mask(hdr.maskKey, data[n..n + hdr.payloadLen]));
      }
    }
    hide OnFrame, Mask, Decode;
  }

  predicate SameRound(r1: Round, r2: Round) {
    match (r1, r2)
    case (Advance(st1, n1), Advance(st2, n2)) => n1 == n2 && Erase(st1) == Erase(st2)
    case (Stop(p1), Stop(p2)) => SameParse(p1, p2)
    case _ => false
  }

  predicate SameParse(p1: Parsed, p2: Parsed) {
    match (p1, p2)
    case (Parsed(st1, n1, pol1), Parsed(st2, n2, pol2)) => n1 == n2 && pol1 == pol2 && Erase(st1) == Erase(st2)
    case (Aborted(st1, why1), Aborted(st2, why2)) => why1 == why2 && Erase(st1) == Erase(st2)
    case _ => false
  }

  /** Calls, verdict and consumed bytes do not depend on the keys drawn or the output shipped before. */
  lemma {:induction false} ParseBlind(env: Env, st1: State, st2: State, data: seq<byte>)
    requires Erase(st1) == Erase(st2)
    ensures SameParse(Parse(env, st1, data), Parse(env, st2, data))
    decreases |data|
  {
    RoundBlind(env, st1, st2, data);
    hide NextRound;
    match NextRound(env, st1, data)
    case Stop(_) =>
    case Advance(st', size) =>
      ParseBlind(env, st', NextRound(env, st2, data).state, data[size..]);
  }

  /** Bytes `b` that arrive after `r` take a state that looks like the one after `r` to one that looks like the one
      after `r + b`, and leave room for the next read. */
  lemma ParseNext(env: Env, st0: State, r: seq<byte>, b: seq<byte>, st: State)
    requires Parse(env, st0, r).Parsed? && Erase(st) == Erase(Parse(env, st0, r).state)
    ensures var p, q := Parse(env, st0, r), Parse(env, st0, r + b);
            var u := r[p.consumed..] + b;
            var g := Parse(env, st, u);
            && (|u| < p.policy.minSize ==> q == p)
            && g.Parsed? == q.Parsed?
            && Erase(g.state) == Erase(q.state)
            && (st == p.state ==> g.state == q.state)
            && (q.Parsed? ==>
                  && q.consumed == p.consumed + g.consumed <= |r + b|
                  && q.policy == g.policy
                  && |r + b| - q.consumed < q.policy.maxSize
                  && 0 < q.policy.minSize <= q.policy.maxSize)
  {
    var p := Parse(env, st0, r);
    ParseSplit(env, st0, r, b);
    ParseRest(env, st0, r, b);
    ParseBlind(env, st, p.state, r[p.consumed..] + b);
    if Parse(env, st0, r + b).Parsed? {
      ParseRest(env, st0, r + b, []);
    }
    hide Parse;
  }
}
