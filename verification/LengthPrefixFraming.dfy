/** Length-prefixed messages: a 4-byte size in network byte order in front of every message. */
module LengthPrefixFraming {
  import opened Bytes
  import opened StreamLayer

  const MAX_MESSAGE_LENGTH: nat := INT32_MAX - 4
  const DEFAULT_RECEIVE_SIZE: nat := 4 * 1024

  datatype Message = Message(payload: seq<byte>)

  /** Whether the upper layer accepts the last of the messages it has been given. */
  datatype Upper = Upper(accepts: seq<Message> -> bool)

  /** `receive_buf_upper_bound_` and the messages handed to the upper layer. */
  datatype State = State(bound: nat, calls: seq<Message>)

  datatype Parsed = Parsed(state: State, consumed: nat) | Aborted(state: State)

  function Shift(p: Parsed, n: nat): Parsed {
    if p.Parsed? then p.(consumed := p.consumed + n) else p
  }

  datatype Round = Stop(result: Parsed) | Advance(state: State, size: nat)

  /** `split`: the size in the prefix. */
  function Size(data: seq<byte>): nat
    requires |data| >= 4
  {
    DecodeBE(data[..4])
  }

  function Deliver(upper: Upper, st: State, data: seq<byte>): Round
    requires |data| >= 4 && |data| >= 4 + Size(data)
  {
    var st' := st.(calls := st.calls + [Message(data[4..4 + Size(data)])]);
    if upper.accepts(st'.calls) then Advance(st', 4 + Size(data)) else Stop(Aborted(st'))
  }

  /** One round of the loop in `consume`. */
  function NextRound(upper: Upper, st: State, data: seq<byte>): (r: Round)
    ensures r.Advance? ==> 0 < r.size <= |data|
  {
    if |data| < 4 then Stop(Parsed(st, 0))
    else if Size(data) == 0 then Advance(st, 4)
    else if Size(data) > MAX_MESSAGE_LENGTH then Stop(Aborted(st))
    else if Size(data) > |data| - 4 then
      Stop(Parsed(if Size(data) + 4 > st.bound then st.(bound := Size(data) + 4) else st, 0))
    else Deliver(upper, st, data)
  }

  /** What `consume` computes on `data`. */
  function Consumed(upper: Upper, st: State, data: seq<byte>): (p: Parsed)
    ensures p.Parsed? ==> p.consumed <= |data|
    decreases |data|
  {
    match NextRound(upper, st, data)
    case Stop(p) => p
    case Advance(st', size) => Shift(Consumed(upper, st', data[size..]), size)
  }

  // -- the framing class ------------------------------------------------------

  class Framing {
    const upper: Upper
    /** The output buffer of the lower layer. */
    var out: seq<byte>
    var messageOffset: nat
    var bound: nat
    var calls: seq<Message>

    ghost function Abs(): State
      reads this
    {
      State(bound, calls)
    }

    constructor (upper: Upper)
      ensures this.upper == upper && out == [] && Abs() == State(DEFAULT_RECEIVE_SIZE, [])
    {
      this.upper := upper;
      out, messageOffset, bound, calls := [], 0, DEFAULT_RECEIVE_SIZE, [];
    }

    method BeginMessage()
      modifies this`out, this`messageOffset
      ensures messageOffset == |old(out)| && out == old(out) + [0, 0, 0, 0]
    {
      messageOffset := |out|;
      out := out + [0, 0, 0, 0];
    }

    /** Writes the size of everything behind the prefix into the prefix, unless it is 0 or too large. */
    method EndMessage() returns (ok: bool)
      requires messageOffset + 4 <= |out|
      modifies this`out
      ensures ok == (0 < |out| - messageOffset - 4 < MAX_MESSAGE_LENGTH)
      ensures out == if ok then
                       old(out)[..messageOffset] + EncodeBE(|old(out)| - messageOffset - 4, 4)
                       + old(out)[messageOffset + 4..]
                     else old(out)
    {
      var msgSize := |out| - messageOffset - 4;
      if msgSize > 0 && msgSize < MAX_MESSAGE_LENGTH {
        out := out[..messageOffset] + EncodeBE(msgSize, 4) + out[messageOffset + 4..];
        return true;
      }
      return false;
    }

    /** A whole message: the output grows by exactly its frame if the message is accepted. */
    method Send(msg: seq<byte>) returns (ok: bool)
      modifies this`out, this`messageOffset
      ensures ok == Accepted(msg)
      ensures ok ==> out == old(out) + Frame(msg)
    {
      BeginMessage();
      out := out + msg;
      ghost var filled := out;
      assert filled[..messageOffset] == old(out);
      assert filled[messageOffset + 4..] == msg;
      ok := EndMessage();
    }

    /** `consume`; a policy is configured only when the upper bound has to grow. */
    method Consume(data: seq<byte>) returns (res: int, policy: Option<Policy>)
      modifies this`bound, this`calls
      ensures match Consumed(upper, old(Abs()), data)
              case Parsed(st, n) => res == n && Abs() == st
              case Aborted(st) => res == -1 && Abs() == st
      ensures 0 <= res ==> policy == if bound == old(bound) then None else Some(Between(4, bound))
    {
      hide DecodeBE;
      ghost var st0 := Abs();
      var input := data;
      var consumed: nat := 0;
      policy := None;
      while true
        invariant consumed <= |data| && input == data[consumed..] && bound == old(bound)
        invariant Consumed(upper, st0, data) == Shift(Consumed(upper, Abs(), input), consumed)
        decreases |input|
      {
        if |input| < 4 {
          return consumed, policy;
        }
        var msgSize := DecodeBE(input[..4]);
        if msgSize == 0 {
          consumed := consumed + 4;
          input := input[4..];
        } else if msgSize > MAX_MESSAGE_LENGTH {
          return -1, policy;
        } else if msgSize > |input| - 4 {
          if msgSize + 4 > bound {
            bound := msgSize + 4;
            policy := Some(Between(4, bound));
          }
          return consumed, policy;
        } else {
          calls := calls + [Message(input[4..4 + msgSize])];
          if !upper.accepts(calls) {
            return -1, policy;
          }
          consumed := consumed + msgSize + 4;
          input := input[4 + msgSize..];
        }
      }
    }
  }

  predicate Accepted(msg: seq<byte>) {
    0 < |msg| < MAX_MESSAGE_LENGTH
  }

  function Frame(msg: seq<byte>): seq<byte> {
    EncodeBE(|msg|, 4) + msg
  }

  // -- the same stream in any chunking ----------------------------------------

  function Raise(st: State, size: nat): State {
    if size + 4 > st.bound then st.(bound := size + 4) else st
  }

  /** A round that raises the bound as soon as it sees a size, complete message or not. */
  function IdealRound(upper: Upper, st: State, data: seq<byte>): (r: Round)
    ensures r.Advance? ==> 0 < r.size <= |data|
    ensures r.Stop? && r.result.Parsed? ==> r.result.consumed == 0
  {
    if |data| < 4 then Stop(Parsed(st, 0))
    else if Size(data) == 0 then Advance(st, 4)
    else if Size(data) > MAX_MESSAGE_LENGTH then Stop(Aborted(st))
    else if Size(data) > |data| - 4 then Stop(Parsed(Raise(st, Size(data)), 0))
    else Deliver(upper, Raise(st, Size(data)), data)
  }

  function Ideal(upper: Upper, st: State, data: seq<byte>): (p: Parsed)
    ensures p.Parsed? ==> p.consumed <= |data|
    decreases |data|
  {
    match IdealRound(upper, st, data)
    case Stop(p) => p
    case Advance(st', size) => Shift(Ideal(upper, st', data[size..]), size)
  }

  lemma {:induction false} IdealGrows(upper: Upper, st: State, data: seq<byte>)
    requires 4 <= st.bound <= INT32_MAX
    ensures var st' := Ideal(upper, st, data).state;
            st.bound <= st'.bound <= INT32_MAX && st.calls <= st'.calls
    decreases |data|
  {
    match IdealRound(upper, st, data)
    case Stop(_) =>
    case Advance(st', size) =>
      IdealGrows(upper, st', data[size..]);
  }

  /** Within the bound, `consume` does what the ideal parser does. */
  lemma {:induction false} ConsumedIsIdeal(upper: Upper, st: State, data: seq<byte>)
    requires |data| <= st.bound
    ensures Consumed(upper, st, data) == Ideal(upper, st, data)
    decreases |data|
  {
    match NextRound(upper, st, data)
    case Stop(_) =>
    case Advance(st', size) =>
      ConsumedIsIdeal(upper, st', data[size..]);
  }

  lemma IdealRoundStable(upper: Upper, st: State, a: seq<byte>, b: seq<byte>)
    ensures var r := IdealRound(upper, st, a);
            if r.Stop? && r.result.Parsed? then IdealRound(upper, st, a + b) == IdealRound(upper, r.result.state, a + b)
            else IdealRound(upper, st, a + b) == r
  {
    if 4 <= |a| {
      assert (a + b)[..4] == a[..4];
      if 4 + Size(a) <= |a| {
        assert (a + b)[4..4 + Size(a)] == a[4..4 + Size(a)];
      }
    }
  }

  lemma {:induction false} IdealSplit(upper: Upper, st: State, a: seq<byte>, b: seq<byte>)
    ensures match Ideal(upper, st, a)
            case Aborted(_) => Ideal(upper, st, a + b) == Ideal(upper, st, a)
            case Parsed(st', n) => Ideal(upper, st, a + b) == Shift(Ideal(upper, st', a[n..] + b), n)
    decreases |a|
  {
    IdealRoundStable(upper, st, a, b);
    hide IdealRound;
    match IdealRound(upper, st, a)
    case Stop(p) =>
      assert a[0..] + b == a + b;
    case Advance(st', size) =>
      assert (a + b)[size..] == a[size..] + b;
      IdealSplit(upper, st', a[size..], b);
      var p := Ideal(upper, st', a[size..]);
      if p.Parsed? {
        assert a[size..][p.consumed..] == a[size + p.consumed..];
      }
  }

  /** The rest is smaller than the bound, and fewer than 4 bytes change nothing. */
  lemma {:induction false} IdealRest(upper: Upper, st: State, a: seq<byte>, b: seq<byte>)
    requires 4 <= st.bound && Ideal(upper, st, a).Parsed?
    ensures var p := Ideal(upper, st, a);
            && |a| - p.consumed < p.state.bound
            && (|a| - p.consumed + |b| < 4 ==> Ideal(upper, p.state, a[p.consumed..] + b) == Parsed(p.state, 0))
    decreases |a|
  {
    match IdealRound(upper, st, a)
    case Stop(p) =>
      assert a[0..] + b == a + b;
    case Advance(st', size) =>
      IdealRest(upper, st', a[size..], b);
      var p := Ideal(upper, st', a[size..]);
      assert a[size..][p.consumed..] == a[size + p.consumed..];
  }

  /** What the framing should have done after the bytes `r`. */
  function Spec(upper: Upper): seq<byte> -> Progress<State> {
    r => match Ideal(upper, State(DEFAULT_RECEIVE_SIZE, []), r)
         case Parsed(st, n) => Progress(st, n, Between(4, st.bound), false)
         case Aborted(st) => Progress(st, 0, Between(4, st.bound), true)
  }

  /** The framing as a layer of a stream transport; `sending` stands for its sending half. */
  function AsLayer(upper: Upper, prepareSend: State -> Sending<State>, doneSending: State -> bool): Layer<State> {
    Layer((st, data, delta) =>
            match Consumed(upper, st, data)
            case Parsed(st', n) =>
              Outcome(st', n, data, if st'.bound == st.bound then None else Some(Between(4, st'.bound)), [],
                      false)
            case Aborted(st') => Outcome(st', -1, data, None, [], false),
          prepareSend, doneSending)
  }

  function Id(st: State): State {
    st
  }

  /** However the transport cuts the stream, the framing stands where one pass over all received bytes stands: same
      messages, same verdict, the bound equal to the transport's maximum, and always room for the next read. */
  lemma LayerRefinesSpec(upper: Upper, prepareSend: State -> Sending<State>, doneSending: State -> bool)
    ensures WellBehaved(AsLayer(upper, prepareSend, doneSending))
    ensures Refines(AsLayer(upper, prepareSend, doneSending), Id, Spec(upper))
  {
    var layer := AsLayer(upper, prepareSend, doneSending);
    forall s, data, delta ensures WellBehavedAt(layer, s, data, delta) {}
    forall s, r, b, delta ensures RefinesAt(layer, Id, Spec(upper), s, r, b, delta) {
      LayerRefinesSpecAt(upper, prepareSend, doneSending, s, r, b, delta);
    }
  }

  lemma LayerRefinesSpecAt(upper: Upper, prepareSend: State -> Sending<State>, doneSending: State -> bool,
                           s: State, r: seq<byte>, b: seq<byte>, delta: seq<byte>)
    ensures RefinesAt(AsLayer(upper, prepareSend, doneSending), Id, Spec(upper), s, r, b, delta)
  {
    var p, q := Spec(upper)(r), Spec(upper)(r + b);
    var layer := AsLayer(upper, prepareSend, doneSending);
    if s == p.state && !p.failed && p.consumed <= |r| && |r| + |b| - p.consumed <= p.policy.maxSize {
      var u := (r + b)[p.consumed..];
      StepRefines(upper, s, r, b, u);
      var o := layer.consume(s, u, delta);
      assert |u| < p.policy.minSize ==> q == p;
      assert q.state == o.state && Advances(o, p.consumed, p.policy, q, |r + b|);
    }
    hide Ideal, Consumed, Advances, Spec, AsLayer;
    ShowRefines(layer, Id, Spec(upper), s, r, b, delta, p, q);
  }

  lemma StepRefines(upper: Upper, s: State, r: seq<byte>, b: seq<byte>, u: seq<byte>)
    requires var p := Ideal(upper, State(DEFAULT_RECEIVE_SIZE, []), r);
             p.Parsed? && s == p.state && |r| + |b| - p.consumed <= s.bound && u == (r + b)[p.consumed..]
    ensures var st0 := State(DEFAULT_RECEIVE_SIZE, []);
            var p, q, c := Ideal(upper, st0, r), Ideal(upper, st0, r + b), Consumed(upper, s, u);
            && (|u| < 4 ==> q == p)
            && q == Shift(c, p.consumed)
            && (q.Parsed? ==> |r + b| - q.consumed < q.state.bound)
            && s.bound <= q.state.bound && 4 <= q.state.bound
  {
    var st0 := State(DEFAULT_RECEIVE_SIZE, []);
    var p := Ideal(upper, st0, r);
    assert u == r[p.consumed..] + b;
    IdealSplit(upper, st0, r, b);
    IdealRest(upper, st0, r, b);
    IdealGrows(upper, st0, r);
    IdealGrows(upper, s, u);
    ConsumedIsIdeal(upper, s, u);
    if Ideal(upper, st0, r + b).Parsed? {
      IdealRest(upper, st0, r + b, []);
    }
    hide Ideal, Consumed;
  }

  // -- round trip -------------------------------------------------------------

  /** Messages on the wire; an empty message stands for a frame of size 0. */
  function Wire(msgs: seq<Message>): seq<byte> {
    if msgs == [] then [] else Frame(msgs[0].payload) + Wire(msgs[1..])
  }

  function IfNonEmpty(msg: Message): seq<Message> {
    if msg.payload == [] then [] else [msg]
  }

  function NonEmpty(msgs: seq<Message>): seq<Message> {
    if msgs == [] then [] else IfNonEmpty(msgs[0]) + NonEmpty(msgs[1..])
  }

  lemma FrameRound(upper: Upper, st: State, msg: seq<byte>, rest: seq<byte>)
    requires |msg| <= MAX_MESSAGE_LENGTH
    ensures var w := Frame(msg) + rest;
            && |Frame(msg)| == 4 + |msg|
            && w[4 + |msg|..] == rest
            && IdealRound(upper, st, w) ==
               if msg == [] then Advance(st, 4)
               else var st' := Raise(st, |msg|).(calls := st.calls + [Message(msg)]);
                    if upper.accepts(st'.calls) then Advance(st', 4 + |msg|) else Stop(Aborted(st'))
  {
    var w := Frame(msg) + rest;
    Pow256Values();
    DecodeEncodeBE(|msg|, 4);
    assert w[..4] == EncodeBE(|msg|, 4);
    assert w[4..4 + |msg|] == msg;
    assert w[4 + |msg|..] == rest;
  }

  /** The sizes that `consume` delivers and those that `end_message` sends differ at one: a message of exactly
      `MAX_MESSAGE_LENGTH` bytes is refused by the sender and would be delivered by the receiver. */
  lemma RefusedExactly(upper: Upper, st: State, msg: seq<byte>, rest: seq<byte>)
    requires |msg| < UINT32_LIMIT && upper.accepts(st.calls + [Message(msg)])
    ensures var r := IdealRound(upper, st, Frame(msg) + rest);
            var delivered := r.Advance? && r.state.calls == st.calls + [Message(msg)];
            && (delivered <==> 0 < |msg| <= MAX_MESSAGE_LENGTH)
            && (Accepted(msg) ==> delivered)
            && (delivered && !Accepted(msg) <==> |msg| == MAX_MESSAGE_LENGTH)
  {
    if |msg| <= MAX_MESSAGE_LENGTH {
      FrameRound(upper, st, msg, rest);
    } else {
      Pow256Values();
      DecodeEncodeBE(|msg|, 4);
      assert (Frame(msg) + rest)[..4] == EncodeBE(|msg|, 4);
    }
  }

  function After(st: State, msg: Message): State {
    if msg.payload == [] then st else Raise(st, |msg.payload|).(calls := st.calls + [msg])
  }

  lemma FrameParse(upper: Upper, st: State, msg: Message, rest: seq<byte>)
    requires (msg.payload == [] || Accepted(msg.payload)) && AcceptsAll(upper)
    ensures var w := Frame(msg.payload);
            Ideal(upper, st, w + rest) == Shift(Ideal(upper, After(st, msg), rest), |w|)
    ensures After(st, msg).calls == st.calls + IfNonEmpty(msg)
  {
    FrameRound(upper, st, msg.payload, rest);
    hide IdealRound, Frame;
  }

  /** Messages `end_message` accepts, with any frames of size 0 in between. */
  predicate AllSendable(msgs: seq<Message>) {
    msgs == [] || ((msgs[0].payload == [] || Accepted(msgs[0].payload)) && AllSendable(msgs[1..]))
  }

  ghost predicate AcceptsAll(upper: Upper) {
    forall calls :: upper.accepts(calls)
  }

  /** Every list of messages `end_message` accepts arrives unchanged, in order and each once; frames of size 0 in
      between are skipped without effect. */
  lemma {:induction false} RoundTrip(upper: Upper, st: State, msgs: seq<Message>)
    requires AllSendable(msgs) && AcceptsAll(upper)
    ensures var p := Ideal(upper, st, Wire(msgs));
            p.Parsed? && p.consumed == |Wire(msgs)| && p.state.calls == st.calls + NonEmpty(msgs)
    decreases |msgs|
  {
    if msgs == [] {
      assert st.calls + [] == st.calls;
    } else {
      FrameParse(upper, st, msgs[0], Wire(msgs[1..]));
      RoundTrip(upper, After(st, msgs[0]), msgs[1..]);
      Associative(st.calls, IfNonEmpty(msgs[0]), NonEmpty(msgs[1..]));
    }
  }
}
