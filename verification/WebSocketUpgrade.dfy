/** The layer that performs the upgrade and then hands the stream to the framing, on the real buffers. */
module WebSocketUpgrade {
  import opened Bytes
  import opened StreamLayer
  import opened HttpText
  import opened WebSocketHandshake
  import opened WebSocketStack
  import opened Rfc6455
  import F = WebSocketFraming
  import T = WebSocketTheorems

  // -- what is in the output buffer already does not matter -----------------------------------------------------------

  function Behind(pre: seq<byte>, s: F.Session): F.Session {
    s.(out := pre + s.out)
  }

  function StateBehind(pre: seq<byte>, st: F.State): F.State {
    st.(session := Behind(pre, st.session))
  }

  lemma ShipBehind(env: F.Env, s: F.Session, pre: seq<byte>, opcode: nibble, payload: seq<byte>)
    ensures F.Ship(env, Behind(pre, s), opcode, payload) == Behind(pre, F.Ship(env, s, opcode, payload))
  {
    var key := F.OutKey(env, s.draws);
    hide Frame, Mask;
    Associative(pre, s.out, Frame(true, opcode, key, Mask(key, payload)));
  }

  lemma {:induction false} ShipAllBehind(env: F.Env, s: F.Session, pre: seq<byte>, ms: seq<F.Message>)
    ensures F.ShipAll(env, Behind(pre, s), ms) == Behind(pre, F.ShipAll(env, s, ms))
    decreases |ms|
  {
    if ms != [] {
      ShipBehind(env, s, pre, F.Opcode(ms[0]), ms[0].payload);
      hide F.Ship;
      ShipAllBehind(env, F.Ship(env, s, F.Opcode(ms[0]), ms[0].payload), pre, ms[1..]);
    }
  }

  lemma HandleBehind(env: F.Env, s: F.Session, pre: seq<byte>, opcode: nat, payload: seq<byte>)
    ensures var h := F.Handle(env, s, opcode, payload);
            F.Handle(env, Behind(pre, s), opcode, payload) == h.(session := Behind(pre, h.session))
  {
    hide F.Ship, F.ShipAll;
    var m := if opcode == TEXT_FRAME then F.Text(payload) else F.Binary(payload);
    ShipBehind(env, s, pre, PONG, payload);
    ShipAllBehind(env, s.(calls := s.calls + [m]), pre, env.upper(s.calls + [m]).replies);
  }

  lemma FrameBehind(env: F.Env, st: F.State, pre: seq<byte>, hdr: Header, payload: seq<byte>)
    ensures var step := F.OnFrame(env, st, hdr, payload);
            F.OnFrame(env, StateBehind(pre, st), hdr, payload) == step.(state := StateBehind(pre, step.state))
  {
    hide F.Handle;
    HandleBehind(env, st.session, pre, hdr.opcode, payload);
    HandleBehind(env, st.session, pre, st.opcode, st.payloadBuf + payload);
  }

  function ParsedBehind(pre: seq<byte>, p: F.Parsed): F.Parsed {
    p.(state := StateBehind(pre, p.state))
  }

  lemma RoundBehind(env: F.Env, st: F.State, pre: seq<byte>, data: seq<byte>)
    ensures F.NextRound(env, StateBehind(pre, st), data) ==
            match F.NextRound(env, st, data)
            case Stop(p) => F.Round.Stop(ParsedBehind(pre, p))
            case Advance(st', size) => F.Advance(StateBehind(pre, st'), size)
  {
    hide F.OnFrame, Mask, Decode;
    if Decode(data).Complete? {
      var Complete(hdr, n) := Decode(data);
      if n + hdr.payloadLen <= |data| {
        FrameBehind(env, st, pre, hdr, Mask(hdr.maskKey, data[n..n + hdr.payloadLen]));
      }
    }
  }

  lemma {:induction false} ParseBehind(env: F.Env, st: F.State, pre: seq<byte>, data: seq<byte>)
    ensures F.Parse(env, StateBehind(pre, st), data) == ParsedBehind(pre, F.Parse(env, st, data))
    decreases |data|
  {
    RoundBehind(env, st, pre, data);
    hide F.NextRound;
    match F.NextRound(env, st, data)
    case Stop(_) =>
    case Advance(st', size) => ParseBehind(env, st', pre, data[size..]);
  }

  // -- the layer ------------------------------------------------------------------------------------------------------

  /** Server and client: they differ in what they do with a header, which is `e.onHeader`. */
  class Upgrade {
    const e: Endpoint
    const writer: FrameWriter
    const framing: F.Framing
    var complete: bool
    /** Set once a header has been rejected. */
    var rejected: bool
    var header: string
    /** The output from before the framing, and the state of the framing without it. */
    ghost var before: seq<byte>
    /** What was written when the header was rejected. */
    ghost var refusal: seq<byte>
    ghost var state: F.State

    ghost predicate Valid()
      reads this, framing, writer
    {
      && framing.env == e.env && framing.writer == writer && !(complete && rejected)
      && (complete ==> framing.Abs() == StateBehind(before, state))
      && (!complete ==> framing.Abs() == F.Idle(F.Session([], 0, writer.out)))
    }

    ghost function Abs(): Phase
      reads this
    {
      if complete then Open(header, state) else if rejected then Closed(refusal) else Awaiting
    }

    constructor (e: Endpoint)
      ensures Valid() && Abs() == Awaiting && this.e == e && fresh(writer) && fresh(framing) && writer.out == []
    {
      this.e := e;
      var w := new FrameWriter([]);
      writer := w;
      framing := new F.Framing(e.env, w);
      complete, rejected, header := false, false, "";
      before, refusal, state := [], [], FRESH;
    }

    /** `consume`: the bytes `buf[..hi]` have been received and not been consumed yet. */
    method Consume(buf: array<byte>, hi: nat) returns (res: int, policy: Option<Policy>)
      requires Valid() && hi <= buf.Length
      requires forall h, r :: r in e.env.upper(h).replies ==> |r.payload| < UINT64_LIMIT
      modifies this, framing, writer, buf
      ensures Valid()
      ensures var o := WebSocketStack.Consume(e, old(Abs()), old(buf[..hi]));
              res == o.consumed && Abs() == o.state && policy == o.policy && writer.out == old(writer.out) + o.output
      ensures forall j :: 0 <= j < buf.Length && !(0 <= j < if res < 0 then hi else res) ==> buf[j] == old(buf[j])
    {
      hide F.Parse, Find;
      if complete {
        ghost var input := buf[..hi];
        assert buf[0..hi] == input[0..];
        res, policy := ConsumeFrames(buf, 0, hi, []);
        return;
      }
      if rejected {
        return -1, None;
      }
      res, policy := ConsumeHeader(buf, hi);
    }

    /** `consume` before the handshake is complete. */
    method ConsumeHeader(buf: array<byte>, hi: nat) returns (res: int, policy: Option<Policy>)
      requires Valid() && hi <= buf.Length && !complete && !rejected
      requires forall h, r :: r in e.env.upper(h).replies ==> |r.payload| < UINT64_LIMIT
      modifies this, framing, writer, buf
      ensures Valid()
      ensures var o := WebSocketStack.Consume(e, old(Abs()), old(buf[..hi]));
              res == o.consumed && Abs() == o.state && policy == o.policy && writer.out == old(writer.out) + o.output
      ensures forall j :: 0 <= j < buf.Length && !(0 <= j < if res < 0 then hi else res) ==> buf[j] == old(buf[j])
    {
      hide F.Parse, Find;
      var text := Chars(buf[..hi]);
      var end := Find(text, END_OF_HEADER);
      if end.None? {
        if hi < MAX_HTTP_SIZE {
          return 0, None;
        }
        Reject(ToBytes(HEADER_TOO_LARGE));
        return -1, None;
      }
      var size := end.value + 4;
      var o := e.onHeader(text[..size]);
      if !o.accepted {
        Reject(o.output);
        return -1, None;
      }
      Accept(text[..size], o.output);
      if size == hi {
        return size, None;
      }
      assert buf[size..hi] == buf[..hi][size..];
      res, policy := ConsumeFrames(buf, size, hi, o.output);
    }

    method Reject(output: seq<byte>)
      requires Valid() && !complete
      modifies this`rejected, this`refusal, writer
      ensures Valid() && Abs() == Closed(output) && writer.out == old(writer.out) + output
    {
      writer.out := writer.out + output;
      rejected, refusal := true, output;
    }

    method Accept(text: string, output: seq<byte>)
      requires Valid() && !complete && !rejected
      modifies this, writer
      ensures Valid() && Abs() == Open(text, FRESH) && writer.out == old(writer.out) + output
    {
      writer.out := writer.out + output;
      complete, header, before, state := true, text, writer.out, FRESH;
      assert before + [] == before;
    }

    /** Hands `buf[skip..hi]` to the framing; `output` is what has been written in the same call before. */
    method ConsumeFrames(buf: array<byte>, skip: nat, hi: nat, ghost output: seq<byte>)
      returns (res: int, policy: Option<Policy>)
      requires Valid() && complete && skip <= hi <= buf.Length
      requires forall h, r :: r in e.env.upper(h).replies ==> |r.payload| < UINT64_LIMIT
      modifies this`state, framing, writer, buf
      ensures Valid() && complete && header == old(header)
      ensures var p := F.Parse(e.env, old(state), old(buf[skip..hi]));
              && state == p.state && res == (if p.Parsed? then skip + p.consumed else -1)
              && policy == (if p.Parsed? then Some(p.policy) else None)
              && writer.out == old(writer.out) + NewOutput(old(state), p.state)
      ensures forall j :: 0 <= j < buf.Length && !(skip <= j < if res < 0 then hi else res) ==> buf[j] == old(buf[j])
    {
      hide F.Parse;
      ghost var data, st := buf[skip..hi], state;
      ParseBehind(e.env, st, before, data);
      T.OutputGrows(e.env, st, data);
      var p, reason;
      res, p, reason := framing.Consume(buf, skip, hi);
      state := F.Parse(e.env, st, data).state;
      assert before + state.session.out == (before + st.session.out) + NewOutput(st, state);
      policy := None;
      if res >= 0 {
        res, policy := skip + res, Some(p);
      }
    }
  }
}
