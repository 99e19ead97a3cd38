/** RFC 6455 framing: the frame loop, reassembly of fragments, upper-layer calls and outgoing frames. */
module WebSocketFraming {
  import opened Bytes
  import opened Rfc6455
  import opened StreamLayer

  const MAX_FRAME_SIZE: nat := INT32_MAX
  const NIL_CODE: nat := 0xFF

  datatype Message = Text(payload: seq<byte>) | Binary(payload: seq<byte>)

  /** `Unset` means that -1 was returned without an abort reason. */
  datatype Abort = InvalidHeader | FrameTooLarge | ExpectedContinuation | NoPriorOpcode | PayloadTooLarge
                 | ConnectionClosed | Unset

  /** How the upper layer answers a call, given all calls up to this one. */
  datatype Reaction = Reaction(accepted: bool, replies: seq<Message>)

  /** Everything the framing depends on besides the input: the upper layer, the random keys and the masking flag. */
  datatype Env = Env(upper: seq<Message> -> Reaction, keys: nat -> Key, maskOutgoing: bool)

  /** Calls made to the upper layer, keys drawn and bytes appended to the output buffer so far. */
  datatype Session = Session(calls: seq<Message>, draws: nat, out: seq<byte>)

  datatype State = State(opcode: nat, payloadBuf: seq<byte>, session: Session)

  function Idle(s: Session): State {
    State(NIL_CODE, [], s)
  }

  // -- outgoing frames --------------------------------------------------------

  function Opcode(m: Message): nibble {
    if m.Text? then TEXT_FRAME else BINARY_FRAME
  }

  function OutKey(env: Env, draws: nat): Key {
    if env.maskOutgoing then env.keys(draws) else 0
  }

  function NextDraw(env: Env, draws: nat): nat {
    if env.maskOutgoing then draws + 1 else draws
  }

  function Ship(env: Env, s: Session, opcode: nibble, payload: seq<byte>): Session
  {
    var key := OutKey(env, s.draws);
    Session(s.calls, NextDraw(env, s.draws),
            s.out + Frame(true, opcode, key, Mask(key, payload)))
  }

  function ShipAll(env: Env, s: Session, ms: seq<Message>): Session
    decreases |ms|
  {
    if ms == [] then s else ShipAll(env, Ship(env, s, Opcode(ms[0]), ms[0].payload), ms[1..])
  }

  // -- incoming frames --------------------------------------------------------

  datatype Handled = Handled(session: Session, failure: Option<Abort>)

  function Upcall(env: Env, s: Session, m: Message): Handled {
    var calls := s.calls + [m];
    var r := env.upper(calls);
    Handled(ShipAll(env, s.(calls := calls), r.replies), if r.accepted then None else Some(Unset))
  }

  /** `handle`: dispatches one complete message or control frame. */
  function Handle(env: Env, s: Session, opcode: nat, payload: seq<byte>): Handled {
    if opcode == TEXT_FRAME then Upcall(env, s, Text(payload))
    else if opcode == BINARY_FRAME then Upcall(env, s, Binary(payload))
    else if opcode == CONNECTION_CLOSE then Handled(s, Some(ConnectionClosed))
    else if opcode == PING then Handled(Ship(env, s, PONG, payload), None)
    else if opcode == PONG then Handled(s, None)
    else Handled(s, Some(Unset))
  }

  datatype Step = Step(state: State, failure: Option<Abort>)

  function Reassemble(env: Env, st: State): Step {
    var h := Handle(env, st.session, st.opcode, st.payloadBuf);
    if h.failure.Some? then Step(st.(session := h.session), h.failure) else Step(Idle(h.session), None)
  }

  /** One complete frame with its unmasked payload. */
  function OnFrame(env: Env, st: State, hdr: Header, payload: seq<byte>): Step {
    if hdr.fin then
      if st.opcode == NIL_CODE then
        var h := Handle(env, st.session, hdr.opcode, payload);
        Step(st.(session := h.session), h.failure)
      else if hdr.opcode != CONTINUATION_FRAME then Step(st, Some(ExpectedContinuation))
      else if |st.payloadBuf| + |payload| > MAX_FRAME_SIZE then Step(st, Some(PayloadTooLarge))
      else Reassemble(env, st.(payloadBuf := st.payloadBuf + payload))
    else if st.opcode == NIL_CODE then
      if hdr.opcode == CONTINUATION_FRAME then Step(st, Some(NoPriorOpcode))
      else Step(st.(opcode := hdr.opcode, payloadBuf := st.payloadBuf + payload), None)
    else if hdr.opcode != CONTINUATION_FRAME then Step(st, Some(ExpectedContinuation))
    else if |st.payloadBuf| + |payload| > MAX_FRAME_SIZE then Step(st, Some(PayloadTooLarge))
    else Step(st.(payloadBuf := st.payloadBuf + payload), None)
  }

  lemma Subslice(s: seq<byte>, lo: nat, hi: nat, a: nat, b: nat)
    requires lo <= hi <= |s| && a <= b <= hi - lo
    ensures s[lo..hi][a..b] == s[lo + a..lo + b]
  {
    var u, v := s[lo..hi][a..b], s[lo + a..lo + b];
    assert |u| == |v| && forall k :: 0 <= k < |u| ==> u[k] == v[k];
  }

  datatype Parsed = Parsed(state: State, consumed: nat, policy: Policy) | Aborted(state: State, reason: Abort)

  function Shift(p: Parsed, n: nat): Parsed {
    if p.Parsed? then p.(consumed := p.consumed + n) else p
  }

  predicate TooLarge(hdr: Header, hdrBytes: nat) {
    hdr.payloadLen + hdrBytes >= MAX_FRAME_SIZE
  }

  /** One round of the frame loop: either the loop ends or it advances by a frame of `size` bytes. */
  datatype Round = Stop(result: Parsed) | Advance(state: State, size: nat)

  function NextRound(env: Env, st: State, data: seq<byte>): (r: Round)
    ensures r.Advance? ==> 0 < r.size <= |data|
    ensures r.Stop? && r.result.Parsed? ==> r.result.state == st && r.result.consumed == 0
  {
    match Decode(data)
    case Invalid => Stop(Aborted(st, InvalidHeader))
    case Incomplete => Stop(Parsed(st, 0, UpTo(2048)))
    case Complete(hdr, n) =>
      if TooLarge(hdr, n) then Stop(Aborted(st, FrameTooLarge))
      else if |data| < n + hdr.payloadLen then Stop(Parsed(st, 0, Exactly(n + hdr.payloadLen)))
      else
        var step := OnFrame(env, st, hdr, Mask(hdr.maskKey, data[n..n + hdr.payloadLen]));
        if step.failure.Some? then Stop(Aborted(step.state, step.failure.value))
        else Advance(step.state, n + hdr.payloadLen)
  }

  /** All frames at the front of `data`, one after the other. */
  function Parse(env: Env, st: State, data: seq<byte>): (p: Parsed)
    ensures p.Parsed? ==> p.consumed <= |data|
    decreases |data|
  {
    match NextRound(env, st, data)
    case Stop(p) => p
    case Advance(st', size) => Shift(Parse(env, st', data[size..]), size)
  }

  lemma ParseNothing(env: Env, st: State)
    ensures Parse(env, st, []) == Parsed(st, 0, UpTo(2048))
  {}

  // -- the framing class ------------------------------------------------------

  class Framing {
    const env: Env
    const writer: FrameWriter
    var opcode: nat
    var payloadBuf: seq<byte>
    var calls: seq<Message>
    var draws: nat

    ghost function Sess(): Session
      reads this, writer
    {
      Session(calls, draws, writer.out)
    }

    ghost function Abs(): State
      reads this, writer
    {
      State(opcode, payloadBuf, Sess())
    }

    constructor (env: Env, writer: FrameWriter)
      ensures this.env == env && this.writer == writer
      ensures Abs() == Idle(Session([], 0, writer.out))
    {
      this.env := env;
      this.writer := writer;
      opcode, payloadBuf, calls, draws := NIL_CODE, [], [], 0;
    }

    /** `ship_frame` and `ship_pong`. */
    method ShipFrame(op: nibble, payload: seq<byte>)
      requires |payload| < UINT64_LIMIT
      modifies this`draws, writer
      ensures Sess() == Ship(env, old(Sess()), op, payload)
    {
      var maskKey: Key := 0;
      var data := payload;
      if env.maskOutgoing {
        maskKey := env.keys(draws);
        draws := draws + 1;
        data := Mask(maskKey, payload);
      } else {
        MaskTwice(0, payload);
      }
      writer.AssembleFrame(op, maskKey, data, true);
    }

    /** Calls the upper layer, which may ship replies before it returns. */
    method CallUpper(m: Message) returns (ok: bool)
      requires forall h, r :: r in env.upper(h).replies ==> |r.payload| < UINT64_LIMIT
      modifies this`calls, this`draws, writer
      ensures Handled(Sess(), if ok then None else Some(Unset)) == Upcall(env, old(Sess()), m)
    {
      calls := calls + [m];
      var r := env.upper(calls);
      ghost var start := Sess();
      var i := 0;
      while i < |r.replies|
        invariant i <= |r.replies| && calls == start.calls
        invariant ShipAll(env, start, r.replies) == ShipAll(env, Sess(), r.replies[i..])
      {
        assert r.replies[i] in env.upper(calls).replies;
        ShipFrame(Opcode(r.replies[i]), r.replies[i].payload);
        assert r.replies[i..][1..] == r.replies[i + 1..];
        i := i + 1;
      }
      ok := r.accepted;
    }

    method Dispatch(op: nat, payload: seq<byte>) returns (failure: Option<Abort>)
      requires forall h, r :: r in env.upper(h).replies ==> |r.payload| < UINT64_LIMIT
      requires |payload| < UINT64_LIMIT
      modifies this`calls, this`draws, writer
      ensures Handled(Sess(), failure) == Handle(env, old(Sess()), op, payload)
    {
      if op == TEXT_FRAME {
        var ok := CallUpper(Text(payload));
        return if ok then None else Some(Unset);
      } else if op == BINARY_FRAME {
        var ok := CallUpper(Binary(payload));
        return if ok then None else Some(Unset);
      } else if op == CONNECTION_CLOSE {
        return Some(ConnectionClosed);
      } else if op == PING {
        ShipFrame(PONG, payload);
        return None;
      } else if op == PONG {
        return None;
      }
      return Some(Unset);
    }

    /** The body of the frame loop after the payload has been unmasked. */
    method ProcessFrame(hdr: Header, payload: seq<byte>) returns (failure: Option<Abort>)
      requires forall h, r :: r in env.upper(h).replies ==> |r.payload| < UINT64_LIMIT
      requires |payload| < UINT64_LIMIT
      modifies this, writer
      ensures Step(Abs(), failure) == OnFrame(env, old(Abs()), hdr, payload)
    {
      if hdr.fin {
        if opcode == NIL_CODE {
          failure := Dispatch(hdr.opcode, payload);
        } else if hdr.opcode != CONTINUATION_FRAME {
          return Some(ExpectedContinuation);
        } else if |payloadBuf| + |payload| > MAX_FRAME_SIZE {
          return Some(PayloadTooLarge);
        } else {
          payloadBuf := payloadBuf + payload;
          failure := Dispatch(opcode, payloadBuf);
          if failure.Some? {
            return;
          }
          opcode := NIL_CODE;
          payloadBuf := [];
        }
      } else {
        if opcode == NIL_CODE {
          if hdr.opcode == CONTINUATION_FRAME {
            return Some(NoPriorOpcode);
          }
          opcode := hdr.opcode;
        } else if hdr.opcode != CONTINUATION_FRAME {
          return Some(ExpectedContinuation);
        } else if |payloadBuf| + |payload| > MAX_FRAME_SIZE {
          return Some(PayloadTooLarge);
        }
        payloadBuf := payloadBuf + payload;
        failure := None;
      }
    }

    /** One round of the loop in `consume` on `buf[lo..hi]`; the payload of a complete frame is unmasked in place. */
    method ConsumeFrame(buf: array<byte>, lo: nat, hi: nat) returns (size: nat, policy: Policy, failure: Option<Abort>)
      requires lo <= hi <= buf.Length
      requires forall h, r :: r in env.upper(h).replies ==> |r.payload| < UINT64_LIMIT
      modifies this, writer, buf
      ensures match NextRound(env, old(Abs()), old(buf[lo..hi]))
              case Stop(Parsed(st, _, p)) => size == 0 && failure == None && policy == p && Abs() == st
              case Stop(Aborted(st, why)) => failure == Some(why) && Abs() == st
              case Advance(st, n) => size == n && failure == None && Abs() == st
      ensures lo + size <= hi
      ensures forall j :: 0 <= j < buf.Length && !(lo <= j < lo + size) ==> buf[j] == old(buf[j])
    {
      hide OnFrame, Decode, Mask;
      ghost var all, data := buf[..], buf[lo..hi];
      size, policy := 0, UpTo(2048);
      var hdrBytes, hdr := DecodeHeader(buf[lo..hi]);
      if hdrBytes < 0 {
        return 0, policy, Some(InvalidHeader);
      }
      if hdrBytes == 0 {
        return 0, UpTo(2048), None;
      }
      if hdr.payloadLen >= MAX_FRAME_SIZE - hdrBytes {
        return 0, policy, Some(FrameTooLarge);
      }
      size := hdrBytes + hdr.payloadLen;
      if hi - lo < size {
        return 0, Exactly(size), None;
      }
      var body, end := lo + hdrBytes, lo + size;
      Subslice(all, lo, hi, hdrBytes, size);
      Unmask(hdr.maskKey, buf, body, end);
      failure := ProcessFrame(hdr, buf[body..end]);
    }

    method Unmask(key: Key, buf: array<byte>, lo: nat, hi: nat)
      requires lo <= hi <= buf.Length
      modifies buf
      ensures buf[lo..hi] == Mask(key, old(buf[lo..hi]))
      ensures forall j :: 0 <= j < buf.Length && !(lo <= j < hi) ==> buf[j] == old(buf[j])
    {
      if key != 0 {
        MaskData(key, buf, lo, hi);
      } else {
        MaskTwice(0, buf[lo..hi]);
      }
    }

    /** `consume`: parses `buf[lo..hi]`, unmasking payloads in place, and computes what `Parse` says. */
    method Consume(buf: array<byte>, lo: nat, hi: nat) returns (res: int, policy: Policy, reason: Abort)
      requires lo <= hi <= buf.Length
      requires forall h, r :: r in env.upper(h).replies ==> |r.payload| < UINT64_LIMIT
      modifies this, writer, buf
      ensures match Parse(env, old(Abs()), old(buf[lo..hi]))
              case Parsed(st, n, p) => res == n && policy == p && Abs() == st
              case Aborted(st, why) => res == -1 && reason == why && Abs() == st
      ensures forall j :: 0 <= j < buf.Length && !(lo <= j < if res < 0 then hi else lo + res) ==> buf[j] == old(buf[j])
    {
      hide NextRound;
      ghost var st0, data := Abs(), buf[lo..hi];
      var consumed: nat := 0;
      policy, reason := UpTo(2048), Unset;
      while true
        invariant lo + consumed <= hi
        invariant Parse(env, st0, data) == Shift(Parse(env, Abs(), data[consumed..]), consumed)
        invariant forall j :: 0 <= j < buf.Length && !(lo <= j < lo + consumed) ==> buf[j] == old(buf[j])
        decreases hi - consumed
      {
        var cur := lo + consumed;
        assert buf[cur..hi] == data[consumed..];
        ghost var st := Abs();
        var size, nextPolicy, failure := ConsumeFrame(buf, cur, hi);
        if failure.Some? {
          return -1, policy, failure.value;
        }
        if size == 0 {
          return consumed, nextPolicy, reason;
        }
        assert data[consumed..][size..] == data[consumed + size..];
        consumed := consumed + size;
        if lo + consumed == hi {
          assert data[consumed..] == [];
          ParseNothing(env, Abs());
          return consumed, UpTo(2048), reason;
        }
      }
    }
  }
}
