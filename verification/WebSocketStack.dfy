/** A WebSocket endpoint on a stream transport: the HTTP upgrade, then framing. */
module WebSocketStack {
  import opened Bytes
  import opened StreamLayer
  import opened HttpText
  import opened WebSocketHandshake
  import F = WebSocketFraming
  import T = WebSocketTheorems

  // -- text on the wire -------------------------------------------------------

  function Chars(b: seq<byte>): string {
    seq(|b|, i requires 0 <= i < |b| => b[i] as char)
  }

  predicate IsByteText(s: string) {
    forall i :: 0 <= i < |s| ==> s[i] as int < 256
  }

  function ToBytes(s: string): seq<byte> {
    seq(|s|, i requires 0 <= i < |s| => s[i] as int % 256)
  }

  lemma CharsOfBytes(s: string)
    requires IsByteText(s)
    ensures Chars(ToBytes(s)) == s
  {}

  // -- the layer --------------------------------------------------------------

  /** What `handle_header` decides about a header and writes to the output. */
  datatype Opening = Opening(accepted: bool, output: seq<byte>)

  /** One endpoint; `scribble` stands for what unmasking leaves behind in bytes that have been consumed. */
  datatype Endpoint = Endpoint(env: F.Env, onHeader: string -> Opening, scribble: seq<byte> -> seq<byte>)

  datatype Phase = Awaiting | Closed(output: seq<byte>) | Open(header: string, framing: F.State)

  const FRESH := F.Idle(F.Session([], 0, []))
  const HEADER_TOO_LARGE :=
    "HTTP/1.1 431 Request Header Fields Too Large\r\nContent-Type: text/plain\r\n\r\nHeader exceeds 2048 Bytes.\r\n"

  function Leftover(e: Endpoint, input: seq<byte>, consumed: nat): seq<byte> {
    if consumed <= |input| && |e.scribble(input)| == |input| then
      e.scribble(input)[..consumed] + input[consumed..]
    else input
  }

  function NewOutput(before: F.State, after: F.State): seq<byte> {
    if |before.session.out| <= |after.session.out| then after.session.out[|before.session.out|..] else []
  }

  /** `framing::consume` on `input[skip..]`, where the first `skip` bytes were the header. */
  function ConsumeFrames(e: Endpoint, header: string, st: F.State, input: seq<byte>, skip: nat,
                         output: seq<byte>): Outcome<Phase>
    requires skip <= |input|
  {
    match F.Parse(e.env, st, input[skip..])
    case Parsed(st', n, p) =>
      Outcome(Open(header, st'), skip + n, Leftover(e, input, skip + n), Some(p), output + NewOutput(st, st'), false)
    case Aborted(st', _) =>
      Outcome(Open(header, st'), -1, Leftover(e, input, |input|), None, output + NewOutput(st, st'), false)
  }

  /** Whether the text holds a complete header, and what becomes of it. */
  datatype Decision = Wait | Reject(output: seq<byte>) | Accept(header: string, size: nat, output: seq<byte>)

  function Decide(e: Endpoint, text: string): (d: Decision)
    ensures d.Accept? ==> 0 < d.size <= |text|
    ensures d.Wait? ==> |text| < MAX_HTTP_SIZE
  {
    var end := Find(text, END_OF_HEADER);
    if end.None? then
      if |text| >= MAX_HTTP_SIZE then Reject(ToBytes(HEADER_TOO_LARGE)) else Wait
    else
      var size := end.value + 4;
      var o := e.onHeader(text[..size]);
      if o.accepted then Accept(text[..size], size, o.output) else Reject(o.output)
  }

  /** `consume` of the server and of the client. */
  function Consume(e: Endpoint, st: Phase, input: seq<byte>): Outcome<Phase> {
    match st
    case Open(header, f) => ConsumeFrames(e, header, f, input, 0, [])
    case Closed(refusal) => Outcome(Closed(refusal), -1, input, None, [], false)
    case Awaiting =>
      match Decide(e, Chars(input))
      case Wait => Outcome(Awaiting, 0, input, None, [], false)
      case Reject(output) => Outcome(Closed(output), -1, input, None, output, false)
      case Accept(header, size, output) =>
        if size == |input| then Outcome(Open(header, FRESH), size, input, None, output, false)
        else ConsumeFrames(e, header, FRESH, input, size, output)
  }

  function AsLayer(e: Endpoint, prepareSend: Phase -> Sending<Phase>, doneSending: Phase -> bool): Layer<Phase> {
    Layer((st, input, delta) => Consume(e, st, input), prepareSend, doneSending)
  }

  // -- what the endpoint should have done after the bytes `r` ------------------

  function First2048(r: seq<byte>): seq<byte> {
    if |r| <= MAX_HTTP_SIZE then r else r[..MAX_HTTP_SIZE]
  }

  function Framed(header: string, p: F.Parsed, size: nat): Progress<Phase> {
    if p.Parsed? then Progress(Open(header, p.state), size + p.consumed, p.policy, false)
    else Progress(Open(header, p.state), 0, UpTo(MAX_HTTP_SIZE), true)
  }

  function Progressed(e: Endpoint, r: seq<byte>): Progress<Phase> {
    match Decide(e, Chars(First2048(r)))
    case Wait => Progress(Awaiting, 0, UpTo(MAX_HTTP_SIZE), false)
    case Reject(output) => Progress(Closed(output), 0, UpTo(MAX_HTTP_SIZE), true)
    case Accept(header, size, _) => Framed(header, F.Parse(e.env, FRESH, r[size..]), size)
  }

  /** With `blind`, the view hides the keys drawn and the output shipped, which sending changes as well. */
  function Shown(blind: bool, st: Phase): Phase {
    if blind && st.Open? then Open(st.header, T.Erase(st.framing)) else st
  }

  function View(blind: bool): Phase -> Phase {
    (st: Phase) => Shown(blind, st)
  }

  function Spec(e: Endpoint, blind: bool): seq<byte> -> Progress<Phase> {
    r => var p := Progressed(e, r); p.(state := Shown(blind, p.state))
  }

  // -- what has been written ------------------------------------------------------------------------------------------

  /** The answer to the header, followed by every frame shipped. */
  function Written(e: Endpoint, st: Phase): seq<byte> {
    match st
    case Awaiting => []
    case Closed(output) => output
    case Open(header, framing) => e.onHeader(header).output + framing.session.out
  }

  function Output(e: Endpoint): Phase -> seq<byte> {
    (st: Phase) => Written(e, st)
  }

  lemma FramesWritten(e: Endpoint, header: string, st: F.State, input: seq<byte>, skip: nat, output: seq<byte>)
    requires skip <= |input|
    ensures var o := ConsumeFrames(e, header, st, input, skip, output);
            && o.state.Open? && o.state.header == header
            && o.output == output + NewOutput(st, o.state.framing)
            && o.state.framing.session.out == st.session.out + NewOutput(st, o.state.framing)
  {
    hide F.Parse, Leftover;
    T.OutputGrows(e.env, st, input[skip..]);
  }

  lemma ConsumeWrites(e: Endpoint, st: Phase, input: seq<byte>)
    ensures var o := Consume(e, st, input); Written(e, o.state) == Written(e, st) + o.output
  {
    hide F.Parse, ConsumeFrames, Find;
    match st
    case Open(header, f) =>
      FramesWritten(e, header, f, input, 0, []);
      var more := NewOutput(f, ConsumeFrames(e, header, f, input, 0, []).state.framing);
      hide NewOutput;
      assert [] + more == more;
      Associative(e.onHeader(header).output, f.session.out, more);
    case Closed(_) =>
    case Awaiting =>
      var d := Decide(e, Chars(input));
      if d.Accept? && d.size != |input| {
        FramesWritten(e, d.header, FRESH, input, d.size, d.output);
      }
  }

  /** Everything an endpoint writes is the answer to the header and the frames it ships. */
  lemma EndpointShips(e: Endpoint, prepareSend: Phase -> Sending<Phase>, doneSending: Phase -> bool)
    requires forall s :: SendShips(AsLayer(e, prepareSend, doneSending), Output(e), s)
    ensures Ships(AsLayer(e, prepareSend, doneSending), Output(e))
  {
    var layer := AsLayer(e, prepareSend, doneSending);
    forall s, input, delta ensures ConsumeShips(layer, Output(e), s, input, delta) {
      ConsumeWrites(e, s, input);
      hide Consume, Written;
    }
  }

  // -- any chunking -----------------------------------------------------------

  lemma LayerWellBehaved(e: Endpoint, prepareSend: Phase -> Sending<Phase>, doneSending: Phase -> bool)
    ensures WellBehaved(AsLayer(e, prepareSend, doneSending))
  {
    var layer := AsLayer(e, prepareSend, doneSending);
    forall s, input, delta ensures WellBehavedAt(layer, s, input, delta) {
      ConsumesWithin(e, s, input);
      hide Consume;
    }
  }

  /** A call consumes at most its input, and writes to what it consumes only. */
  lemma ConsumesWithin(e: Endpoint, s: Phase, input: seq<byte>)
    ensures var o := Consume(e, s, input);
            && o.consumed <= |input| == |o.input|
            && (0 <= o.consumed ==> o.input[o.consumed..] == input[o.consumed..])
  {
    hide F.Parse, Decide, ConsumeFrames;
    match s
    case Open(header, f) => FramesWithin(e, header, f, input, 0, []);
    case Closed(_) =>
    case Awaiting =>
      var d := Decide(e, Chars(input));
      if d.Accept? {
        FramesWithin(e, d.header, FRESH, input, d.size, d.output);
      }
  }

  lemma FramesWithin(e: Endpoint, header: string, st: F.State, input: seq<byte>, skip: nat, output: seq<byte>)
    requires skip <= |input|
    ensures var o := ConsumeFrames(e, header, st, input, skip, output);
            && o.consumed <= |input| == |o.input|
            && (0 <= o.consumed ==> o.input[o.consumed..] == input[o.consumed..])
  {
    hide F.Parse;
  }

  /** A decision on a header is final: all prefixes of the stream that contain it agree. */
  lemma DecisionStable(e: Endpoint, r: seq<byte>, b: seq<byte>)
    requires Decide(e, Chars(First2048(r))) != Wait
    ensures Decide(e, Chars(First2048(r + b))) == Decide(e, Chars(First2048(r)))
  {
    var a, c := Chars(First2048(r)), Chars(First2048(r + b));
    assert c == a + c[|a|..];
    if Find(a, END_OF_HEADER).Some? {
      FindStable(a, c[|a|..], END_OF_HEADER);
      var size := Find(a, END_OF_HEADER).value + 4;
      assert c[..size] == a[..size];
    } else {
      assert a == c;
    }
  }

  /** The call `o` leads to what `q` says, as far as is shown. */
  predicate LeadsTo(blind: bool, o: Outcome<Phase>, consumed: nat, policy: Policy, q: Progress<Phase>, total: nat) {
    Shown(blind, q.state) == Shown(blind, o.state) && Advances(o, consumed, policy, q, total)
  }

  /** The header has just been accepted: the framing starts on what follows it. */
  lemma FirstFrames(e: Endpoint, blind: bool, header: string, input: seq<byte>, size: nat, output: seq<byte>)
    requires 0 < size <= |input|
    ensures LeadsTo(blind, ConsumeFrames(e, header, FRESH, input, size, output), 0, UpTo(MAX_HTTP_SIZE),
                    Framed(header, F.Parse(e.env, FRESH, input[size..]), size), |input|)
  {
    hide F.Parse, Leftover;
    var rest := input[size..];
    if F.Parse(e.env, FRESH, rest).Parsed? {
      T.ParseRest(e.env, FRESH, rest, []);
    }
  }

  lemma AwaitingRefines(e: Endpoint, blind: bool, r: seq<byte>, b: seq<byte>)
    requires Progressed(e, r).state == Awaiting && |r + b| <= MAX_HTTP_SIZE
    ensures LeadsTo(blind, Consume(e, Awaiting, r + b), 0, UpTo(MAX_HTTP_SIZE), Progressed(e, r + b), |r + b|)
  {
    hide Decide, LeadsTo;
    var input := r + b;
    assert First2048(input) == input;
    match Decide(e, Chars(input))
    case Wait => AwaitingLeads(e, blind, input);
    case Reject(_) => AwaitingLeads(e, blind, input);
    case Accept(header, size, output) =>
      if size == |input| {
        AwaitingLeads(e, blind, input);
      } else {
        FirstFrames(e, blind, header, input, size, output);
      }
  }

  /** The calls that do not reach the framing. */
  lemma AwaitingLeads(e: Endpoint, blind: bool, input: seq<byte>)
    requires |input| <= MAX_HTTP_SIZE
    requires Decide(e, Chars(input)).Accept? ==> Decide(e, Chars(input)).size == |input|
    ensures LeadsTo(blind, Consume(e, Awaiting, input), 0, UpTo(MAX_HTTP_SIZE), Progressed(e, input), |input|)
  {
    hide Decide;
    if Decide(e, Chars(input)).Accept? {
      assert input[|input|..] == [];
      F.ParseNothing(e.env, FRESH);
      hide F.Parse;
    }
  }

  /** Frames after the header, some of which have been processed already; `u` is what is left with what arrives. */
  lemma LaterFrames(e: Endpoint, blind: bool, header: string, size: nat, body: seq<byte>, b: seq<byte>, st: F.State,
                    p: F.Parsed, u: seq<byte>)
    requires p == F.Parse(e.env, FRESH, body) && p.Parsed? && u == body[p.consumed..] + b
    requires Shown(blind, Open(header, st)) == Shown(blind, Open(header, p.state))
    ensures var q := F.Parse(e.env, FRESH, body + b);
            && (|u| < p.policy.minSize ==> q == p)
            && LeadsTo(blind, ConsumeFrames(e, header, st, u, 0, []), size + p.consumed, p.policy,
                       Framed(header, q, size), size + |body + b|)
  {
    hide F.Parse, Leftover, NewOutput, T.Erase;
    T.ParseNext(e.env, FRESH, body, b, st);
    assert u[0..] == u;
  }

  /** Once the header is there, more bytes only extend the frames. */
  lemma OpenExtends(e: Endpoint, r: seq<byte>, b: seq<byte>) returns (header: string, size: nat)
    requires Progressed(e, r).state.Open?
    ensures size <= |r|
    ensures Progressed(e, r) == Framed(header, F.Parse(e.env, FRESH, r[size..]), size)
    ensures Progressed(e, r + b) == Framed(header, F.Parse(e.env, FRESH, r[size..] + b), size)
  {
    DecisionStable(e, r, b);
    hide Decide, F.Parse;
    var d := Decide(e, Chars(First2048(r)));
    header, size := d.header, d.size;
    assert size <= |First2048(r)| <= |r|;
    DropAppended(r, b, size);
  }

  lemma OpenRefines(e: Endpoint, blind: bool, s: Phase, r: seq<byte>, b: seq<byte>, p: Progress<Phase>, u: seq<byte>)
    requires p == Progressed(e, r) && !p.failed && p.state.Open? && s.Open?
    requires Shown(blind, s) == Shown(blind, p.state)
    requires p.consumed <= |r| && u == (r + b)[p.consumed..]
    ensures |u| < p.policy.minSize ==> Progressed(e, r + b) == p
    ensures LeadsTo(blind, Consume(e, s, u), p.consumed, p.policy, Progressed(e, r + b), |r + b|)
  {
    var header, size, body, parsed := OpenForm(e, blind, s, r, b, p, u);
    hide *;
    LaterFrames(e, blind, header, size, body, b, s.framing, parsed, u);
  }

  /** Both ends of the step in terms of the frames behind the header. */
  lemma OpenForm(e: Endpoint, blind: bool, s: Phase, r: seq<byte>, b: seq<byte>, p: Progress<Phase>, u: seq<byte>)
    returns (header: string, size: nat, body: seq<byte>, parsed: F.Parsed)
    requires p == Progressed(e, r) && !p.failed && p.state.Open? && s.Open?
    requires Shown(blind, s) == Shown(blind, p.state)
    requires p.consumed <= |r| && u == (r + b)[p.consumed..]
    ensures parsed == F.Parse(e.env, FRESH, body) && parsed.Parsed? && p == Framed(header, parsed, size)
    ensures p.consumed == size + parsed.consumed && p.policy == parsed.policy
    ensures u == body[parsed.consumed..] + b && |r + b| == size + |body + b|
    ensures Shown(blind, Open(header, s.framing)) == Shown(blind, Open(header, parsed.state))
    ensures Consume(e, s, u) == ConsumeFrames(e, header, s.framing, u, 0, [])
    ensures Progressed(e, r + b) == Framed(header, F.Parse(e.env, FRESH, body + b), size)
  {
    hide Progressed, ConsumeFrames, F.Parse, T.Erase;
    header, size := OpenExtends(e, r, b);
    body := r[size..];
    parsed := F.Parse(e.env, FRESH, body);
    assert (r + b)[size + parsed.consumed..] == body[parsed.consumed..] + b;
  }

  /** However the transport cuts the stream, the endpoint stands where one pass over all received bytes stands: same
      header, same upper-layer calls, same verdict, and always room for the next read. Without `blind` the keys drawn
      and the frames shipped in reply are the same as well. */
  lemma LayerRefinesSpec(e: Endpoint, blind: bool, prepareSend: Phase -> Sending<Phase>, doneSending: Phase -> bool)
    ensures Refines(AsLayer(e, prepareSend, doneSending), View(blind), Spec(e, blind))
  {
    var layer := AsLayer(e, prepareSend, doneSending);
    forall s, r, b, delta ensures RefinesAt(layer, View(blind), Spec(e, blind), s, r, b, delta) {
      LayerRefinesSpecAt(e, blind, prepareSend, doneSending, s, r, b, delta);
    }
  }

  lemma AwaitingProgress(e: Endpoint, r: seq<byte>)
    requires !Progressed(e, r).failed && !Progressed(e, r).state.Open?
    ensures Progressed(e, r) == Progress(Awaiting, 0, UpTo(MAX_HTTP_SIZE), false)
  {}

  lemma LayerRefinesSpecAt(e: Endpoint, blind: bool, prepareSend: Phase -> Sending<Phase>, doneSending: Phase -> bool,
                           s: Phase, r: seq<byte>, b: seq<byte>, delta: seq<byte>)
    ensures RefinesAt(AsLayer(e, prepareSend, doneSending), View(blind), Spec(e, blind), s, r, b, delta)
  {
    hide Progressed, Consume;
    var p, q := Progressed(e, r), Progressed(e, r + b);
    var layer, view, spec := AsLayer(e, prepareSend, doneSending), View(blind), Spec(e, blind);
    var sp, sq := spec(r), spec(r + b);
    assert sp == p.(state := Shown(blind, p.state)) && sq == q.(state := Shown(blind, q.state));
    if view(s) == sp.state && !p.failed && p.consumed <= |r| && |r| + |b| - p.consumed <= p.policy.maxSize {
      var u := (r + b)[p.consumed..];
      StepRefines(e, blind, s, r, b, p, u);
      assert layer.consume(s, u, delta) == Consume(e, s, u);
      assert view(Consume(e, s, u).state) == Shown(blind, Consume(e, s, u).state);
    }
    hide *;
    ShowRefines(layer, view, spec, s, r, b, delta, sp, sq);
  }

  lemma StepRefines(e: Endpoint, blind: bool, s: Phase, r: seq<byte>, b: seq<byte>, p: Progress<Phase>, u: seq<byte>)
    requires p == Progressed(e, r) && !p.failed && Shown(blind, s) == Shown(blind, p.state)
    requires p.consumed <= |r| && |r| + |b| - p.consumed <= p.policy.maxSize && u == (r + b)[p.consumed..]
    ensures var q, o := Progressed(e, r + b), Consume(e, s, u);
            && (|u| < p.policy.minSize ==> q == p)
            && Shown(blind, q.state) == Shown(blind, o.state)
            && Advances(o, p.consumed, p.policy, q, |r + b|)
  {
    hide Consume, Advances;
    if p.state.Open? {
      OpenRefines(e, blind, s, r, b, p, u);
      hide Progressed;
    } else {
      AwaitingProgress(e, r);
      hide Progressed;
      assert u == r + b;
      AwaitingRefines(e, blind, r, b);
      assert |u| < 1 ==> r + b == r;
    }
  }
}
