/** Two connected peers that look up each other's actors, in every interleaving. */
module BaspResolve {
  import opened Bytes
  import opened StreamLayer
  import opened BaspHeader
  import opened BaspApplication

  /** The operation data of all packets of one kind, in order. */
  function Ids(ps: seq<Packet>, kind: byte): seq<nat> {
    if ps == [] then []
    else
      var last := ps[|ps| - 1];
      Ids(ps[..|ps| - 1], kind) + if last.header.kind == kind then [last.header.operationData] else []
  }

  /** The listeners that have been answered, in order. */
  function AnsweredTo(es: seq<Effect>): seq<nat> {
    if es == [] then []
    else
      var last := es[|es| - 1];
      AnsweredTo(es[..|es| - 1]) + if last.Answered? then [last.listener] else []
  }

  /** The id of the `k`-th request: the 64-bit counter starts with 1 and wraps. */
  function Id(k: nat): uint64 {
    (k + 1) % UINT64_LIMIT
  }

  function FirstIds(n: nat): (r: seq<nat>)
    ensures |r| == n && forall k :: 0 <= k < n ==> r[k] == Id(k)
  {
    seq(n, k requires 0 <= k < n => Id(k))
  }

  /** Two requests have the same id exactly if their distance is a multiple of 2^64. */
  lemma SameId(j: nat, k: nat)
    requires j <= k
    ensures Id(j) == Id(k) <==> (k - j) % UINT64_LIMIT == 0
  {}

  /** `asked` are the listeners of the requests so far, `lost` counts those that were refused by the table because
      their id was pending, and `received` counts the packets that have arrived from the other peer. */
  datatype Peer = Peer(world: World, conn: Conn, received: nat, asked: seq<nat>, lost: nat)

  /** `up` until a handler reports an error. */
  datatype System = System(left: Peer, right: Peer, up: bool)

  datatype Step = Ask(atLeft: bool, path: seq<byte>, listener: nat) | Deliver(atLeft: bool)

  function AskOf(p: Peer, path: seq<byte>, listener: nat): Peer {
    var c := Resolve(p.world, p.conn, path, listener);
    if p.world.writePath(path).None? then p.(conn := c)
    else p.(conn := c, asked := p.asked + [listener],
           lost := p.lost + if p.conn.nextRequestId in p.conn.pending then 1 else 0)
  }

  /** The next packet of the other peer arrives. */
  function Arrival(p: Peer, q: Peer): Result
    requires p.received < |q.conn.packets|
  {
    var packet := q.conn.packets[p.received];
    Dispatch(p.world, p.conn.(hdr := packet.header), packet)
  }

  function Receive(p: Peer, q: Peer): Peer
    requires p.received < |q.conn.packets|
  {
    p.(conn := Arrival(p, q).conn, received := p.received + 1)
  }

  function Next(s: System, step: Step): System {
    if !s.up then s
    else
      match step
      case Ask(true, path, l) => s.(left := AskOf(s.left, path, l))
      case Ask(false, path, l) => s.(right := AskOf(s.right, path, l))
      case Deliver(true) =>
        if s.left.received < |s.right.conn.packets| then
          s.(left := Receive(s.left, s.right), up := Arrival(s.left, s.right).error.None?)
        else s
      case Deliver(false) =>
        if s.right.received < |s.left.conn.packets| then
          s.(right := Receive(s.right, s.left), up := Arrival(s.right, s.left).error.None?)
        else s
  }

  function Run(s: System, steps: seq<Step>): System
    decreases |steps|
  {
    if steps == [] then s else Run(Next(s, steps[0]), steps[1..])
  }

  // -- what `p` has asked and `q` has answered ------------------------------------------------------------------------

  function Arrived(p: Peer, q: Peer): seq<Packet> {
    if p.received <= |q.conn.packets| then q.conn.packets[..p.received] else q.conn.packets
  }

  /** How many responses of `q` have arrived. */
  function AnswerCount(p: Peer, q: Peer): nat {
    |Ids(Arrived(p, q), RESOLVE_RESPONSE)|
  }

  /** The requests of `p` for which no response has arrived yet. */
  function Outstanding(p: Peer, q: Peer): int {
    |p.asked| - AnswerCount(p, q)
  }

  /** Ids are handed out in order, answers are sent and received in the order of the requests, and exactly the requests
      without an answer are pending, each with its listener. */
  ghost predicate Link(p: Peer, q: Peer) {
    var n := |p.asked|;
    && p.received <= |q.conn.packets| && q.received <= |p.conn.packets|
    && p.conn.nextRequestId == Id(n)
    && Ids(p.conn.packets, RESOLVE_REQUEST) == FirstIds(n)
    && Ids(q.conn.packets, RESOLVE_RESPONSE) == Ids(Arrived(q, p), RESOLVE_REQUEST)
    && Table(p.conn.pending, AnsweredTo(p.conn.effects), p.asked, AnswerCount(p, q))
  }

  /** The first `m` listeners have been answered, and the pending ids are exactly those of the others, modulo 2^64, each
      with its listener; there are never more than 2^64 of them. */
  ghost predicate Table(pending: map<nat, nat>, answered: seq<nat>, asked: seq<nat>, m: nat) {
    && m <= |asked| <= m + UINT64_LIMIT && answered == asked[..m]
    && (forall k: nat :: m <= k < |asked| ==> Id(k) in pending && pending[Id(k)] == asked[k])
    && (forall id :: id in pending ==> IsOutstanding(id, m, |asked|))
  }

  ghost predicate IsOutstanding(id: nat, m: nat, n: nat) {
    exists k: nat :: m <= k < n && Id(k) == id
  }

  /** The next id is pending exactly if 2^64 requests are outstanding. */
  lemma NextIdPending(pending: map<nat, nat>, answered: seq<nat>, asked: seq<nat>, m: nat)
    requires Table(pending, answered, asked, m)
    ensures Id(|asked|) in pending <==> |asked| - m == UINT64_LIMIT
  {
    var n := |asked|;
    if Id(n) in pending {
      assert IsOutstanding(Id(n), m, n);
      var k: nat :| m <= k < n && Id(k) == Id(n);
      SameId(k, n);
    }
    if n - m == UINT64_LIMIT {
      SameId(m, n);
      assert Id(m) in pending;
    }
  }

  lemma TableAsks(pending: map<nat, nat>, answered: seq<nat>, asked: seq<nat>, m: nat, listener: nat)
    requires Table(pending, answered, asked, m) && |asked| - m < UINT64_LIMIT
    ensures Id(|asked|) !in pending
    ensures Table(pending[Id(|asked|) := listener], answered, asked + [listener], m)
  {
    NextIdPending(pending, answered, asked, m);
    var n, more := |asked|, pending[Id(|asked|) := listener];
    forall k: nat | m <= k < n + 1 ensures Id(k) in more && more[Id(k)] == (asked + [listener])[k] {
      if k < n {
        SameId(k, n);
      }
    }
    forall id | id in more ensures IsOutstanding(id, m, n + 1) {
      if id != Id(n) {
        assert IsOutstanding(id, m, n);
      }
    }
  }

  lemma TableAnswers(pending: map<nat, nat>, answered: seq<nat>, asked: seq<nat>, m: nat)
    requires Table(pending, answered, asked, m) && m < |asked|
    ensures Id(m) in pending && Table(pending - {Id(m)}, answered + [pending[Id(m)]], asked, m + 1)
  {
    var fewer := pending - {Id(m)};
    assert asked[..m + 1] == asked[..m] + [asked[m]];
    forall k: nat | m + 1 <= k < |asked| ensures Id(k) in fewer && fewer[Id(k)] == asked[k] {
      SameId(m, k);
    }
    forall id | id in fewer ensures IsOutstanding(id, m + 1, |asked|) {
      assert IsOutstanding(id, m, |asked|);
    }
  }

  lemma {:induction false} IdsConcat(a: seq<Packet>, b: seq<Packet>, kind: byte)
    ensures Ids(a + b, kind) == Ids(a, kind) + Ids(b, kind)
    decreases |b|
  {
    if b == [] {
      assert a + b == a;
    } else {
      var c, last := b[..|b| - 1], b[|b| - 1];
      IdsConcat(a, c, kind);
      assert (a + b)[..|a + b| - 1] == a + c;
      Associative(Ids(a, kind), Ids(c, kind), if last.header.kind == kind then [last.header.operationData] else []);
    }
  }

  lemma IdsOfOne(p: Packet, kind: byte)
    ensures Ids([p], kind) == if p.header.kind == kind then [p.header.operationData] else []
  {
    assert [p][..0] == [];
  }

  lemma IdsAppend(a: seq<Packet>, p: Packet, kind: byte)
    ensures Ids(a + [p], kind) == Ids(a, kind) + if p.header.kind == kind then [p.header.operationData] else []
  {
    IdsConcat(a, [p], kind);
    IdsOfOne(p, kind);
  }

  lemma AnsweredAppend(es: seq<Effect>, e: Effect)
    ensures AnsweredTo(es + [e]) == AnsweredTo(es) + if e.Answered? then [e.listener] else []
  {
    assert (es + [e])[..|es|] == es;
  }

  lemma IdsPrefix(ps: seq<Packet>, k: nat, kind: byte)
    requires k <= |ps|
    ensures Ids(ps[..k], kind) <= Ids(ps, kind)
  {
    IdsConcat(ps[..k], ps[k..], kind);
    assert ps == ps[..k] + ps[k..];
  }

  function IfKind(p: Packet, kind: byte): seq<nat> {
    if p.header.kind == kind then [p.header.operationData] else []
  }

  /** What any packet does to the tables of its receiver. */
  ghost predicate Answers(c: Conn, d: Conn, p: Packet) {
    && Ids(d.packets, RESOLVE_REQUEST) == Ids(c.packets, RESOLVE_REQUEST)
    && c.packets <= d.packets
    && d.nextRequestId == c.nextRequestId
    && var hit := p.header.kind == RESOLVE_RESPONSE && p.header.operationData in c.pending;
       && d.pending == (if hit then c.pending - {p.header.operationData} else c.pending)
       && AnsweredTo(d.effects) == AnsweredTo(c.effects) + if hit then [c.pending[p.header.operationData]] else []
  }

  lemma RequestAnswers(w: World, c: Conn, p: Packet)
    requires p.header.kind == RESOLVE_REQUEST
    ensures var r := OnResolveRequest(w, c, p);
            && Answers(c, r.conn, p)
            && (r.error.None? ==>
                  Ids(r.conn.packets, RESOLVE_RESPONSE) == Ids(c.packets, RESOLVE_RESPONSE) + [p.header.operationData])
  {
    hide Ids, AnsweredTo;
    assert AnsweredTo(c.effects) + [] == AnsweredTo(c.effects);
    var s := w.readSequence(p.payload);
    if s.Some? && s.value.size == |s.value.rest| {
      var actor := w.resolveLocal(|c.handled|, s.value.rest);
      AnsweredAppend(c.effects, Registered(actor));
      var bytes := w.writeFound(Found(actor, {}));
      if bytes.Some? {
        var q := MakePacket(RESOLVE_RESPONSE, bytes.value, p.header.operationData);
        IdsAppend(c.packets, q, RESOLVE_REQUEST);
        IdsAppend(c.packets, q, RESOLVE_RESPONSE);
      }
    }
  }

  lemma ResponseAnswers(w: World, c: Conn, p: Packet)
    requires p.header.kind == RESOLVE_RESPONSE
    ensures var d := OnResolveResponse(w, c, p).conn;
            Answers(c, d, p) && d.packets == c.packets
  {
    var id := p.header.operationData;
    if id in c.pending {
      AnsweredAppend(c.effects, Answered(c.pending[id], AnswerOf(w, c, p.payload)));
    }
    hide Ids, AnsweredTo, AnswerOf;
  }

  lemma OtherAnswers(w: World, c: Conn, p: Packet)
    requires p.header.kind != RESOLVE_REQUEST && p.header.kind != RESOLVE_RESPONSE
    ensures var d := OnMessage(w, c, p).conn;
            Answers(c, d, p) && Ids(d.packets, RESOLVE_RESPONSE) == Ids(c.packets, RESOLVE_RESPONSE)
  {
    hide Ids, AnsweredTo;
    var d := OnMessage(w, c, p).conn;
    if d.packets != c.packets {
      var q := MakePacket(DOWN_MESSAGE, w.writeReason.value, p.header.operationData);
      IdsAppend(c.packets, q, RESOLVE_REQUEST);
      IdsAppend(c.packets, q, RESOLVE_RESPONSE);
    }
    if d.effects != c.effects {
      AnsweredAppend(c.effects, d.effects[|d.effects| - 1]);
    }
  }

  lemma DispatchAnswers(w: World, c: Conn, p: Packet)
    ensures var r := Dispatch(w, c.(hdr := p.header), p);
            && Answers(c, r.conn, p)
            && (r.error.None? ==>
                  Ids(r.conn.packets, RESOLVE_RESPONSE) ==
                      Ids(c.packets, RESOLVE_RESPONSE) + IfKind(p, RESOLVE_REQUEST))
  {
    hide OnResolveRequest, OnResolveResponse, OnMonitor, OnDown, Ids, AnsweredTo;
    var c' := c.(hdr := p.header, handled := c.handled + [p]);
    assert Dispatch(w, c.(hdr := p.header), p) == OnMessage(w, c', p);
    if p.header.kind == RESOLVE_REQUEST {
      RequestAnswers(w, c', p);
    } else if p.header.kind == RESOLVE_RESPONSE {
      ResponseAnswers(w, c', p);
    } else {
      OtherAnswers(w, c', p);
    }
  }

  // -- every step keeps the links -------------------------------------------------------------------------------------

  /** A request loses its listener exactly if 2^64 requests are outstanding. */
  lemma LosesExactly(p: Peer, q: Peer, path: seq<byte>, listener: nat)
    requires Link(p, q) && p.world.writePath(path).Some?
    ensures AskOf(p, path, listener).lost == p.lost + if Outstanding(p, q) == UINT64_LIMIT then 1 else 0
    ensures AskOf(p, path, listener).lost == p.lost ==>
              AskOf(p, path, listener).conn.pending == p.conn.pending[p.conn.nextRequestId := listener]
    ensures AskOf(p, path, listener).lost > p.lost ==> AskOf(p, path, listener).conn.pending == p.conn.pending
  {
    NextIdPending(p.conn.pending, AnsweredTo(p.conn.effects), p.asked, AnswerCount(p, q));
    hide Ids, AnsweredTo, Table;
  }

  /** A new request gets the next id, and its listener becomes pending under it. */
  lemma AskKeeps(p: Peer, q: Peer, path: seq<byte>, listener: nat)
    requires Link(p, q) && AskOf(p, path, listener).lost == p.lost
    ensures Link(AskOf(p, path, listener), q)
  {
    hide Ids, AnsweredTo, Table, FirstIds, AskOf, Resolve, MakePacket, Link, Id;
    LinkForm(p, q);
    if p.world.writePath(path).Some? {
      var n := |p.asked|;
      var packet := MakePacket(RESOLVE_REQUEST, p.world.writePath(path).value, p.conn.nextRequestId);
      LosesExactly(p, q, path, listener);
      AskForm(p, path, listener);
      TableBound(p, q);
      IdsAppend(p.conn.packets, packet, RESOLVE_REQUEST);
      MoreIds(n);
      assert (p.conn.packets + [packet])[..q.received] == p.conn.packets[..q.received];
      TableAsks(p.conn.pending, AnsweredTo(p.conn.effects), p.asked, AnswerCount(p, q), listener);
      LinkForm(AskOf(p, path, listener), q);
      NextId(n);
    } else {
      AskNothing(p, path, listener);
    }
  }

  lemma LinkForm(p: Peer, q: Peer)
    ensures Link(p, q) <==>
            var n := |p.asked|;
            && p.received <= |q.conn.packets| && q.received <= |p.conn.packets|
            && p.conn.nextRequestId == Id(n)
            && Ids(p.conn.packets, RESOLVE_REQUEST) == FirstIds(n)
            && Ids(q.conn.packets, RESOLVE_RESPONSE) == Ids(Arrived(q, p), RESOLVE_REQUEST)
            && Table(p.conn.pending, AnsweredTo(p.conn.effects), p.asked, AnswerCount(p, q))
  {
    hide Ids, AnsweredTo, Table, FirstIds, Id;
  }

  lemma NextId(n: nat)
    ensures (Id(n) + 1) % UINT64_LIMIT == Id(n + 1)
  {}

  lemma AskNothing(p: Peer, path: seq<byte>, listener: nat)
    requires p.world.writePath(path).None?
    ensures AskOf(p, path, listener) == p
  {}

  lemma AskForm(p: Peer, path: seq<byte>, listener: nat)
    requires p.world.writePath(path).Some?
    ensures var packet := MakePacket(RESOLVE_REQUEST, p.world.writePath(path).value, p.conn.nextRequestId);
            var t := AskOf(p, path, listener);
            && t.conn.packets == p.conn.packets + [packet] && t.conn.effects == p.conn.effects
            && t.conn.nextRequestId == (p.conn.nextRequestId + 1) % UINT64_LIMIT
            && t.asked == p.asked + [listener] && t.received == p.received
            && packet.header.kind == RESOLVE_REQUEST && packet.header.operationData == p.conn.nextRequestId
  {}

  lemma MoreIds(n: nat)
    ensures FirstIds(n + 1) == FirstIds(n) + [Id(n)]
  {}

  lemma TableBound(p: Peer, q: Peer)
    requires Link(p, q)
    ensures 0 <= Outstanding(p, q) <= UINT64_LIMIT && AnsweredTo(p.conn.effects) == p.asked[..AnswerCount(p, q)]
  {}

  /** Requests of `p` do not touch what `q` has asked. */
  lemma AskKeepsOther(p: Peer, q: Peer, path: seq<byte>, listener: nat)
    requires Link(q, p)
    ensures Link(q, AskOf(p, path, listener))
  {
    if p.world.writePath(path).Some? {
      var packet := MakePacket(RESOLVE_REQUEST, p.world.writePath(path).value, p.conn.nextRequestId);
      IdsAppend(p.conn.packets, packet, RESOLVE_RESPONSE);
      assert (p.conn.packets + [packet])[..q.received] == p.conn.packets[..q.received];
      hide Ids, AnsweredTo;
    }
  }

  lemma ArrivedNext(p: Peer, q: Peer, kind: byte)
    requires p.received < |q.conn.packets|
    ensures Ids(q.conn.packets[..p.received + 1], kind) ==
        Ids(Arrived(p, q), kind) + IfKind(q.conn.packets[p.received], kind)
    ensures Ids(q.conn.packets[..p.received + 1], kind) <= Ids(q.conn.packets, kind)
  {
    IdsAppend(q.conn.packets[..p.received], q.conn.packets[p.received], kind);
    assert q.conn.packets[..p.received + 1] == q.conn.packets[..p.received] + [q.conn.packets[p.received]];
    IdsPrefix(q.conn.packets, p.received + 1, kind);
  }

  /** A response that arrives carries the id of the oldest outstanding request. */
  lemma ResponseIsNext(p: Peer, q: Peer)
    requires Link(p, q) && p.received < |q.conn.packets|
    requires q.conn.packets[p.received].header.kind == RESOLVE_RESPONSE
    ensures var m := AnswerCount(p, q);
            m < |p.asked| && q.conn.packets[p.received].header.operationData == Id(m)
  {
    hide Ids, Table, AnsweredTo;
    ArrivedNext(p, q, RESOLVE_RESPONSE);
    IdsPrefix(p.conn.packets, q.received, RESOLVE_REQUEST);
    var m := AnswerCount(p, q);
    assert Ids(q.conn.packets[..p.received + 1], RESOLVE_RESPONSE) <= FirstIds(|p.asked|);
    assert Ids(q.conn.packets[..p.received + 1], RESOLVE_RESPONSE)[m] == FirstIds(|p.asked|)[m];
  }

  lemma TableKeeps(p: Peer, q: Peer)
    requires Link(p, q) && p.received < |q.conn.packets|
    ensures var d := Receive(p, q);
            Table(d.conn.pending, AnsweredTo(d.conn.effects), p.asked,
                |Ids(q.conn.packets[..p.received + 1], RESOLVE_RESPONSE)|)
  {
    hide Dispatch, Ids, AnsweredTo;
    var packet := q.conn.packets[p.received];
    DispatchAnswers(p.world, p.conn, packet);
    ArrivedNext(p, q, RESOLVE_RESPONSE);
    var m := AnswerCount(p, q);
    if packet.header.kind == RESOLVE_RESPONSE {
      ResponseIsNext(p, q);
      hide FirstIds;
      TableAnswers(p.conn.pending, AnsweredTo(p.conn.effects), p.asked, m);
      hide Table;
    } else {
      hide Table;
      assert AnsweredTo(p.conn.effects) + [] == AnsweredTo(p.conn.effects);
    }
  }

  lemma DeliverKeeps(p: Peer, q: Peer)
    requires Link(p, q) && p.received < |q.conn.packets|
    ensures Link(Receive(p, q), q)
    ensures AnsweredTo(Receive(p, q).conn.effects) <= p.asked
  {
    hide Dispatch, Ids, AnsweredTo;
    TableKeeps(p, q);
    DispatchAnswers(p.world, p.conn, q.conn.packets[p.received]);
    var d := Receive(p, q).conn;
    assert d.packets[..q.received] == p.conn.packets[..q.received];
  }

  lemma DeliverKeepsOther(p: Peer, q: Peer)
    requires Link(q, p) && p.received < |q.conn.packets| && Arrival(p, q).error.None?
    ensures Link(q, Receive(p, q))
  {
    hide Dispatch, Ids, AnsweredTo, Table;
    var packet := q.conn.packets[p.received];
    DispatchAnswers(p.world, p.conn, packet);
    ArrivedNext(p, q, RESOLVE_REQUEST);
    var d := Receive(p, q).conn;
    assert d.packets[..q.received] == p.conn.packets[..q.received];
  }

  /** In every run, whatever is lost: each listener asked for has been answered, is pending, or has been lost. */
  ghost predicate Balance(p: Peer) {
    |p.asked| == |AnsweredTo(p.conn.effects)| + |p.conn.pending| + p.lost
  }

  ghost predicate Ordered(p: Peer) {
    p.lost == 0 ==> AnsweredTo(p.conn.effects) <= p.asked
  }

  ghost predicate Inv(s: System) {
    && Balance(s.left) && Balance(s.right) && Ordered(s.left) && Ordered(s.right)
    && (s.up && s.left.lost == 0 ==> Link(s.left, s.right))
    && (s.up && s.right.lost == 0 ==> Link(s.right, s.left))
  }

  lemma AskBalances(p: Peer, path: seq<byte>, listener: nat)
    requires Balance(p) && Ordered(p)
    ensures Balance(AskOf(p, path, listener)) && Ordered(AskOf(p, path, listener))
  {
    hide AnsweredTo;
  }

  lemma DeliverBalances(p: Peer, q: Peer)
    requires Balance(p) && p.received < |q.conn.packets|
    ensures Balance(Receive(p, q))
  {
    hide Dispatch, Ids, AnsweredTo;
    DispatchAnswers(p.world, p.conn, q.conn.packets[p.received]);
  }

  lemma AskStep(s: System, step: Step)
    requires Inv(s) && step.Ask?
    ensures Inv(Next(s, step))
  {
    hide Link, Resolve, Balance, Ordered;
    var p, q := if step.atLeft then s.left else s.right, if step.atLeft then s.right else s.left;
    AskBalances(p, step.path, step.listener);
    if s.up && q.lost == 0 {
      AskKeepsOther(p, q, step.path, step.listener);
    }
    if s.up && AskOf(p, step.path, step.listener).lost == 0 {
      AskKeeps(p, q, step.path, step.listener);
    }
  }

  lemma DeliverStep(s: System, step: Step)
    requires Inv(s) && step.Deliver?
    ensures Inv(Next(s, step))
  {
    hide Link, Arrival, Ids, Balance;
    var p, q := if step.atLeft then s.left else s.right, if step.atLeft then s.right else s.left;
    if s.up && p.received < |q.conn.packets| {
      DeliverBalances(p, q);
      if p.lost == 0 {
        DeliverKeeps(p, q);
      }
      if q.lost == 0 && Arrival(p, q).error.None? {
        DeliverKeepsOther(p, q);
      }
    }
  }

  /** Two peers right after the handshake: nothing asked, nothing pending. */
  predicate Connected(p: Peer) {
    && p.asked == [] && p.lost == 0 && p.conn.nextRequestId == 1 && p.conn.pending == map[] && p.conn.effects == []
    && |p.conn.packets| == 1 && p.conn.packets[0].header.kind == HANDSHAKE && p.received == 1
  }

  lemma StartsLinked(p: Peer, q: Peer)
    requires Connected(p) && Connected(q)
    ensures Link(p, q)
  {
    IdsOfOne(p.conn.packets[0], RESOLVE_REQUEST);
    IdsOfOne(q.conn.packets[0], RESOLVE_RESPONSE);
    assert p.conn.packets == [p.conn.packets[0]] && q.conn.packets == [q.conn.packets[0]];
    assert p.conn.packets[..1] == p.conn.packets && q.conn.packets[..1] == q.conn.packets;
    hide Ids;
  }

  lemma {:induction false} RunKeeps(s: System, steps: seq<Step>)
    requires Inv(s)
    ensures Inv(Run(s, steps))
    decreases |steps|
  {
    if steps != [] {
      if steps[0].Ask? {
        AskStep(s, steps[0]);
      } else {
        DeliverStep(s, steps[0]);
      }
      hide Inv, Next;
      RunKeeps(Next(s, steps[0]), steps[1..]);
    }
  }

  /** In every run of two peers each listener asked for has been answered, is pending or has been lost. As long as a
      peer has made no request while 2^64 were outstanding, it has lost none and gets the answers in the order of the
      requests; and once everything that was sent has arrived, each of its listeners has been answered and nothing is
      pending. */
  lemma EveryListenerAnswered(left: Peer, right: Peer, steps: seq<Step>)
    requires Connected(left) && Connected(right)
    ensures var s := Run(System(left, right, true), steps);
            && Balance(s.left) && Balance(s.right)
            && (s.left.lost == 0 ==> InOrder(s, s.left, s.right))
            && (s.right.lost == 0 ==> InOrder(s, s.right, s.left))
  {
    Reached(left, right, steps);
    var s := Run(System(left, right, true), steps);
    hide Run, Ids, AnsweredTo, Connected, Balance;
    if s.up && s.left.lost == 0 {
      TableBound(s.left, s.right);
      if AllReceived(s) {
        EveryAnswer(s.left, s.right);
      }
    }
    if s.up && s.right.lost == 0 {
      TableBound(s.right, s.left);
      if AllReceived(s) {
        EveryAnswer(s.right, s.left);
      }
    }
  }

  ghost predicate InOrder(s: System, p: Peer, q: Peer) {
    && AnsweredTo(p.conn.effects) <= p.asked
    && (s.up ==> 0 <= Outstanding(p, q) <= UINT64_LIMIT)
    && (AllReceived(s) ==> AnsweredTo(p.conn.effects) == p.asked && p.conn.pending == map[])
  }

  lemma Reached(left: Peer, right: Peer, steps: seq<Step>)
    requires Connected(left) && Connected(right)
    ensures Inv(Run(System(left, right, true), steps))
  {
    StartsLinked(left, right);
    StartsLinked(right, left);
    StartsBalanced(left);
    StartsBalanced(right);
    RunKeeps(System(left, right, true), steps);
  }

  predicate AllReceived(s: System) {
    s.up && s.left.received == |s.right.conn.packets| && s.right.received == |s.left.conn.packets|
  }

  lemma StartsBalanced(p: Peer)
    requires Connected(p)
    ensures Balance(p) && Ordered(p)
  {}

  lemma EveryAnswer(p: Peer, q: Peer)
    requires Link(p, q) && p.received == |q.conn.packets| && q.received == |p.conn.packets|
    ensures AnsweredTo(p.conn.effects) == p.asked && p.conn.pending == map[]
  {
    assert q.conn.packets[..p.received] == q.conn.packets;
    assert p.conn.packets[..q.received] == p.conn.packets;
    hide Ids, AnsweredTo;
    assert p.asked[..|p.asked|] == p.asked;
    assert forall id :: id in p.conn.pending ==> IsOutstanding(id, |p.asked|, |p.asked|);
  }

  function PeerAt(s: System, atLeft: bool): Peer {
    if atLeft then s.left else s.right
  }

  /** In every run, the first listener that a peer loses is the one of a request made while 2^64 of its requests are
      outstanding, and such a request does lose its listener; so fewer than 2^64 requests in all lose none. */
  lemma FirstLoss(left: Peer, right: Peer, steps: seq<Step>, atLeft: bool, path: seq<byte>, listener: nat)
    requires Connected(left) && Connected(right)
    ensures var s := Run(System(left, right, true), steps);
            var p, q := PeerAt(s, atLeft), PeerAt(s, !atLeft);
            s.up && p.lost == 0 && p.world.writePath(path).Some? ==>
              var t := PeerAt(Next(s, Ask(atLeft, path, listener)), atLeft);
              && (t.lost > 0 <==> Outstanding(p, q) == UINT64_LIMIT)
              && (|p.asked| < UINT64_LIMIT ==> t.lost == 0)
  {
    Reached(left, right, steps);
    hide Run, Resolve, Ids, AnsweredTo, Balance, Ordered;
    var s := Run(System(left, right, true), steps);
    var p, q := PeerAt(s, atLeft), PeerAt(s, !atLeft);
    if s.up && p.lost == 0 && p.world.writePath(path).Some? {
      LosesExactly(p, q, path, listener);
    }
  }

  function Asks(atLeft: bool, path: seq<byte>, listener: nat, n: nat): (r: seq<Step>)
    ensures |r| == n
  {
    if n == 0 then [] else [Ask(atLeft, path, listener)] + Asks(atLeft, path, listener, n - 1)
  }

  lemma {:induction false} ManyAsks(s: System, atLeft: bool, path: seq<byte>, listener: nat, n: nat)
    requires var p, q := PeerAt(s, atLeft), PeerAt(s, !atLeft);
             && s.up && p.lost == 0 && Link(p, q) && p.world.writePath(path).Some?
             && Outstanding(p, q) + n <= UINT64_LIMIT
    ensures var t := Run(s, Asks(atLeft, path, listener, n));
            var p, q, u := PeerAt(s, atLeft), PeerAt(s, !atLeft), PeerAt(t, atLeft);
            && t.up && PeerAt(t, !atLeft) == q && u.world == p.world && u.lost == 0
            && Link(u, q) && Outstanding(u, q) == Outstanding(p, q) + n
    decreases n
  {
    hide Link, Resolve, Ids;
    if n > 0 {
      var p, q, step := PeerAt(s, atLeft), PeerAt(s, !atLeft), Ask(atLeft, path, listener);
      LosesExactly(p, q, path, listener);
      AskKeeps(p, q, path, listener);
      assert ([step] + Asks(atLeft, path, listener, n - 1))[1..] == Asks(atLeft, path, listener, n - 1);
      ManyAsks(Next(s, step), atLeft, path, listener, n - 1);
    }
  }

  /** Such a state is reached: a peer that makes 2^64 requests before any answer arrives loses the next listener. */
  lemma OneTooMany(left: Peer, right: Peer, atLeft: bool, path: seq<byte>, listener: nat)
    requires Connected(left) && Connected(right) && (if atLeft then left else right).world.writePath(path).Some?
    ensures var s := Run(System(left, right, true), Asks(atLeft, path, listener, UINT64_LIMIT));
            && s.up && PeerAt(s, atLeft).lost == 0
            && PeerAt(Next(s, Ask(atLeft, path, listener)), atLeft).lost == 1
  {
    var s0 := System(left, right, true);
    var p, q := PeerAt(s0, atLeft), PeerAt(s0, !atLeft);
    StartsLinked(p, q);
    IdsOfOne(q.conn.packets[0], RESOLVE_RESPONSE);
    assert q.conn.packets == [q.conn.packets[0]];
    assert q.conn.packets[..1] == q.conn.packets;
    hide Link, Run, Ids, Resolve, Asks;
    ManyAsks(s0, atLeft, path, listener, UINT64_LIMIT);
    var s := Run(s0, Asks(atLeft, path, listener, UINT64_LIMIT));
    LosesExactly(PeerAt(s, atLeft), PeerAt(s, !atLeft), path, listener);
  }

  /** Lost listeners are never answered: whatever happens afterwards, of all the listeners asked for at least as many
      as have been lost are without an answer. */
  lemma {:induction false} LostForGood(s: System, steps: seq<Step>, atLeft: bool)
    requires Inv(s)
    ensures var p, t := PeerAt(s, atLeft), PeerAt(Run(s, steps), atLeft);
            && p.asked <= t.asked && p.lost <= t.lost && |AnsweredTo(t.conn.effects)| <= |t.asked| - t.lost
    decreases |steps|
  {
    hide Inv, Arrival, Resolve;
    if steps == [] {
      BalanceBounds(s);
    } else {
      if steps[0].Ask? {
        AskStep(s, steps[0]);
      } else {
        DeliverStep(s, steps[0]);
      }
      LostForGood(Next(s, steps[0]), steps[1..], atLeft);
    }
  }

  lemma BalanceBounds(s: System)
    requires Inv(s)
    ensures |AnsweredTo(s.left.conn.effects)| <= |s.left.asked| - s.left.lost
    ensures |AnsweredTo(s.right.conn.effects)| <= |s.right.asked| - s.right.lost
  {}
}
