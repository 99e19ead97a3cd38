/** What a WebSocket layer sends back: a pong for every ping and the replies of the upper layer, each in its frame. */
module WebSocketAnswers {
  import opened Bytes
  import opened Rfc6455
  import opened StreamLayer
  import opened WebSocketFraming
  import opened WebSocketTheorems

  function DrawsAfter(env: Env, draws: nat, frames: nat): nat {
    if env.maskOutgoing then draws + frames else draws
  }

  /** The one frame that answers a ping: it carries the ping's payload. */
  function Pong(env: Env, draws: nat, payload: seq<byte>): Item {
    Item(PONG, [Fragment(OutKey(env, draws), payload)])
  }

  /** The frames sent back for one item after `calls` have been made and `draws` keys drawn. */
  function Answer(env: Env, calls: seq<Message>, draws: nat, item: Item): seq<Item> {
    if item.opcode == PING then [Pong(env, draws, Joined(item.parts))]
    else if item.opcode == PONG then []
    else Sent(env, draws, env.upper(calls + MessageIn(item)).replies)
  }

  function Answers(env: Env, calls: seq<Message>, draws: nat, items: seq<Item>): seq<Item>
    decreases |items|
  {
    if items == [] then []
    else
      var first := Answer(env, calls, draws, items[0]);
      first + Answers(env, calls + MessageIn(items[0]), DrawsAfter(env, draws, |first|), items[1..])
  }

  predicate Refuses(env: Env, calls: seq<Message>, item: Item) {
    MessageIn(item) != [] && !env.upper(calls + MessageIn(item)).accepted
  }

  /** The items up to and with the first message the upper layer refuses. */
  function Taken(env: Env, calls: seq<Message>, items: seq<Item>): seq<Item>
    decreases |items|
  {
    if items == [] then []
    else if Refuses(env, calls, items[0]) then [items[0]]
    else [items[0]] + Taken(env, calls + MessageIn(items[0]), items[1..])
  }

  predicate Refused(env: Env, calls: seq<Message>, items: seq<Item>)
    decreases |items|
  {
    items != [] && (Refuses(env, calls, items[0]) || Refused(env, calls + MessageIn(items[0]), items[1..]))
  }

  // -- one frame ------------------------------------------------------------------------------------------------------

  /** A ping that arrives alone is answered by a pong with the same payload under the next key, and by nothing else. */
  lemma PingAnswered(env: Env, s: Session, key: Key, payload: seq<byte>, rest: seq<byte>)
    requires FitsFrame(key, |payload|)
    ensures var ping := MaskedFrame(true, PING, key, payload);
            var pong := MaskedFrame(true, PONG, OutKey(env, s.draws), payload);
            Parse(env, Idle(s), ping + rest) ==
            Shift(Parse(env, Idle(Session(s.calls, NextDraw(env, s.draws), s.out + pong)), rest), |ping|)
  {
    ParseFrame(env, Idle(s), true, PING, key, payload, rest);
    hide MaskedFrame, Parse, Mask, Frame, FitsFrame, OutKey, NextDraw;
    PongShipped(env, s, payload);
  }

  lemma PongShipped(env: Env, s: Session, payload: seq<byte>)
    ensures Ship(env, s, PONG, payload) ==
            Session(s.calls, NextDraw(env, s.draws), s.out + MaskedFrame(true, PONG, OutKey(env, s.draws), payload))
  {
    hide Mask, Frame, OutKey, NextDraw;
  }

  /** A close frame on an idle layer ends the connection, with that as the reason, whatever follows it. */
  lemma CloseEnds(env: Env, s: Session, key: Key, payload: seq<byte>, rest: seq<byte>)
    requires FitsFrame(key, |payload|)
    ensures Parse(env, Idle(s), MaskedFrame(true, CONNECTION_CLOSE, key, payload) + rest)
            == Aborted(Idle(s), ConnectionClosed)
  {
    ParseFrame(env, Idle(s), true, CONNECTION_CLOSE, key, payload, rest);
    hide MaskedFrame, Parse, FitsFrame;
  }

  // -- any mix of items -----------------------------------------------------------------------------------------------

  lemma {:induction false} ReplyDraws(env: Env, s: Session, ms: seq<Message>)
    ensures ShipAll(env, s, ms).draws == DrawsAfter(env, s.draws, |ms|)
    ensures |Sent(env, s.draws, ms)| == |ms|
    decreases |ms|
  {
    if ms != [] {
      var s' := Ship(env, s, Opcode(ms[0]), ms[0].payload);
      assert s'.draws == NextDraw(env, s.draws);
      hide Ship;
      ReplyDraws(env, s', ms[1..]);
    }
  }

  lemma RepliesShipped(env: Env, s: Session, ms: seq<Message>)
    ensures var a := Sent(env, s.draws, ms);
            ShipAll(env, s, ms) == Session(s.calls, DrawsAfter(env, s.draws, |a|), s.out + Wire(a))
  {
    ReplyDraws(env, s, ms);
    SentWire(env, s, ms);
    ShipAllKeepsCalls(env, s, ms);
    hide ShipAll, Sent, Wire, DrawsAfter;
  }

  lemma PongWire(env: Env, draws: nat, payload: seq<byte>)
    ensures Wire([Pong(env, draws, payload)]) == MaskedFrame(true, PONG, OutKey(env, draws), payload)
  {
    SingleFrame(PONG, Fragment(OutKey(env, draws), payload));
    hide MaskedFrame, PartsWire;
    var pong := Pong(env, draws, payload);
    assert [pong][1..] == [];
    assert PartsWire(pong.opcode, pong.parts) + [] == PartsWire(pong.opcode, pong.parts);
  }

  /** What handling one item does to the session, and when it is refused. */
  lemma ItemAnswered(env: Env, s: Session, item: Item)
    requires item.opcode in {TEXT_FRAME, BINARY_FRAME, PING, PONG}
    ensures var a := Answer(env, s.calls, s.draws, item);
            Handle(env, s, item.opcode, Joined(item.parts)) ==
            Handled(Session(s.calls + MessageIn(item), DrawsAfter(env, s.draws, |a|), s.out + Wire(a)),
                    if Refuses(env, s.calls, item) then Some(Unset) else None)
  {
    var payload := Joined(item.parts);
    hide Joined, Ship, ShipAll, Sent, Wire, MaskedFrame, OutKey;
    if item.opcode == PING {
      assert s.calls + [] == s.calls;
      PongShipped(env, s, payload);
      PongWire(env, s.draws, payload);
    } else if item.opcode == PONG {
      assert s.calls + [] == s.calls;
      NothingOnWire(s.out);
    } else {
      var calls := s.calls + MessageIn(item);
      RepliesShipped(env, s.(calls := calls), env.upper(calls).replies);
    }
  }

  lemma NothingOnWire(out: seq<byte>)
    ensures out + Wire([]) == out
  {}

  lemma {:induction false} WireConcat(a: seq<Item>, b: seq<Item>)
    ensures Wire(a + b) == Wire(a) + Wire(b)
  {
    hide PartsWire;
    if a == [] {
      assert [] + b == b;
    } else {
      assert (a + b)[1..] == a[1..] + b;
      WireConcat(a[1..], b);
      Associative(PartsWire(a[0].opcode, a[0].parts), Wire(a[1..]), Wire(b));
    }
  }

  /** The session after all items that are taken: their messages have been passed on, and their answers shipped. */
  function After(env: Env, s: Session, items: seq<Item>): Session {
    var a := Answers(env, s.calls, s.draws, items);
    Session(s.calls + Messages(items), DrawsAfter(env, s.draws, |a|), s.out + Wire(a))
  }

  lemma AfterNothing(env: Env, s: Session)
    ensures After(env, s, []) == s
  {
    NothingOnWire(s.out);
    assert s.calls + [] == s.calls;
  }

  lemma AfterFirst(env: Env, s: Session, item: Item, items: seq<Item>)
    ensures var a := Answer(env, s.calls, s.draws, item);
            var s' := Session(s.calls + MessageIn(item), DrawsAfter(env, s.draws, |a|), s.out + Wire(a));
            After(env, s, [item] + items) == After(env, s', items)
  {
    var a := Answer(env, s.calls, s.draws, item);
    var b := Answers(env, s.calls + MessageIn(item), DrawsAfter(env, s.draws, |a|), items);
    assert ([item] + items)[1..] == items;
    assert Answers(env, s.calls, s.draws, [item] + items) == a + b;
    assert Messages([item] + items) == MessageIn(item) + Messages(items);
    hide Answer, Answers, Messages, MessageIn, Wire;
    WireConcat(a, b);
    Associative(s.out, Wire(a), Wire(b));
    Associative(s.calls, MessageIn(item), Messages(items));
  }

  lemma {:induction false} AllAnswered(env: Env, s: Session, items: seq<Item>)
    requires AllSendable(items)
    ensures HandleAll(env, s, items) ==
            Handled(After(env, s, Taken(env, s.calls, items)), if Refused(env, s.calls, items) then Some(Unset)
                else None)
    decreases |items|
  {
    hide Answers, Answer, MessageIn, Messages, Refuses, Handle, After, Sendable;
    if items == [] {
      AfterNothing(env, s);
    } else {
      var item := items[0];
      assert Sendable(item);
      OpcodeOf(item);
      ItemAnswered(env, s, item);
      var s' := Handle(env, s, item.opcode, Joined(item.parts)).session;
      if Refuses(env, s.calls, item) {
        AfterFirst(env, s, item, []);
        AfterNothing(env, s');
        assert [item] + [] == [item];
      } else {
        AfterFirst(env, s, item, Taken(env, s'.calls, items[1..]));
        AllAnswered(env, s', items[1..]);
      }
    }
  }

  lemma OpcodeOf(item: Item)
    requires Sendable(item)
    ensures item.opcode in {TEXT_FRAME, BINARY_FRAME, PING, PONG}
  {}

  /** For any mix of whole and fragmented messages, pings and pongs: what is sent is, in order, one pong with the joined
      payload for each ping and the replies to each message, one frame each under consecutive keys, and nothing else;
      up to and with the first message the upper layer refuses, which is also what ends the connection. */
  lemma AnswersExactly(env: Env, s: Session, items: seq<Item>)
    requires AllSendable(items)
    ensures var p := Parse(env, Idle(s), Wire(items));
            var a := Answers(env, s.calls, s.draws, Taken(env, s.calls, items));
            && p.state.session.out == s.out + Wire(a)
            && p.state.session.draws == DrawsAfter(env, s.draws, |a|)
            && p.state.session.calls == s.calls + Messages(Taken(env, s.calls, items))
            && (if Refused(env, s.calls, items) then p == Aborted(p.state, Unset) else p.Parsed?)
            && (!Refused(env, s.calls, items) ==> Taken(env, s.calls, items) == items)
  {
    ItemsParse(env, s, items);
    AllAnswered(env, s, items);
    AllTaken(env, s.calls, items);
    hide Parse, HandleAll, Taken, Refused, Answers, Wire, Messages, AllSendable;
  }

  lemma {:induction false} AllTaken(env: Env, calls: seq<Message>, items: seq<Item>)
    ensures Taken(env, calls, items) <= items
    ensures !Refused(env, calls, items) ==> Taken(env, calls, items) == items
    ensures AcceptsAll(env) ==> !Refused(env, calls, items)
    decreases |items|
  {
    if items != [] {
      hide MessageIn;
      AllTaken(env, calls + MessageIn(items[0]), items[1..]);
      assert items == [items[0]] + items[1..];
    }
  }
}
