/** The sending end of a connection: batches of output that a layer adds whenever the transport may write. */
module Outbox {
  import opened Bytes
  import opened StreamLayer
  import S = StreamTransport

  /** What has been handed to the transport and what has not. */
  datatype Outbox = Outbox(given: seq<byte>, left: seq<seq<byte>>)

  function Flat(batches: seq<seq<byte>>): seq<byte> {
    if batches == [] then [] else batches[0] + Flat(batches[1..])
  }

  lemma {:induction false} FlatConcat(a: seq<seq<byte>>, b: seq<seq<byte>>)
    ensures Flat(a + b) == Flat(a) + Flat(b)
  {
    if a == [] {
      assert a + b == b;
    } else {
      assert (a + b)[1..] == a[1..] + b;
      FlatConcat(a[1..], b);
      Associative(a[0], Flat(a[1..]), Flat(b));
    }
  }

  lemma OneBatch(b: seq<byte>)
    ensures Flat([b]) == b
  {
    assert [b][1..] == [];
    assert b + [] == b;
  }

  function Give(s: Outbox): Sending<Outbox> {
    if s.left == [] then Sending(s, [], false, true)
    else Sending(Outbox(s.given + s.left[0], s.left[1..]), s.left[0], false, true)
  }

  /** Hands over one batch at a time, and takes no notice of what it receives. */
  function AsLayer(): Layer<Outbox> {
    Layer((s, bytes, delta) => Outcome(s, |bytes|, bytes, None, [], false), s => Give(s), (s: Outbox) => s.left == [])
  }

  function All(): Outbox -> seq<byte> {
    (s: Outbox) => s.given + Flat(s.left)
  }

  function Given(): Outbox -> seq<byte> {
    (s: Outbox) => s.given
  }

  /** Everything to be sent stays the same, and everything received is consumed. */
  function Spec(total: seq<byte>): seq<byte> -> Progress<seq<byte>> {
    r => Progress(total, |r|, UpTo(2048), false)
  }

  lemma OutboxRefines(total: seq<byte>)
    ensures WellBehaved(AsLayer()) && Refines(AsLayer(), All(), Spec(total)) && Ships(AsLayer(), Given())
    ensures SendsAside(AsLayer(), All()) && S.Passive(AsLayer())
  {
    var layer := AsLayer();
    forall s, bytes, delta ensures WellBehavedAt(layer, s, bytes, delta) {}
    forall s, bytes, delta ensures ConsumeShips(layer, Given(), s, bytes, delta) {
      assert s.given + [] == s.given;
    }
    forall s ensures SendShips(layer, Given(), s) {
      assert s.given + [] == s.given;
    }
    forall s: Outbox ensures All()(layer.prepareSend(s).state) == All()(s) {
      if s.left != [] {
        Associative(s.given, s.left[0], Flat(s.left[1..]));
      }
    }
    forall s, r, b, delta ensures RefinesAt(layer, All(), Spec(total), s, r, b, delta) {
      var u := (r + b)[|r|..];
      assert u == b;
    }
  }

  /** Nothing is left to be sent, or output is polled for no more although nothing has failed. */
  predicate Done(t: S.Transport<Outbox, seq<byte>>)
    reads t
  {
    (t.state.left == [] && t.writeBuf == []) || (!t.writeAborted && !t.Stranded() && !t.interest.polled.write)
  }

  /** However the socket takes the output, what it has taken is a prefix of all batches in their order; it is all of
      them once nothing is left in the layer and in the output buffer, and polling for output does not end before that
      unless the connection fails. */
  method RunSender(batches: seq<seq<byte>>, inbound: seq<byte>, maxReads: nat, events: seq<S.Event>)
    returns (t: S.Transport<Outbox, seq<byte>>)
    ensures t.Valid() && t.socket.sent <= Flat(batches)
    ensures Done(t) ==> t.socket.sent == Flat(batches)
    ensures t.Stranded() ==> t.readAborted
  {
    var total := Flat(batches);
    OutboxRefines(total);
    hide Ships, Refines, SendsAside, WellBehaved, S.Passive;
    var socket := new S.Socket(inbound);
    var start := Outbox([], batches);
    assert All()(start) == total by {
      assert [] + Flat(batches) == Flat(batches);
    }
    t := new S.Transport(AsLayer(), All(), Spec(total), Given(), socket, start, UpTo(2048), [], maxReads);
    t.Wake();
    t.Run(events);
    assert [] + t.state.given == t.state.given;
    assert t.state.given + Flat(t.state.left) == total;
  }
}
