/** A whole BASP connection: the application on the reading thread, its workers and the queue in front of the
    receivers. */
module BaspConnection {
  import opened Bytes
  import opened StreamLayer
  import opened BaspHeader
  import opened BaspApplication
  import opened BaspTheorems
  import Q = MessageQueue
  import W = BaspWorkers

  type Job = W.Job<Packet>
  type Handler = W.Handler<Packet>

  // -- what one call of the application adds --------------------------------------------------------------------------

  /** A packet for the workers, if the call has dispatched an actor message. */
  function NewLaunch(before: seq<Effect>, after: seq<Effect>): seq<Packet> {
    if |before| < |after| && after[|after| - 1].Launched? then [after[|after| - 1].packet] else []
  }

  lemma DispatchAdds(w: World, c: Conn, p: Packet)
    ensures var d := Dispatch(w, c, p).conn;
            && Launches(d.effects) == Launches(c.effects) + NewLaunch(c.effects, d.effects)
            && (NewLaunch(c.effects, d.effects) != [] ==> Dispatch(w, c, p).error.None?)
  {
    var d := Dispatch(w, c, p).conn;
    if d.effects != c.effects {
      assert d.effects[..|d.effects| - 1] == c.effects;
    } else {
      assert Launches(c.effects) + [] == Launches(c.effects);
    }
  }

  lemma CallAdds(w: World, c: Conn, bytes: seq<byte>)
    ensures var r := HandleData(w, c, bytes);
            && Launches(r.conn.effects) == Launches(c.effects) + NewLaunch(c.effects, r.conn.effects)
            && (NewLaunch(c.effects, r.conn.effects) != [] ==> r.error.None?)
  {
    hide Dispatch, Launches;
    assert Launches(c.effects) + [] == Launches(c.effects);
    match c.phase
    case AwaitHeader =>
      if |bytes| == HEADER_SIZE {
        DispatchAdds(w, c.(hdr := FromBytes(bytes)), Packet(FromBytes(bytes), []));
      }
    case AwaitPayload => DispatchAdds(w, c.(phase := AwaitHeader), Packet(c.hdr, bytes));
    case _ =>
  }

  /** Later bytes only add to what the workers get. */
  lemma {:induction false} LaunchesGrow(w: World, c: Conn, stream: seq<byte>)
    ensures Launches(c.effects) <= Launches(Feed(w, c, stream).conn.effects)
    decreases |stream|
  {
    if 0 < c.readSize <= |stream| {
      CallAdds(w, c, stream[..c.readSize]);
      hide HandleData, Launches;
      var r := HandleData(w, c, stream[..c.readSize]);
      if r.error.None? {
        LaunchesGrow(w, r.conn, stream[c.readSize..]);
      }
    }
  }

  // -- the connection -------------------------------------------------------------------------------------------------

  /** What happens next: the transport hands over the announced number of bytes, with the worker that the hub would give
      out and what the workers do while the reader is busy, or a worker makes a step. */
  datatype Event = Read(worker: nat, meanwhile: seq<W.Step<Packet>>) | Work(step: W.Step<Packet>)

  class Connection {
    const app: Application
    const queue: Q.MessageQueue<Packet>
    const handler: Handler
    /** The hub, its workers and the messages they have been given. */
    var workers: W.State<Packet>
    var failed: bool

    ghost predicate Valid()
      reads this, app, queue
    {
      && queue.Valid() && queue.done == workers.done && queue.nextId == |workers.accepted|
      && W.Inv(handler, workers) && W.Skipped(workers) == {}
      && workers.accepted == Launches(app.effects)
    }

    constructor (world: World, greeting: seq<byte>, handler: Handler, workers: set<nat>)
      ensures Valid() && fresh(app) && fresh(queue) && this.handler == handler && !failed
      ensures app.world == world && app.Abs() == Start(greeting) && workers == this.workers.idle && Idle()
    {
      app := new Application(world, greeting);
      queue := new Q.MessageQueue<Packet>();
      this.handler := handler;
      this.workers := W.Start(workers);
      failed := false;
    }

    /** The reading thread is not handling a message itself. */
    ghost predicate Idle()
      reads this
    {
      workers.reader.Reading?
    }

    /** One step of the workers or the reader on the shared queue. */
    method Perform(step: W.Step<Packet>)
      requires queue.Valid() && queue.done == workers.done && queue.nextId == |workers.accepted|
      requires W.Inv(handler, workers) && W.Skipped(workers) == {}
      requires W.Enabled(workers, step) && (step.FinishJob? || step.FinishInline? ==> !step.drop)
      modifies this`workers, queue
      ensures workers == W.Next(handler, old(workers), step)
      ensures queue.Valid() && queue.done == workers.done && queue.nextId == |workers.accepted|
      ensures W.Inv(handler, workers) && W.Skipped(workers) == {}
    {
      W.StepKeeps(handler, workers, step);
      SkipsNothing(handler, workers, step);
      W.Perform(queue, handler, workers, step);
      hide W.Inv, W.Skipped;
      workers := W.Next(handler, workers, step);
    }

    /** What the workers may do on their own: they finish jobs and go back to the hub. */
    method PerformIfWork(step: W.Step<Packet>)
      requires Valid()
      modifies this`workers, queue
      ensures Valid() && workers.reader == old(workers.reader) && workers.accepted == old(workers.accepted)
    {
      hide W.Inv, W.Skipped, Launches, W.Finish;
      if W.Enabled(workers, step) && ((step.FinishJob? && !step.drop) || step.BackToHub?) {
        FinishKeepsReader(handler, workers, step);
        Perform(step);
      }
    }

    static lemma HandledNow(h: Handler, s: W.State<Packet>)
      requires s.reader.Handling?
      ensures s.reader.job.id in W.Next(h, s, W.FinishInline(false)).handledAt
    {
      hide W.Deliverable;
    }

    /** `handle_actor_message`: a worker of the hub gets the message, and without one the reader handles it itself. */
    method HandleActorMessage(packet: Packet, worker: nat, meanwhile: seq<W.Step<Packet>>)
      requires queue.Valid() && queue.done == workers.done && queue.nextId == |workers.accepted|
      requires W.Inv(handler, workers) && W.Skipped(workers) == {} && Idle()
      requires workers.accepted + [packet] == Launches(app.effects)
      modifies this`workers, queue
      ensures Valid() && Idle()
      ensures old(workers.idle) != {} ==>
                exists w :: w in old(workers.idle) && (worker in old(workers.idle) ==> w == worker)
                            && workers == W.Next(handler, old(workers), W.Launch(packet, w))
      ensures old(workers.idle) == {} ==> |old(workers.accepted)| in workers.handledAt
    {
      hide W.Inv, W.Skipped, Launches, W.Finish;
      if workers.idle != {} {
        var w :| w in workers.idle && (worker in workers.idle ==> w == worker);
        Perform(W.Launch(packet, w));
      } else {
        Perform(W.HandleInline(packet));
        var k := 0;
        while k < |meanwhile|
          invariant Valid() && workers.reader == W.Handling(W.Job(|old(workers.accepted)|, packet))
        {
          PerformIfWork(meanwhile[k]);
          k := k + 1;
        }
        FinishKeepsAccepted(handler, workers, W.FinishInline(false));
        HandledNow(handler, workers);
        Perform(W.FinishInline(false));
      }
    }

    /** One call from the transport. */
    method Receive(bytes: seq<byte>, worker: nat, meanwhile: seq<W.Step<Packet>>)
      requires Valid() && Idle() && !failed
      modifies this, app, queue
      ensures Valid() && Idle()
      ensures var r := HandleData(app.world, old(app.Abs()), bytes); app.Abs() == r.conn && failed == r.error.Some?
    {
      hide W.Inv, W.Skipped, Launches, HandleData;
      ghost var c := app.Abs();
      var before := app.effects;
      CallAdds(app.world, c, bytes);
      var error := app.Receive(bytes);
      failed := error.Some?;
      var launched := NewLaunch(before, app.effects);
      if launched != [] {
        HandleActorMessage(launched[0], worker, meanwhile);
      } else {
        assert Launches(before) + [] == Launches(before);
      }
    }

    /** Any interleaving of the reader and the workers on any stream: the application stands where it stands after the
        bytes read so far, and the receivers have got a prefix of the actor messages among them, in their order. */
    method Run(stream: seq<byte>, events: seq<Event>) returns (pos: nat)
      requires Valid() && Idle() && !failed
      modifies this, app, queue
      ensures Valid() && pos <= |stream|
      ensures var f := Feed(app.world, old(app.Abs()), stream[..pos]);
              app.Abs() == f.conn && f.consumed == pos && failed == f.error.Some?
      ensures queue.delivered <= Launches(app.effects)
    {
      hide HandleData, W.Inv, W.Skipped, Launches, Feed;
      ghost var c := app.Abs();
      pos := 0;
      FeedNothing(app.world, c);
      assert stream[..0] == [];
      var k := 0;
      while k < |events| && !failed
        invariant Valid() && Idle() && pos <= |stream|
        invariant var f := Feed(app.world, c, stream[..pos]);
                  app.Abs() == f.conn && f.consumed == pos && failed == f.error.Some?
      {
        match events[k] {
          case Work(step) => PerformIfWork(step);
          case Read(worker, meanwhile) =>
            if 0 < app.readSize <= |stream| - pos {
              var bytes := stream[pos..pos + app.readSize];
              FeedOneMore(app.world, c, stream[..pos], bytes);
              assert stream[..pos] + bytes == stream[..pos + app.readSize];
              pos := pos + app.readSize;
              Receive(bytes, worker, meanwhile);
            }
        }
        k := k + 1;
      }
      Delivered();
    }

    lemma Delivered()
      requires Valid()
      ensures queue.delivered <= Launches(app.effects)
    {
      W.ReleasesFifo(handler, workers, queue.nextUndelivered);
      W.FifoIsPrefix(workers.accepted, {}, queue.nextUndelivered);
    }
  }

  /** Any part of a stream of packets launches a prefix of its actor messages, and the whole stream all of them. */
  lemma PartLaunches(w: World, c: Conn, ps: seq<Packet>, r: seq<byte>, b: seq<byte>)
    requires BaspTheorems.Idle(c) && ArePackets(ps) && c.effects == [] && r + b == Wire(ps)
    requires Feed(w, c, Wire(ps)).error.None?
    ensures Launches(Feed(w, c, r).conn.effects) <= ActorMessages(ps)
    ensures b == [] ==> Launches(Feed(w, c, r).conn.effects) == ActorMessages(ps)
  {
    hide Wire, ActorMessages, Launches;
    LaunchedMessages(w, c, ps);
    FeedSplit(w, c, r, b);
    var f := Feed(w, c, r);
    LaunchesGrow(w, f.conn, r[f.consumed..] + b);
    hide Feed;
    assert b == [] ==> r + b == r;
  }

  /** A peer that sends packets which no handler rejects, to a connection that has just been opened: at every point of
      every interleaving the receivers have got a prefix of the peer's actor messages, in the order of the wire; and
      once everything has been read and no job is in progress, all of them if and only if each could be delivered when
      it was handled. */
  method RunWire(conn: Connection, ps: seq<Packet>, events: seq<Event>) returns (pos: nat)
    requires conn.Valid() && conn.Idle() && !conn.failed && conn.app.effects == []
    requires BaspTheorems.Idle(conn.app.Abs()) && ArePackets(ps)
    requires Feed(conn.app.world, conn.app.Abs(), Wire(ps)).error.None?
    modifies conn, conn.app, conn.queue
    ensures conn.Valid() && pos <= |Wire(ps)| && conn.queue.delivered <= ActorMessages(ps)
    ensures pos == |Wire(ps)| && conn.workers.busy == map[] && conn.workers.reader.Reading? ==>
              (conn.queue.delivered == ActorMessages(ps) <==>
               forall i: nat :: i < |ActorMessages(ps)| ==>
                 && i in conn.workers.handledAt
                 && W.Deliverable(conn.handler, conn.workers.handledAt[i], ActorMessages(ps)[i]))
  {
    hide Feed, Wire, ActorMessages, Launches, W.Inv, W.Skipped, W.Deliverable;
    ghost var c, w := conn.app.Abs(), conn.app.world;
    var stream := WriteAll(ps);
    pos := conn.Run(stream, events);
    PartLaunches(w, c, ps, stream[..pos], stream[pos..]);
    assert stream[..pos] + stream[pos..] == stream;
    if pos == |stream| {
      assert stream[..pos] == stream;
      DeliveredInWireOrder(w, c, ps, conn.handler, conn.workers, conn.queue.nextUndelivered);
    }
  }

  method WriteAll(ps: seq<Packet>) returns (stream: seq<byte>)
    ensures stream == Wire(ps)
  {
    hide OnWire;
    stream := [];
    assert ps[0..] == ps;
    var k := 0;
    while k < |ps|
      invariant k <= |ps| && stream + Wire(ps[k..]) == Wire(ps)
    {
      assert ps[k..][1..] == ps[k + 1..];
      Associative(stream, OnWire(ps[k]), Wire(ps[k + 1..]));
      stream := stream + OnWire(ps[k]);
      k := k + 1;
    }
    assert stream + [] == stream;
  }

  lemma FeedNothing(w: World, c: Conn)
    ensures Feed(w, c, []) == Fed(c, 0, None)
  {}

  lemma FeedOneMore(w: World, c: Conn, a: seq<byte>, bytes: seq<byte>)
    requires var f := Feed(w, c, a); f.error.None? && f.consumed == |a| && 0 < f.conn.readSize == |bytes|
    ensures var f, r := Feed(w, c, a), HandleData(w, Feed(w, c, a).conn, bytes);
            Feed(w, c, a + bytes) == Fed(r.conn, |a + bytes|, r.error)
  {
    FeedSplit(w, c, a, bytes);
    var f := Feed(w, c, a);
    assert a[f.consumed..] + bytes == bytes;
    hide HandleData;
    assert bytes[..|bytes|] == bytes && bytes[|bytes|..] == [];
  }

  lemma SkipsNothing(h: Handler, s: W.State<Packet>, step: W.Step<Packet>)
    requires W.Enabled(s, step) && W.Skipped(s) == {} && (step.FinishJob? || step.FinishInline? ==> !step.drop)
    ensures W.Skipped(W.Next(h, s, step)) == {}
  {
    hide W.Deliverable;
    assert forall i :: i in s.done && s.done[i].Dropped? ==> i in W.Skipped(s);
  }

  lemma FinishKeepsAccepted(h: Handler, s: W.State<Packet>, step: W.Step<Packet>)
    requires W.Enabled(s, step) && step.FinishInline?
    ensures W.Next(h, s, step).accepted == s.accepted && W.Next(h, s, step).reader.Reading?
  {}

  lemma FinishKeepsReader(h: Handler, s: W.State<Packet>, step: W.Step<Packet>)
    requires W.Enabled(s, step) && (step.FinishJob? || step.BackToHub?)
    ensures W.Next(h, s, step).accepted == s.accepted && W.Next(h, s, step).reader == s.reader
  {}
}
