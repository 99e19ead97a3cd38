/** One reader that hands out ids, any number of workers that finish in any order, and the queue between them and the
    receivers. */
module BaspWorkers {
  import opened MessageQueue
  import opened StreamLayer

  datatype Job<+M> = Job(id: nat, msg: M)

  /** What `handle_remote_message` depends on: the receiver in a payload, if the payload can be deserialized, where 0
      is no receiver, and whether an actor is registered at the time of the `n`-th call. */
  datatype Handler<!M> = Handler(receiver: M -> Option<nat>, registered: (nat, nat) -> bool)

  /** The guards of `handle_remote_message` in the `n`-th call: the payload deserializes, it names a receiver, and that
      receiver is registered. */
  predicate Deliverable<M>(h: Handler<M>, n: nat, msg: M) {
    var r := h.receiver(msg);
    r.Some? && r.value != 0 && h.registered(n, r.value)
  }

  /** The thread that reads from the socket; without an idle worker it handles a message itself. */
  datatype Reader<+M> = Reading | Handling(job: Job<M>)

  /** `busy` workers have a job, `leaving` workers have finished one but are not back in the hub. `handledAt` tells for
      each id that a call of `handle_remote_message` has been made for which call it was; `calls` counts these calls. */
  datatype State<+M> = State(accepted: seq<M>, done: map<nat, Content<M>>, handledAt: map<nat, nat>, calls: nat,
                             idle: set<nat>, busy: map<nat, Job<M>>, leaving: set<nat>, reader: Reader<M>)

  /** `drop` stands for a caller that completes the id of a job with `drop` in place of handling it. */
  datatype Step<+M> =
    | Launch(msg: M, worker: nat)
    | HandleInline(msg: M)
    | FinishJob(worker: nat, drop: bool)
    | FinishInline(drop: bool)
    | BackToHub(worker: nat)

  predicate Enabled<M>(s: State<M>, step: Step<M>) {
    match step
    case Launch(_, w) => s.reader.Reading? && w in s.idle
    case HandleInline(_) => s.reader.Reading? && s.idle == {}
    case FinishJob(w, _) => w in s.busy
    case FinishInline(_) => s.reader.Handling?
    case BackToHub(w) => w in s.leaving
  }

  /** `handle_remote_message` pushes, or it returns early and never completes its id. */
  function Finish<M>(h: Handler<M>, s: State<M>, job: Job<M>, drop: bool): State<M> {
    if drop then s.(done := s.done[job.id := Dropped])
    else
      var t := s.(handledAt := s.handledAt[job.id := s.calls], calls := s.calls + 1);
      if Deliverable(h, s.calls, job.msg) then t.(done := s.done[job.id := Mail(job.msg)]) else t
  }

  function Next<M>(h: Handler<M>, s: State<M>, step: Step<M>): State<M>
    requires Enabled(s, step)
  {
    match step
    case Launch(msg, w) =>
      s.(accepted := s.accepted + [msg], idle := s.idle - {w}, busy := s.busy[w := Job(|s.accepted|, msg)])
    case HandleInline(msg) => s.(accepted := s.accepted + [msg], reader := Handling(Job(|s.accepted|, msg)))
    case FinishJob(w, drop) =>
      Finish(h, s.(busy := s.busy - {w}, leaving := s.leaving + {w}), s.busy[w], drop)
    case FinishInline(drop) => Finish(h, s.(reader := Reading), s.reader.job, drop)
    case BackToHub(w) => s.(leaving := s.leaving - {w}, idle := s.idle + {w})
  }

  /** Every interleaving: steps that are not enabled do not happen. */
  function Run<M>(h: Handler<M>, s: State<M>, steps: seq<Step<M>>): State<M>
    decreases |steps|
  {
    if steps == [] then s else Run(h, if Enabled(s, steps[0]) then Next(h, s, steps[0]) else s, steps[1..])
  }

  function Start<M>(workers: set<nat>): State<M> {
    State([], map[], map[], 0, workers, map[], {}, Reading)
  }

  // -- workers --------------------------------------------------------------------------------------------------------

  /** Each worker is idle, has a job, or is on its way back to the hub. */
  ghost predicate AllAccounted<M>(s: State<M>, workers: set<nat>) {
    && s.idle + s.busy.Keys + s.leaving == workers
    && s.idle !! s.busy.Keys && s.idle !! s.leaving && s.busy.Keys !! s.leaving
  }

  /** In every run no worker gets lost. */
  lemma {:induction false} WorkersStay<M>(h: Handler<M>, s: State<M>, steps: seq<Step<M>>, workers: set<nat>)
    requires AllAccounted(s, workers)
    ensures AllAccounted(Run(h, s, steps), workers)
    decreases |steps|
  {
    if steps != [] {
      if Enabled(s, steps[0]) {
        WorkersKept(h, s, steps[0], workers);
        hide Next, AllAccounted;
        WorkersStay(h, Next(h, s, steps[0]), steps[1..], workers);
      } else {
        WorkersStay(h, s, steps[1..], workers);
      }
    }
  }

  lemma WorkersKept<M>(h: Handler<M>, s: State<M>, step: Step<M>, workers: set<nat>)
    requires AllAccounted(s, workers) && Enabled(s, step)
    ensures AllAccounted(Next(h, s, step), workers)
  {
    hide Deliverable;
  }

  /** And none is in the way: a worker with a job can finish it, one that has finished can return, and the reader can
      finish what it handles; a message that arrives goes to an idle worker, or is handled by the reader itself if and
      only if there is none. */
  lemma NothingBlocks<M>(s: State<M>, workers: set<nat>, msg: M, drop: bool)
    requires AllAccounted(s, workers)
    ensures forall w :: w in workers ==>
              (w in s.idle || Enabled(s, FinishJob(w, drop)) || Enabled(s, BackToHub(w)))
    ensures s.reader.Handling? <==> Enabled(s, FinishInline(drop))
    ensures forall w :: Enabled(s, Launch(msg, w)) <==> s.reader.Reading? && w in s.idle
    ensures Enabled(s, HandleInline(msg)) <==> s.reader.Reading? && forall w :: w in workers ==> w !in s.idle
  {}

  // -- what every step keeps ------------------------------------------------------------------------------------------

  /** An id whose message was handled but could not be delivered: nothing will ever complete it. */
  predicate Lost<M>(h: Handler<M>, s: State<M>, id: nat) {
    id < |s.accepted| && id in s.handledAt && !Deliverable(h, s.handledAt[id], s.accepted[id])
  }

  /** A job in progress: its id is issued, and neither handled nor completed. */
  ghost predicate Open<M>(s: State<M>, job: Job<M>) {
    job.id < |s.accepted| && job.msg == s.accepted[job.id] && job.id !in s.done && job.id !in s.handledAt
  }

  ghost predicate InProgress<M>(s: State<M>, id: nat) {
    (s.reader.Handling? && s.reader.job.id == id) || exists w :: w in s.busy && s.busy[w].id == id
  }

  ghost predicate JobsOpen<M>(s: State<M>) {
    && (forall w :: w in s.busy ==> Open(s, s.busy[w]))
    && (s.reader.Handling? ==> Open(s, s.reader.job))
  }

  /** No two jobs have the same id. */
  ghost predicate JobsDiffer<M>(s: State<M>) {
    && (forall v, w :: v in s.busy && w in s.busy && v != w ==> s.busy[v].id != s.busy[w].id)
    && (s.reader.Handling? ==> forall w :: w in s.busy ==> s.busy[w].id != s.reader.job.id)
  }

  /** A handled id is completed, with its message, exactly if the message could be delivered; a completed id that was
      never handled was dropped. */
  ghost predicate Settled<M>(h: Handler<M>, s: State<M>) {
    && (forall i :: i in s.done ==> i < |s.accepted|)
    && (forall i :: i in s.handledAt ==> i < |s.accepted|)
    && (forall i :: i in s.handledAt ==> (i in s.done <==> Deliverable(h, s.handledAt[i], s.accepted[i])))
    && (forall i :: i in s.done ==> s.done[i] == if i in s.handledAt then Mail(s.accepted[i]) else Dropped)
  }

  ghost predicate WorkersDiffer<M>(s: State<M>) {
    s.idle !! s.busy.Keys && s.idle !! s.leaving && s.leaving !! s.busy.Keys
  }

  ghost predicate Inv<M>(h: Handler<M>, s: State<M>) {
    JobsOpen(s) && JobsDiffer(s) && Settled(h, s) && WorkersDiffer(s) && Accounted(s)
  }

  ghost predicate Accounted<M>(s: State<M>) {
    forall i: nat :: i < |s.accepted| ==> i in s.done || i in s.handledAt || InProgress(s, i)
  }

  lemma AcceptKeeps<M>(h: Handler<M>, s: State<M>, step: Step<M>)
    requires Inv(h, s) && Enabled(s, step) && (step.Launch? || step.HandleInline?)
    ensures Inv(h, Next(h, s, step))
  {
    hide Deliverable, Accounted, JobsOpen, JobsDiffer, Settled;
    AcceptAccounts(h, s, step);
    AcceptOpens(h, s, step);
    AcceptDiffers(h, s, step);
  }

  lemma AcceptDiffers<M>(h: Handler<M>, s: State<M>, step: Step<M>)
    requires JobsOpen(s) && JobsDiffer(s) && Enabled(s, step) && (step.Launch? || step.HandleInline?)
    ensures JobsDiffer(Next(h, s, step))
  {
    assert forall w :: w in s.busy ==> Open(s, s.busy[w]);
  }

  lemma AcceptOpens<M>(h: Handler<M>, s: State<M>, step: Step<M>)
    requires JobsOpen(s) && Settled(h, s) && Enabled(s, step) && (step.Launch? || step.HandleInline?)
    ensures JobsOpen(Next(h, s, step)) && Settled(h, Next(h, s, step))
  {
    hide Deliverable;
    var t := Next(h, s, step);
    forall w | w in t.busy ensures Open(t, t.busy[w]) {
      if w in s.busy && t.busy[w] == s.busy[w] {
        assert Open(s, s.busy[w]);
      }
    }
  }

  lemma AcceptAccounts<M>(h: Handler<M>, s: State<M>, step: Step<M>)
    requires Accounted(s) && WorkersDiffer(s) && Enabled(s, step) && (step.Launch? || step.HandleInline?)
    ensures Accounted(Next(h, s, step))
  {
    var t := Next(h, s, step);
    forall i: nat | i < |t.accepted| ensures i in t.done || i in t.handledAt || InProgress(t, i) {
      if i < |s.accepted| {
        if InProgress(s, i) {
          var w :| w in s.busy && s.busy[w].id == i;
          assert w in t.busy && t.busy[w].id == i;
        }
      } else if step.Launch? {
        assert step.worker in t.busy && t.busy[step.worker].id == i;
      }
    }
  }

  /** `rest` is a state from which one job has just been taken. */
  ghost predicate Without<M>(h: Handler<M>, rest: State<M>, job: Job<M>) {
    && JobsOpen(rest) && JobsDiffer(rest) && Settled(h, rest) && WorkersDiffer(rest)
    && Open(rest, job) && !InProgress(rest, job.id)
    && (forall i: nat :: i < |rest.accepted| && i != job.id ==>
        i in rest.done || i in rest.handledAt || InProgress(rest, i))
  }

  lemma FinishKeeps<M>(h: Handler<M>, rest: State<M>, job: Job<M>, drop: bool)
    requires Without(h, rest, job)
    ensures Inv(h, Finish(h, rest, job, drop))
  {
    hide Settled, Deliverable, JobsOpen, JobsDiffer, WorkersDiffer;
    FinishSettles(h, rest, job, drop);
    FinishLeavesJobs(h, rest, job, drop);
    var t := Finish(h, rest, job, drop);
    forall i: nat | i < |t.accepted| ensures i in t.done || i in t.handledAt || InProgress(t, i) {
      assert InProgress(rest, i) ==> InProgress(t, i);
    }
  }

  lemma FinishLeavesJobs<M>(h: Handler<M>, rest: State<M>, job: Job<M>, drop: bool)
    requires JobsOpen(rest) && JobsDiffer(rest) && WorkersDiffer(rest) && !InProgress(rest, job.id)
    ensures var t := Finish(h, rest, job, drop); JobsOpen(t) && JobsDiffer(t) && WorkersDiffer(t)
  {
    hide Deliverable;
    var t := Finish(h, rest, job, drop);
    forall w | w in t.busy ensures Open(t, t.busy[w]) {
      assert Open(rest, rest.busy[w]) && rest.busy[w].id != job.id;
    }
    assert rest.reader.Handling? ==> rest.reader.job.id != job.id;
    hide InProgress;
  }

  lemma FinishSettles<M>(h: Handler<M>, rest: State<M>, job: Job<M>, drop: bool)
    requires Settled(h, rest) && Open(rest, job)
    ensures Settled(h, Finish(h, rest, job, drop))
  {
    hide Deliverable;
  }

  lemma TakeFromWorker<M>(h: Handler<M>, s: State<M>, w: nat)
    requires Inv(h, s) && w in s.busy
    ensures Without(h, s.(busy := s.busy - {w}, leaving := s.leaving + {w}), s.busy[w])
  {
    hide Settled, Deliverable;
    var rest := s.(busy := s.busy - {w}, leaving := s.leaving + {w});
    assert Settled(h, rest) by { SameSettles(h, s, rest); }
    OthersInProgress(s, w);
    hide InProgress;
    assert forall v :: v in s.busy ==> Open(s, s.busy[v]);
  }

  lemma SameSettles<M>(h: Handler<M>, s: State<M>, t: State<M>)
    requires Settled(h, s) && t.accepted == s.accepted && t.done == s.done && t.handledAt == s.handledAt
    ensures Settled(h, t)
  {
    hide Deliverable;
  }

  lemma OthersInProgress<M>(s: State<M>, w: nat)
    requires JobsDiffer(s) && w in s.busy
    ensures var rest := s.(busy := s.busy - {w}, leaving := s.leaving + {w});
            && !InProgress(rest, s.busy[w].id)
            && forall i: nat :: i != s.busy[w].id && InProgress(s, i) ==> InProgress(rest, i)
  {
    var rest := s.(busy := s.busy - {w}, leaving := s.leaving + {w});
    forall i: nat | i != s.busy[w].id && InProgress(s, i) ensures InProgress(rest, i) {
      if exists v :: v in s.busy && s.busy[v].id == i {
        var v :| v in s.busy && s.busy[v].id == i;
        assert v in rest.busy;
      }
    }
  }

  lemma TakeFromReader<M>(h: Handler<M>, s: State<M>)
    requires Inv(h, s) && s.reader.Handling?
    ensures Without(h, s.(reader := Reading), s.reader.job)
  {
    hide Deliverable;
    var rest := s.(reader := Reading);
    assert forall i: nat :: i != s.reader.job.id && InProgress(s, i) ==> InProgress(rest, i);
  }

  lemma StepKeeps<M>(h: Handler<M>, s: State<M>, step: Step<M>)
    requires Inv(h, s) && Enabled(s, step)
    ensures Inv(h, Next(h, s, step))
  {
    hide Deliverable, Finish;
    if step.BackToHub? {
      var t := Next(h, s, step);
      assert forall i: nat :: InProgress(s, i) ==> InProgress(t, i);
    } else if step.Launch? || step.HandleInline? {
      AcceptKeeps(h, s, step);
    } else if step.FinishJob? {
      TakeFromWorker(h, s, step.worker);
      FinishKeeps(h, s.(busy := s.busy - {step.worker}, leaving := s.leaving + {step.worker}), s.busy[step.worker],
          step.drop);
    } else {
      TakeFromReader(h, s);
      FinishKeeps(h, s.(reader := Reading), s.reader.job, step.drop);
    }
  }

  lemma {:induction false} RunKeeps<M>(h: Handler<M>, s: State<M>, steps: seq<Step<M>>)
    requires Inv(h, s)
    ensures Inv(h, Run(h, s, steps))
    decreases |steps|
  {
    if steps != [] {
      if Enabled(s, steps[0]) {
        StepKeeps(h, s, steps[0]);
      }
      hide Inv, Next;
      RunKeeps(h, if Enabled(s, steps[0]) then Next(h, s, steps[0]) else s, steps[1..]);
    }
  }

  // -- the plain queue of a single thread -----------------------------------------------------------------------------

  /** What a single thread would deliver of the first `n` accepted messages, without the `skipped` ones. */
  function Fifo<M>(accepted: seq<M>, skipped: set<nat>, n: nat): seq<M>
    requires n <= |accepted|
  {
    if n == 0 then [] else Fifo(accepted, skipped, n - 1) + (if n - 1 in skipped then [] else [accepted[n - 1]])
  }

  lemma {:induction false} FifoIsPrefix<M>(accepted: seq<M>, skipped: set<nat>, n: nat)
    requires n <= |accepted| && forall i: nat :: i < n ==> i !in skipped
    ensures Fifo(accepted, skipped, n) == accepted[..n]
  {
    if n > 0 {
      FifoIsPrefix(accepted, skipped, n - 1);
      assert accepted[..n] == accepted[..n - 1] + [accepted[n - 1]];
    }
  }

  ghost function Skipped<M>(s: State<M>): set<nat> {
    set i | i in s.done && s.done[i].Dropped?
  }

  /** Whatever the interleaving, what the queue releases is what a single thread would have delivered so far. */
  lemma {:induction false} ReleasesFifo<M>(h: Handler<M>, s: State<M>, n: nat)
    requires Inv(h, s) && Covers(s.done, n)
    ensures n <= |s.accepted| && Released(s.done, n) == Fifo(s.accepted, Skipped(s), n)
  {
    if n > 0 {
      assert n - 1 in s.done;
      ReleasesFifo(h, s, n - 1);
    }
  }

  /** With no job in progress: everything accepted has been released if and only if every message that was handled
      could be delivered, that is, its payload named a receiver that was registered at the time; otherwise delivery
      has stopped at the first message for which this was not so. */
  lemma Drained<M>(h: Handler<M>, s: State<M>, n: nat)
    requires Inv(h, s) && IsRun(s.done, n) && s.busy == map[] && s.reader.Reading?
    ensures n == |s.accepted| <==>
            forall i: nat :: i < |s.accepted| && i in s.handledAt ==> Deliverable(h, s.handledAt[i], s.accepted[i])
    ensures n < |s.accepted| ==> Lost(h, s, n) && forall i: nat :: Lost(h, s, i) ==> n <= i
  {
    ReleasesFifo(h, s, n);
    hide Deliverable;
    assert forall i: nat :: !InProgress(s, i);
    if n < |s.accepted| {
      assert n in s.handledAt && !Deliverable(h, s.handledAt[n], s.accepted[n]);
    }
  }

  /** With a registry that does not change, the condition is one on the messages alone. */
  lemma DrainedIfDeliverable<M>(h: Handler<M>, s: State<M>, n: nat)
    requires Inv(h, s) && IsRun(s.done, n) && s.busy == map[] && s.reader.Reading? && Skipped(s) == {}
    requires forall m: nat, k: nat, actor: nat :: h.registered(m, actor) == h.registered(k, actor)
    ensures n == |s.accepted| <==> forall i: nat :: i < |s.accepted| ==> Deliverable(h, 0, s.accepted[i])
  {
    Drained(h, s, n);
    forall i: nat | i < |s.accepted|
      ensures i in s.handledAt && (Deliverable(h, s.handledAt[i], s.accepted[i]) <==> Deliverable(h, 0, s.accepted[i]))
    {
      assert !InProgress(s, i);
      assert i in s.done && i !in s.handledAt ==> i in Skipped(s);
      var r := h.receiver(s.accepted[i]);
      assert r.Some? ==> h.registered(s.handledAt[i], r.value) == h.registered(0, r.value);
    }
  }

  /** A message that could not be delivered stays so: once delivery has reached it, nothing is delivered ever again. */
  lemma {:induction false} BlockedForever<M>(h: Handler<M>, s: State<M>, steps: seq<Step<M>>, n: nat)
    requires Inv(h, s) && IsRun(s.done, n) && Lost(h, s, n)
    ensures var t := Run(h, s, steps);
            IsRun(t.done, n) && Lost(h, t, n) && Released(t.done, n) == Released(s.done, n)
    decreases |steps|
  {
    if steps != [] {
      var t := if Enabled(s, steps[0]) then Next(h, s, steps[0]) else s;
      if Enabled(s, steps[0]) {
        StepKeeps(h, s, steps[0]);
        DoneGrows(h, s, steps[0], n);
      }
      hide Inv, Lost, Next;
      BlockedForever(h, t, steps[1..], n);
    }
  }

  lemma DoneGrows<M>(h: Handler<M>, s: State<M>, step: Step<M>, n: nat)
    requires Inv(h, s) && Enabled(s, step) && Covers(s.done, n)
    ensures var t := Next(h, s, step);
            && Covers(t.done, n) && Released(t.done, n) == Released(s.done, n)
            && (Lost(h, s, n) && n !in s.done ==> Lost(h, t, n) && n !in t.done)
  {
    hide Deliverable;
    if step.FinishJob? {
      FinishGrows(h, s.(busy := s.busy - {step.worker}, leaving := s.leaving + {step.worker}), s.busy[step.worker],
          step.drop, n);
    } else if step.FinishInline? {
      FinishGrows(h, s.(reader := Reading), s.reader.job, step.drop, n);
    }
    hide Finish;
  }

  lemma FinishGrows<M>(h: Handler<M>, rest: State<M>, job: Job<M>, drop: bool, n: nat)
    requires Open(rest, job) && Covers(rest.done, n)
    ensures var t := Finish(h, rest, job, drop);
            && Covers(t.done, n) && Released(t.done, n) == Released(rest.done, n)
            && (Lost(h, rest, n) && n !in rest.done ==> Lost(h, t, n) && n !in t.done)
  {
    hide Deliverable;
    ReleasedStays(rest.done, job.id, Mail(job.msg), n);
    ReleasedStays(rest.done, job.id, Dropped, n);
    hide Released, Covers;
  }

  /** Such a message is all it takes: it arrives first, and whatever arrives after it and whatever the workers do,
      nothing is ever delivered. */
  lemma OneMessageBlocks<M>(h: Handler<M>, msg: M, workers: set<nat>, worker: nat, steps: seq<Step<M>>)
    requires !Deliverable(h, 0, msg) && (worker in workers || workers == {})
    ensures var first := if worker in workers then [Launch(msg, worker), FinishJob(worker, false)]
                         else [HandleInline(msg), FinishInline(false)];
            var t := Run(h, Start(workers), first + steps);
            Lost(h, t, 0) && IsRun(t.done, 0) && Released(t.done, 0) == []
  {
    var first := if worker in workers then [Launch(msg, worker), FinishJob(worker, false)]
                 else [HandleInline(msg), FinishInline(false)];
    var s0: State<M> := Start(workers);
    var s1 := Next(h, s0, first[0]);
    var s2 := Next(h, s1, first[1]);
    StepKeeps(h, s0, first[0]);
    StepKeeps(h, s1, first[1]);
    assert Lost(h, s2, 0) && IsRun(s2.done, 0);
    BlockedForever(h, s2, steps, 0);
    hide Next, Enabled, Lost, Inv, Deliverable;
    assert (first + steps)[0] == first[0];
    assert (first + steps)[1..][0] == first[1] && (first + steps)[1..][1..] == steps;
  }

  lemma StartKeeps<M>(h: Handler<M>, workers: set<nat>)
    ensures Inv(h, Start(workers))
  {}

  /** The same run on the real queue: every call meets its precondition, and what has been enqueued at the receivers is
      the single-threaded order up to the first id that is not completed. */
  method Execute<M>(h: Handler<M>, workers: set<nat>, steps: seq<Step<M>>) returns (q: MessageQueue<M>, s: State<M>)
    ensures s == Run(h, Start(workers), steps) && Inv(h, s)
    ensures fresh(q) && q.Valid() && q.done == s.done && q.nextId == |s.accepted|
    ensures q.nextUndelivered <= |s.accepted| && q.delivered == Fifo(s.accepted, Skipped(s), q.nextUndelivered)
    ensures s.busy == map[] && s.reader.Reading? && (forall i: nat :: !Lost(h, s, i)) ==>
              q.nextUndelivered == q.nextId && q.pending == []
  {
    hide Next, Enabled, Inv, Fifo;
    q := new MessageQueue<M>();
    StartKeeps(h, workers);
    s := Start(workers);
    var i := 0;
    while i < |steps|
      invariant i <= |steps| && fresh(q) && q.Valid() && q.done == s.done && q.nextId == |s.accepted|
      invariant Inv(h, s) && Run(h, Start(workers), steps) == Run(h, s, steps[i..])
    {
      var step := steps[i];
      if Enabled(s, step) {
        StepKeeps(h, s, step);
        Perform(q, h, s, step);
        s := Next(h, s, step);
      }
      assert steps[i..][1..] == steps[i + 1..];
      i := i + 1;
    }
    ReleasesFifo(h, s, q.nextUndelivered);
    if s.busy == map[] && s.reader.Reading? {
      Drained(h, s, q.nextUndelivered);
      assert q.nextUndelivered == q.nextId ==> q.pending == [] by {
        assert q.pending != [] ==> q.pending[0].id in q.done;
      }
    }
  }

  /** The calls that one step makes on the queue. */
  method Perform<M>(q: MessageQueue<M>, h: Handler<M>, s: State<M>, step: Step<M>)
    requires Enabled(s, step) && Inv(h, s)
    requires q.Valid() && q.done == s.done && q.nextId == |s.accepted|
    modifies q
    ensures q.Valid() && q.done == Next(h, s, step).done && q.nextId == |Next(h, s, step).accepted|
    ensures old(q.delivered) <= q.delivered
  {
    if step.Launch? || step.HandleInline? {
      var id := q.NewId();
    } else if step.FinishJob? || step.FinishInline? {
      var job := if step.FinishJob? then s.busy[step.worker] else s.reader.job;
      assert Open(s, job);
      if step.drop {
        q.Drop(job.id);
      } else {
        HandleRemoteMessage(q, h, s.calls, job);
      }
    }
  }

  /** `handle_remote_message` up to its push. */
  method HandleRemoteMessage<M>(q: MessageQueue<M>, h: Handler<M>, call: nat, job: Job<M>)
    requires q.Valid() && job.id < q.nextId && job.id !in q.done
    modifies q
    ensures q.Valid() && q.nextId == old(q.nextId) && old(q.delivered) <= q.delivered
    ensures var r := h.receiver(job.msg);
            && (r.Some? && r.value != 0 && h.registered(call, r.value) ==>
                q.done == old(q.done)[job.id := Mail(job.msg)])
            && (r.None? || r.value == 0 || !h.registered(call, r.value) ==> q.done == old(q.done))
  {
    var receiver := h.receiver(job.msg);
    if receiver.None? {
      return;
    }
    if receiver.value == 0 {
      return;
    }
    if !h.registered(call, receiver.value) {
      return;
    }
    q.Push(job.id, Mail(job.msg));
  }
}
