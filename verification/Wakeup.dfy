/** The hand-off between threads that enqueue messages and the thread of the multiplexer: no wake-up is lost. */
module Wakeup {
  import opened PollsetModel
  import opened PollsetTheorems
  import opened PollsetScan

  /** The mailbox of an actor shell; `count` messages are waiting. */
  datatype Box = Blocked | Open(count: nat) | Closed

  /** What a socket manager holds besides its mask: the mailbox of its shell and the bytes in its output buffer. */
  datatype Mgr = Mgr(box: Box, out: nat, failed: bool)

  /** Where a call of `handle` is. `Reading` and `Preparing` run code of the upper layer; `output` tells that writing
      has been reported as well. `Deciding` is about to call `done_sending`, `Dropping` is between that call and the
      `mask_del` after it, and `Storing` has returned to the scan. */
  datatype Phase = Reading(output: bool) | Preparing | Flushing | Deciding | Dropping | Storing

  /** Where the thread of the multiplexer is: in a call of `handle` for the manager at `index`, whose entry polled for
      `before` and which would return `events` now; or in the `init` of a manager. */
  datatype Place = Idle | Starting(mgr: nat) | Visiting(mgr: nat, index: nat, before: Ops, events: Ops, phase: Phase)

  datatype Record = Registration(mgr: nat, op: Op) | Init(mgr: nat) | StopAll

  /** The pollset is the one of the multiplexer. `signals` are the managers whose shells have been unblocked by a
      thread that has not registered them yet; `records` are on their way through the pipe. */
  datatype System = System(mgrs: seq<Mgr>, pollset: State, place: Place, records: seq<Record>, signals: multiset<nat>)

  datatype Step =
    // any other thread
    | Enqueue(mgr: nat)
    | Signal(mgr: nat)
    | Post(record: Record)
    // the thread of the multiplexer
    | ExecuteRecord
    | StartInit(mgr: nat)
    | EndInit
    | StartVisit(mgr: nat, input: bool, output: bool)
    | Produce(bytes: nat)
    | EnqueueHere(mgr: nat)
    | RegisterMore(mgr: nat, op: Op)
    | EndRead(keep: bool)
    | ConsumeMessage
    | EndPrepare
    | Flush(written: int, temporary: bool)
    | Decide
    | Drop
    | FailWrite
    | Store
    | Fail(mgr: nat)
    | Quit(mgr: nat)

  // -- the steps ------------------------------------------------------------------------------------------------------

  predicate Shape(s: System) {
    && WellFormed(s.pollset) && |s.pollset.masks| == |s.mgrs|
    && (s.place != Idle ==> s.place.mgr < |s.mgrs|)
    && (s.place.Visiting? ==> s.place.index < |s.pollset.managers| && s.pollset.managers[s.place.index] == s.place.mgr)
  }

  function Put(s: System, m: nat, g: Mgr): System
    requires m < |s.mgrs|
  {
    s.(mgrs := s.mgrs[m := g])
  }

  /** `register_reading` or `register_writing` in the thread of the multiplexer. */
  function RegisterHere(s: System, m: nat, op: Op): (t: System)
    requires Shape(s) && m < |s.mgrs|
    ensures Shape(t) && t.mgrs == s.mgrs && t.place == s.place && t.records == s.records && t.signals == s.signals
  {
    s.(pollset := Registered(s.pollset, m, op))
  }

  /** `mask_del` for the manager that is visited, and the events it would return. */
  function CutHere(s: System, op: Op, next: Phase): (t: System)
    requires Shape(s) && s.place.Visiting?
    ensures Shape(t) && t.mgrs == s.mgrs && t.records == s.records && t.signals == s.signals
  {
    var v, m := s.place, s.place.mgr;
    s.(pollset := s.pollset.(masks := s.pollset.masks[m := s.pollset.masks[m].Without(op)]),
       place := v.(events := v.events.Without(op), phase := next))
  }

  /** `handle_write_event` has failed: polling for output ends, and reading may go on. */
  function WriteFailed(s: System): (t: System)
    requires Shape(s) && s.place.Visiting?
    ensures Shape(t) && |t.mgrs| == |s.mgrs|
  {
    CutHere(Put(s, s.place.mgr, s.mgrs[s.place.mgr].(failed := true)), Write, Storing)
  }

  /** A failed connection is removed with an empty mask, as after an error reported by `poll`. */
  function Removed(s: System, m: nat): (t: System)
    requires Shape(s) && m < |s.mgrs|
    ensures Shape(t) && |t.mgrs| == |s.mgrs|
  {
    var p := s.pollset.(masks := s.pollset.masks[m := NOTHING]);
    var i := IndexOf(p.managers, m);
    Put(s, m, s.mgrs[m].(failed := true)).(pollset := if i == -1 then p else Deleted(p, i), place := Idle)
  }

  function PushBack(b: Box): Box {
    match b
    case Blocked => Open(1)
    case Open(n) => Open(n + 1)
    case Closed => Closed
  }

  predicate At(s: System, phase: Phase) {
    s.place.Visiting? && s.place.phase == phase
  }

  predicate InRead(s: System) {
    s.place.Visiting? && s.place.phase.Reading?
  }

  /** Code of the manager `s.place.mgr` is running. */
  predicate InUpperLayer(s: System) {
    s.place.Starting? || InRead(s) || At(s, Preparing)
  }

  /** The events the pollset holds for the manager that is visited. */
  function Entries(s: System): Ops
    requires Shape(s) && s.place.Visiting?
  {
    s.pollset.pollset[s.place.index].events
  }

  /** What is assumed of callbacks: after one has returned false, none registers its manager for something new in the
      same call, and ... */
  predicate MayRegister(s: System, m: nat, op: Op)
    requires Shape(s) && m < |s.mgrs|
  {
    s.place.Visiting? && s.place.mgr == m && s.place.events != s.place.before ==> s.pollset.masks[m].Has(op)
  }

  /** ... none returns false after its manager has been registered for something new in the same call. */
  predicate MayReturnFalse(s: System)
    requires Shape(s) && s.place.Visiting?
  {
    s.place.events == s.place.before ==> Entries(s) == s.place.before
  }

  predicate Enabled(s: System, step: Step)
    requires Shape(s)
  {
    var n := |s.mgrs|;
    match step
    case Enqueue(m) => m < n
    case Signal(m) => m < n && m in s.signals
    case Post(r) => !r.StopAll? ==> r.mgr < n
    case ExecuteRecord => s.place == Idle && s.records != [] && (!s.records[0].StopAll? ==> s.records[0].mgr < n)
    case StartInit(m) => s.place == Idle && m < n
    case EndInit => s.place.Starting?
    case StartVisit(m, input, output) =>
      && s.place == Idle && m < n && m in s.pollset.managers && (input || output)
      && var e := s.pollset.pollset[IndexOf(s.pollset.managers, m)].events;
         (input ==> e.read) && (output ==> e.write)
    case Produce(_) => InUpperLayer(s) && MayRegister(s, s.place.mgr, Write)
    case EnqueueHere(m) => (s.place == Idle || InUpperLayer(s)) && m < n && MayRegister(s, m, Write)
    case RegisterMore(m, op) => (s.place == Idle || InUpperLayer(s)) && m < n && MayRegister(s, m, op)
    case EndRead(keep) => InRead(s) && (keep || MayReturnFalse(s))
    case ConsumeMessage => At(s, Preparing) && s.mgrs[s.place.mgr].box.Open? && s.mgrs[s.place.mgr].box.count > 0
    case EndPrepare => At(s, Preparing)
    case Flush(w, temporary) =>
      && At(s, Flushing) && w <= s.mgrs[s.place.mgr].out
      && (s.mgrs[s.place.mgr].out > 0 ==> w > 0 || (w < 0 && temporary))
    case Decide => At(s, Deciding)
    case Drop => At(s, Dropping) && MayReturnFalse(s)
    case FailWrite => (At(s, Preparing) || At(s, Flushing)) && MayReturnFalse(s)
    case Store => At(s, Storing)
    case Fail(m) => m < n && (s.place == Idle || s.place.mgr == m)
    case Quit(m) => m < n && (s.place == Idle || InUpperLayer(s))
  }

  /** `enqueue` in the thread of the multiplexer: an unblocked shell is registered at once. */
  function EnqueuedHere(s: System, m: nat): System
    requires Shape(s) && m < |s.mgrs|
  {
    var t := Put(s, m, s.mgrs[m].(box := PushBack(s.mgrs[m].box)));
    if s.mgrs[m].box.Blocked? then RegisterHere(t, m, Write) else t
  }

  /** `begin_output` and appending to the output buffer. */
  function Produced(s: System, bytes: nat): System
    requires Shape(s) && s.place != Idle
  {
    var m := s.place.mgr;
    var t := if s.mgrs[m].out == 0 then RegisterHere(s, m, Write) else s;
    Put(t, m, t.mgrs[m].(out := t.mgrs[m].out + bytes))
  }

  function To(s: System, phase: Phase): System
    requires s.place.Visiting?
  {
    s.(place := s.place.(phase := phase))
  }

  /** The output part of `handle_write_event`: it goes on if there is output left. */
  function Flushed(s: System, written: int): System
    requires s.place.Visiting? && s.place.mgr < |s.mgrs| && written <= s.mgrs[s.place.mgr].out
  {
    var m, g := s.place.mgr, s.mgrs[s.place.mgr];
    if g.out == 0 then To(s, Deciding)
    else if written > 0 then To(Put(s, m, g.(out := g.out - written)), if written < g.out then Storing else Deciding)
    else To(s, Storing)
  }

  /** `done_sending` is `try_block_mailbox`: it ends the polling for output. */
  function Decided(s: System): System
    requires s.place.Visiting? && s.place.mgr < |s.mgrs|
  {
    var m := s.place.mgr;
    match s.mgrs[m].box
    case Blocked => To(s, Dropping)
    case Open(n) => if n == 0 then To(Put(s, m, s.mgrs[m].(box := Blocked)), Dropping) else To(s, Storing)
    case Closed => To(s, Storing)
  }

  function Executed(s: System): System
    requires Shape(s) && s.records != [] && (!s.records[0].StopAll? ==> s.records[0].mgr < |s.mgrs|)
  {
    var t := s.(records := s.records[1..]);
    match s.records[0]
    case Registration(m, op) => RegisterHere(t, m, op)
    case Init(m) => t.(place := Starting(m))
    case StopAll => t.(pollset := ShutDown(t.pollset))
  }

  /** `poll` has reported these events for the entry at `i`. */
  function WithReady(p: State, i: nat, input: bool, output: bool): State
    requires i < |p.pollset|
  {
    p.(pollset := p.pollset[i := p.pollset[i].(revents := Ready(input, output, false))])
  }

  function Started(s: System, m: nat, input: bool, output: bool): (t: System)
    requires Shape(s) && m in s.pollset.managers
    ensures Shape(t) && |t.mgrs| == |s.mgrs|
  {
    var i := IndexOf(s.pollset.managers, m);
    var e := s.pollset.pollset[i].events;
    s.(pollset := Begun(WithReady(s.pollset, i, input, output), m),
       place := Visiting(m, i, e, e, if input then Reading(output) else Preparing))
  }

  /** What the scan does with the events that `handle` returned. */
  function StoredHere(s: System): (t: System)
    requires Shape(s) && s.place.Visiting?
    ensures Shape(t) && |t.mgrs| == |s.mgrs|
  {
    s.(pollset := Stored(s.pollset, s.place.index, s.place.before, s.place.events).0, place := Idle)
  }

  /** The thread that unblocked a mailbox registers its manager; a shell without owner has been closed. */
  function Signalled(s: System, m: nat): (t: System)
    requires Shape(s) && m < |s.mgrs|
    ensures Shape(t) && |t.mgrs| == |s.mgrs|
  {
    var t := s.(signals := s.signals - multiset{m});
    if s.mgrs[m].box.Closed? then t else t.(records := s.records + [Registration(m, Write)])
  }

  function Next(s: System, step: Step): (t: System)
    requires Shape(s) && Enabled(s, step)
    ensures Shape(t) && |t.mgrs| == |s.mgrs|
  {
    match step
    case Enqueue(m) =>
      var t := Put(s, m, s.mgrs[m].(box := PushBack(s.mgrs[m].box)));
      if s.mgrs[m].box.Blocked? then t.(signals := s.signals + multiset{m}) else t
    case Signal(m) => Signalled(s, m)
    case Post(r) => s.(records := s.records + [r])
    case ExecuteRecord => Executed(s)
    case StartInit(m) => s.(place := Starting(m))
    case EndInit => s.(place := Idle)
    case StartVisit(m, input, output) => Started(s, m, input, output)
    case Produce(k) => Produced(s, k)
    case EnqueueHere(m) => EnqueuedHere(s, m)
    case RegisterMore(m, op) => RegisterHere(s, m, op)
    case EndRead(keep) =>
      var next := if s.place.phase.output then Preparing else Storing;
      if keep then To(s, next) else CutHere(s, Read, next)
    case ConsumeMessage =>
      var m := s.place.mgr;
      Put(s, m, s.mgrs[m].(box := Open(s.mgrs[m].box.count - 1)))
    case EndPrepare => To(s, Flushing)
    case Flush(w, _) => Flushed(s, w)
    case Decide => Decided(s)
    case Drop => CutHere(s, Write, Storing)
    case FailWrite => WriteFailed(s)
    case Store => StoredHere(s)
    case Fail(m) => Removed(s, m)
    case Quit(m) => Put(s, m, s.mgrs[m].(box := Closed))
  }

  function Run(s: System, steps: seq<Step>): (t: System)
    requires Shape(s)
    ensures Shape(t) && |t.mgrs| == |s.mgrs|
    decreases |steps|
  {
    if steps == [] then s else Run(if Enabled(s, steps[0]) then Next(s, steps[0]) else s, steps[1..])
  }

  // -- the pollset stays exact ----------------------------------------------------------------------------------------

  /** The manager that is visited: as long as nothing has been cut its entry agrees with its mask, and afterwards the
      events to be returned do. */
  ghost predicate VisitOk(s: System)
    requires Shape(s) && s.place.Visiting?
  {
    var v, mask := s.place, s.pollset.masks[s.place.mgr];
    && !v.before.None() && v.before.Within(Entries(s)) && v.events.Within(v.before)
    && (if v.events == v.before then Entries(s) == mask else v.events == mask)
    && (v.phase.Reading? ==> v.events == v.before && v.before.read && (v.phase.output ==> v.before.write))
    && (v.phase in {Preparing, Flushing, Deciding, Dropping} ==> v.events.write)
  }

  ghost predicate PollsetOk(s: System)
    requires Shape(s)
  {
    s.pollset.shuttingDown ||
    if s.place.Visiting? then Inv(s.pollset, {s.place.index as int}, true) && VisitOk(s) else Inv(s.pollset, {}, true)
  }

  function Gaps(s: System): set<int> {
    if s.place.Visiting? then {s.place.index as int} else {}
  }

  lemma WriteInMask(s: System)
    requires Shape(s) && s.place.Visiting? && VisitOk(s) && s.place.phase in {Preparing, Flushing, Deciding, Dropping}
    ensures s.pollset.masks[s.place.mgr].write
  {}

  lemma RegisterOk(s: System, m: nat, op: Op)
    requires Shape(s) && PollsetOk(s) && !s.pollset.shuttingDown && m < |s.mgrs| && MayRegister(s, m, op)
    requires s.place.Visiting? ==> InUpperLayer(s)
    ensures var t := RegisterHere(s, m, op);
            && PollsetOk(t) && !t.pollset.shuttingDown
            && t.pollset.masks == s.pollset.masks[m := s.pollset.masks[m].With(op)]
  {
    var p, gaps := s.pollset, Gaps(s);
    assert Alive(p, gaps);
    RegisteredKeeps(p, m, op, gaps, true);
    RegisteredMask(p, m, op, gaps);
    if s.place.Visiting? {
      OwnGrows(p, Registered(p, m, op), s.place.index);
    }
    hide Registered, EntryFits, SyncExcept, ExactExcept;
  }

  lemma OwnGrows(p: State, q: State, i: nat)
    requires WellFormed(p) && WellFormed(q) && |p.masks| == |q.masks| && OnlyGrows(p, q) && i < |p.managers|
    ensures Grows(p, q, i) && i < |q.managers| && q.managers[i] == p.managers[i]
  {}

  lemma CutOk(s: System, op: Op, next: Phase)
    requires Shape(s) && s.place.Visiting? && PollsetOk(s) && !s.pollset.shuttingDown && MayReturnFalse(s)
    requires s.place.before.Has(op) && (op.Read? ==> s.place.events == s.place.before)
    requires next == Storing || (next == Preparing && op.Read? && s.place.before.write)
    ensures PollsetOk(CutHere(s, op, next))
    ensures var t := CutHere(s, op, next);
            t.pollset.masks == s.pollset.masks[s.place.mgr := s.pollset.masks[s.place.mgr].Without(op)]
  {
    var m := s.place.mgr;
    MaskCut(s.pollset, s.place.index, s.pollset.masks[m].Without(op), {s.place.index as int}, true);
    hide EntryFits, SyncExcept, ExactExcept;
  }

  lemma StoreOk(s: System)
    requires Shape(s) && At(s, Storing) && PollsetOk(s) && !s.pollset.shuttingDown
    ensures PollsetOk(Next(s, Store)) && Next(s, Store).pollset.masks == s.pollset.masks
  {
    var v := s.place;
    assert ClosesExactly(v.before, v.events, Entries(s), s.pollset.masks[v.mgr]);
    StoredFits(s.pollset, v.index, v.before, v.events, true);
    hide EntryFits, SyncExcept, ExactExcept, Deleted;
  }

  lemma StartOk(s: System, m: nat, input: bool, output: bool)
    requires Shape(s) && PollsetOk(s) && !s.pollset.shuttingDown && Enabled(s, StartVisit(m, input, output))
    ensures PollsetOk(Started(s, m, input, output))
  {
    var i := IndexOf(s.pollset.managers, m);
    WithReadyKeeps(s.pollset, i, input, output);
    BegunKeeps(WithReady(s.pollset, i, input, output), i, true);
    hide SyncExcept, ExactExcept;
  }

  lemma WithReadyKeeps(p: State, i: nat, input: bool, output: bool)
    requires Inv(p, {}, true) && i < |p.managers|
    ensures WellFormed(p) && Inv(WithReady(p, i, input, output), {}, true)
  {}

  lemma RemoveOk(s: System, m: nat)
    requires Shape(s) && PollsetOk(s) && !s.pollset.shuttingDown && m < |s.mgrs|
    requires s.place == Idle || s.place.mgr == m
    ensures PollsetOk(Removed(s, m)) && Removed(s, m).pollset.masks == s.pollset.masks[m := NOTHING]
  {
    var p, i := s.pollset, IndexOf(s.pollset.managers, m);
    if i == -1 {
      assert p.masks[m].None();
      assert p.masks[m := NOTHING] == p.masks;
    } else {
      if s.place.Visiting? {
        IndexOfDistinct(p.managers, s.place.index);
      } else {
        WiderGap(p, i);
      }
      MaskCut(p, i, NOTHING, {i}, true);
      hide SyncExcept, ExactExcept, EntryFits;
      var q := p.(masks := p.masks[m := NOTHING]);
      assert {} + {i} == {i};
      DeletedKeeps(q, i, {}, true);
      hide Deleted;
    }
  }

  lemma WiderGap(p: State, i: int)
    requires Inv(p, {}, true)
    ensures Inv(p, {i}, true)
  {}

  // -- no lost wake-up ------------------------------------------------------------------------------------------------

  /** Polled for writing, and not about to be dropped. */
  predicate Writing(s: System, m: nat)
    requires Shape(s) && m < |s.mgrs|
  {
    s.pollset.masks[m].write && !(At(s, Dropping) && s.place.mgr == m)
  }

  predicate IsVisited(s: System, m: nat) {
    s.place.Visiting? && s.place.mgr == m
  }

  predicate Safe(s: System, m: nat)
    requires Shape(s) && m < |s.mgrs|
  {
    var g := s.mgrs[m];
    s.pollset.shuttingDown || g.failed ||
    (&& (g.box.Open? ==> Writing(s, m) || Registration(m, Write) in s.records || m in s.signals)
     && (g.out > 0 ==> Writing(s, m))
     && (IsVisited(s, m) && s.place.phase in {Deciding, Dropping} ==> g.out == 0))
  }

  ghost predicate AllSafe(s: System)
    requires Shape(s)
  {
    forall m :: 0 <= m < |s.mgrs| ==> Safe(s, m)
  }

  ghost predicate Invariant(s: System) {
    Shape(s) && PollsetOk(s) && AllSafe(s)
  }

  /** Whatever keeps the masks, apart from growing that of `m`, keeps what is polled for. */
  lemma RegisterSafe(s: System, m: nat, op: Op)
    requires Invariant(s) && !s.pollset.shuttingDown && m < |s.mgrs| && MayRegister(s, m, op)
    requires s.place.Visiting? ==> InUpperLayer(s)
    ensures Invariant(RegisterHere(s, m, op)) && !RegisterHere(s, m, op).pollset.shuttingDown
    ensures op.Write? ==> Writing(RegisterHere(s, m, op), m)
  {
    RegisterOk(s, m, op);
    var t := RegisterHere(s, m, op);
    hide RegisterHere, PollsetOk, MayRegister;
    forall k | 0 <= k < |t.mgrs| ensures Safe(t, k) {
      SafeKept(s, t, k);
    }
  }

  /** Only masks may have changed, and that of `k` has not lost writing. */
  lemma SafeKept(s: System, t: System, k: nat)
    requires Shape(s) && Shape(t) && k < |s.mgrs| && Safe(s, k) && !s.pollset.shuttingDown
    requires t.mgrs == s.mgrs && t.place == s.place && t.records == s.records && t.signals == s.signals
    requires s.pollset.masks[k].write ==> t.pollset.masks[k].write
    ensures Safe(t, k)
  {}

  lemma SamePollset(s: System, t: System)
    requires Shape(s) && Shape(t) && PollsetOk(s) && t.pollset == s.pollset && t.place == s.place
    ensures PollsetOk(t)
  {}

  lemma OtherThreads(s: System, step: Step)
    requires Invariant(s) && Enabled(s, step) && (step.Enqueue? || step.Signal? || step.Post?)
    ensures Invariant(Next(s, step))
  {
    hide PollsetOk, Registered, IndexOf;
    var t := Next(s, step);
    SamePollset(s, t);
    forall m | 0 <= m < |t.mgrs| ensures Safe(t, m) {
      assert Safe(s, m);
      assert Writing(t, m) == Writing(s, m);
      assert Registration(m, Write) in s.records ==> Registration(m, Write) in t.records;
    }
  }

  lemma ProduceKeeps(s: System, bytes: nat)
    requires Invariant(s) && !s.pollset.shuttingDown && Enabled(s, Produce(bytes))
    ensures Invariant(Produced(s, bytes))
  {
    hide PollsetOk, AllSafe, RegisterHere, MayRegister, Safe;
    var m := s.place.mgr;
    if s.mgrs[m].out == 0 {
      RegisterSafe(s, m, Write);
      AppendKeeps(RegisterHere(s, m, Write), m, bytes);
    } else {
      OutputIsPolled(s, m);
      AppendKeeps(s, m, bytes);
    }
  }

  lemma OutputIsPolled(s: System, m: nat)
    requires Invariant(s) && !s.pollset.shuttingDown && m < |s.mgrs| && s.mgrs[m].out > 0
    ensures s.mgrs[m].failed || Writing(s, m)
  {
    assert Safe(s, m);
    hide PollsetOk;
  }

  /** More output for a manager that has failed or is polled for writing. */
  lemma AppendKeeps(s: System, m: nat, bytes: nat)
    requires Invariant(s) && !s.pollset.shuttingDown && m < |s.mgrs| && s.place != Idle && InUpperLayer(s)
    requires s.place.mgr == m && (s.mgrs[m].failed || Writing(s, m))
    ensures Invariant(Put(s, m, s.mgrs[m].(out := s.mgrs[m].out + bytes)))
  {
    var t := Put(s, m, s.mgrs[m].(out := s.mgrs[m].out + bytes));
    SamePollset(s, t);
    hide PollsetOk;
    forall k | 0 <= k < |t.mgrs| ensures Safe(t, k) {
      assert Safe(s, k);
    }
  }

  lemma EnqueueHereKeeps(s: System, m: nat)
    requires Invariant(s) && !s.pollset.shuttingDown && Enabled(s, EnqueueHere(m))
    ensures Invariant(EnqueuedHere(s, m))
  {
    if s.mgrs[m].box.Blocked? {
      RegisterSafe(s, m, Write);
      var t := RegisterHere(s, m, Write);
      var u := EnqueuedHere(s, m);
      assert u == Put(t, m, s.mgrs[m].(box := PushBack(s.mgrs[m].box)));
      hide RegisterHere, EnqueuedHere;
      assert PollsetOk(u);
      hide PollsetOk;
      forall k | 0 <= k < |u.mgrs| ensures Safe(u, k) {
        assert Safe(t, k);
      }
    } else {
      var u := EnqueuedHere(s, m);
      assert PollsetOk(u);
      hide PollsetOk;
      forall k | 0 <= k < |u.mgrs| ensures Safe(u, k) {
        assert Safe(s, k);
      }
    }
  }

  /** Executing a registration makes the multiplexer poll; every other record leaves things as they are. */
  lemma ExecuteKeeps(s: System)
    requires Invariant(s) && !s.pollset.shuttingDown && Enabled(s, ExecuteRecord)
    ensures Invariant(Executed(s)) || Executed(s).pollset.shuttingDown
  {
    var r, t := s.records[0], s.(records := s.records[1..]);
    assert s.records == [r] + t.records;
    if r.Registration? {
      RegisterSafe(s, r.mgr, r.op);
      var u, v := RegisterHere(s, r.mgr, r.op), Executed(s);
      assert v == u.(records := t.records);
      hide RegisterHere, Executed;
      assert PollsetOk(v);
      hide PollsetOk;
      forall k | 0 <= k < |v.mgrs| ensures Safe(v, k) {
        assert Safe(u, k);
      }
    } else if r.Init? {
      var v := Executed(s);
      assert PollsetOk(v);
      hide PollsetOk;
      forall k | 0 <= k < |v.mgrs| ensures Safe(v, k) {
        assert Safe(s, k);
      }
    } else {
      StopReadingFlag(s.pollset.(shuttingDown := true), 1);
    }
  }

  /** Steps that leave masks and entries alone and only move on within a call. */
  lemma MoveKeeps(s: System, step: Step)
    requires Invariant(s) && !s.pollset.shuttingDown && Enabled(s, step)
    requires step.StartInit? || step.EndInit? || step.EndPrepare? || step.ConsumeMessage? || step.Quit?
    ensures Invariant(Next(s, step))
  {
    var t := Next(s, step);
    assert PollsetOk(t);
    hide PollsetOk;
    forall m | 0 <= m < |t.mgrs| ensures Safe(t, m) {
      assert Safe(s, m);
    }
  }

  lemma StartKeeps(s: System, m: nat, input: bool, output: bool)
    requires Invariant(s) && !s.pollset.shuttingDown && Enabled(s, StartVisit(m, input, output))
    ensures Invariant(Started(s, m, input, output))
  {
    StartOk(s, m, input, output);
    var t := Started(s, m, input, output);
    hide PollsetOk;
    forall k | 0 <= k < |t.mgrs| ensures Safe(t, k) {
      assert Safe(s, k);
    }
  }

  lemma EndReadKeeps(s: System, keep: bool)
    requires Invariant(s) && !s.pollset.shuttingDown && Enabled(s, EndRead(keep))
    ensures Invariant(Next(s, EndRead(keep)))
  {
    var t := Next(s, EndRead(keep));
    if keep {
      assert PollsetOk(t);
    } else {
      CutOk(s, Read, if s.place.phase.output then Preparing else Storing);
    }
    hide PollsetOk;
    forall k | 0 <= k < |t.mgrs| ensures Safe(t, k) {
      assert Safe(s, k);
    }
  }

  lemma FlushKeeps(s: System, written: int, temporary: bool)
    requires Invariant(s) && !s.pollset.shuttingDown && Enabled(s, Flush(written, temporary))
    ensures Invariant(Flushed(s, written))
  {
    var t := Flushed(s, written);
    WriteInMask(s);
    assert PollsetOk(t);
    hide PollsetOk;
    forall k | 0 <= k < |t.mgrs| ensures Safe(t, k) {
      assert Safe(s, k);
    }
  }

  lemma DecideKeeps(s: System)
    requires Invariant(s) && !s.pollset.shuttingDown && Enabled(s, Decide)
    ensures Invariant(Decided(s))
  {
    var t := Decided(s);
    WriteInMask(s);
    assert PollsetOk(t);
    hide PollsetOk;
    forall k | 0 <= k < |t.mgrs| ensures Safe(t, k) {
      assert Safe(s, k);
    }
  }

  /** Between `done_sending` and `mask_del` any thread may have enqueued: then its record is still to come. */
  lemma DropKeeps(s: System)
    requires Invariant(s) && !s.pollset.shuttingDown && Enabled(s, Drop)
    ensures Invariant(Next(s, Drop))
  {
    CutOk(s, Write, Storing);
    var t := Next(s, Drop);
    hide PollsetOk;
    forall k | 0 <= k < |t.mgrs| ensures Safe(t, k) {
      assert Safe(s, k);
    }
  }

  lemma FailWriteKeeps(s: System)
    requires Invariant(s) && !s.pollset.shuttingDown && Enabled(s, FailWrite)
    ensures Invariant(WriteFailed(s))
  {
    var u := Put(s, s.place.mgr, s.mgrs[s.place.mgr].(failed := true));
    SamePollset(s, u);
    CutOk(u, Write, Storing);
    var t := WriteFailed(s);
    hide PollsetOk;
    forall k | 0 <= k < |t.mgrs| ensures Safe(t, k) {
      assert Safe(s, k);
    }
  }

  lemma StoreKeeps(s: System)
    requires Invariant(s) && !s.pollset.shuttingDown && Enabled(s, Store)
    ensures Invariant(Next(s, Store))
  {
    StoreOk(s);
    var t := Next(s, Store);
    hide PollsetOk;
    forall k | 0 <= k < |t.mgrs| ensures Safe(t, k) {
      assert Safe(s, k);
    }
  }

  lemma FailKeeps(s: System, m: nat)
    requires Invariant(s) && !s.pollset.shuttingDown && Enabled(s, Fail(m))
    ensures Invariant(Removed(s, m))
  {
    RemoveOk(s, m);
    var t := Removed(s, m);
    hide PollsetOk;
    forall k | 0 <= k < |t.mgrs| ensures Safe(t, k) {
      assert Safe(s, k);
    }
  }

  lemma StepKeeps(s: System, step: Step)
    requires Invariant(s) && !s.pollset.shuttingDown && Enabled(s, step)
    ensures Invariant(Next(s, step)) || Next(s, step).pollset.shuttingDown
  {
    hide Invariant, Registered, EnqueuedHere, Produced, Removed, Executed, Started, Flushed, Decided, CutHere,
         WriteFailed, MayRegister, MayReturnFalse, Stored;
    match step
    case Enqueue(_) => OtherThreads(s, step);
    case Signal(_) => OtherThreads(s, step);
    case Post(_) => OtherThreads(s, step);
    case ExecuteRecord => ExecuteKeeps(s);
    case StartInit(_) => MoveKeeps(s, step);
    case EndInit => MoveKeeps(s, step);
    case StartVisit(m, input, output) => StartKeeps(s, m, input, output);
    case Produce(bytes) => ProduceKeeps(s, bytes);
    case EnqueueHere(m) => EnqueueHereKeeps(s, m);
    case RegisterMore(m, op) => RegisterSafe(s, m, op);
    case EndRead(keep) => EndReadKeeps(s, keep);
    case ConsumeMessage => MoveKeeps(s, step);
    case EndPrepare => MoveKeeps(s, step);
    case Flush(written, temporary) => FlushKeeps(s, written, temporary);
    case Decide => DecideKeeps(s);
    case Drop => DropKeeps(s);
    case FailWrite => FailWriteKeeps(s);
    case Store => StoreKeeps(s);
    case Fail(m) => FailKeeps(s, m);
    case Quit(_) => MoveKeeps(s, step);
  }

  lemma ShutDownStays(s: System, step: Step)
    requires Shape(s) && Enabled(s, step) && s.pollset.shuttingDown
    ensures Next(s, step).pollset.shuttingDown
  {
    if step.ExecuteRecord? && s.records[0].StopAll? {
      StopReadingFlag(s.pollset.(shuttingDown := true), 1);
    }
  }

  lemma {:induction false} RunKeeps(s: System, steps: seq<Step>)
    requires Shape(s) && (s.pollset.shuttingDown || Invariant(s))
    ensures var t := Run(s, steps); Shape(t) && |t.mgrs| == |s.mgrs| && (t.pollset.shuttingDown || Invariant(t))
    decreases |steps|
  {
    hide Invariant, Next, Enabled;
    if steps != [] && Enabled(s, steps[0]) {
      if s.pollset.shuttingDown {
        ShutDownStays(s, steps[0]);
      } else {
        StepKeeps(s, steps[0]);
      }
      RunKeeps(Next(s, steps[0]), steps[1..]);
    } else if steps != [] {
      RunKeeps(s, steps[1..]);
    }
  }

  /** An exact pollset, no output, and every mailbox blocked, as the shells are constructed. */
  ghost predicate Initial(s: System) {
    && Shape(s) && s.place == Idle && s.records == [] && s.signals == multiset{} && Exact(s.pollset)
    && !s.pollset.shuttingDown
    && forall m :: 0 <= m < |s.mgrs| ==> s.mgrs[m].box == Blocked && s.mgrs[m].out == 0
  }

  lemma StartsWell(s: System)
    requires Initial(s)
    ensures Invariant(s)
  {
    forall m | 0 <= m < |s.mgrs| ensures Safe(s, m) {}
  }

  /** There is an entry of the pollset that polls the manager for writing, or the call of `handle` that is in progress
      for it will leave one. */
  ghost predicate PolledForWriting(s: System, m: nat)
    requires Shape(s)
  {
    exists i :: 0 <= i < |s.pollset.managers| && s.pollset.managers[i] == m &&
      if IsVisited(s, m) then i == s.place.index && s.place.phase != Dropping && s.pollset.masks[m].write
      else s.pollset.pollset[i].events.write
  }

  lemma WritingIsPolled(s: System, m: nat)
    requires Invariant(s) && !s.pollset.shuttingDown && m < |s.mgrs| && Writing(s, m)
    ensures PolledForWriting(s, m)
  {
    var p := s.pollset;
    assert !p.masks[m].None();
    var i := IndexOf(p.managers, m);
    assert p.managers[i] == m;
    if IsVisited(s, m) {
      assert p.managers[s.place.index] == m;
    } else if s.place.Visiting? {
      assert i != s.place.index;
    }
    hide AllSafe, EntryFits;
  }

  /** In every interleaving of enqueuing threads and the event loop, until shutdown or failure: an open mailbox is
      polled for writing, or a record for it is in the pipe, or the thread that opened it is about to write one; and
      output that is left over is polled for writing. */
  lemma NoLostWakeUp(s: System, steps: seq<Step>, m: nat)
    requires Initial(s) && m < |s.mgrs|
    ensures var t := Run(s, steps);
            && Shape(t) && |t.mgrs| == |s.mgrs|
            && (!t.pollset.shuttingDown && !t.mgrs[m].failed ==>
                  && (t.mgrs[m].box.Open? ==>
                        PolledForWriting(t, m) || Registration(m, Write) in t.records || m in t.signals)
                  && (t.mgrs[m].out > 0 ==> PolledForWriting(t, m)))
  {
    StartsWell(s);
    RunKeeps(s, steps);
    var t := Run(s, steps);
    hide Run, PolledForWriting;
    if !t.pollset.shuttingDown && !t.mgrs[m].failed {
      assert Safe(t, m);
      if Writing(t, m) {
        WritingIsPolled(t, m);
      }
    }
  }

  predicate AtRest(s: System) {
    s.place == Idle && s.records == [] && s.signals == multiset{} && !s.pollset.shuttingDown
  }

  /** When all threads have come to rest and the loop waits with an empty pipe, nothing is stranded: `poll` may report
      output for every manager with messages or output. */
  lemma NothingStranded(s: System, steps: seq<Step>, m: nat)
    requires Initial(s) && m < |s.mgrs|
    ensures var t := Run(s, steps);
            && Shape(t) && |t.mgrs| == |s.mgrs|
            && (AtRest(t) && !t.mgrs[m].failed && (t.mgrs[m].box.Open? || t.mgrs[m].out > 0) ==>
                  Enabled(t, StartVisit(m, false, true)))
  {
    NoLostWakeUp(s, steps, m);
    StartsWell(s);
    RunKeeps(s, steps);
    hide Run, PolledForWriting, Enabled;
    if AtRest(Run(s, steps)) && PolledForWriting(Run(s, steps), m) {
      MayBeVisited(Run(s, steps), m);
    }
  }

  lemma MayBeVisited(s: System, m: nat)
    requires Shape(s) && s.place == Idle && m < |s.mgrs| && PolledForWriting(s, m) && Distinct(s.pollset.managers)
    ensures Enabled(s, StartVisit(m, false, true))
  {
    var i :| 0 <= i < |s.pollset.managers| && s.pollset.managers[i] == m && s.pollset.pollset[i].events.write;
    IndexOfDistinct(s.pollset.managers, i);
  }

  // -- a write event --------------------------------------------------------------------------------------------------

  function Repeat(step: Step, n: nat): seq<Step> {
    if n == 0 then [] else [step] + Repeat(step, n - 1)
  }

  /** A write event with nothing else going on: all waiting messages are consumed and all output is sent. */
  function WriteEvent(m: nat, messages: nat, out: nat): seq<Step> {
    [StartVisit(m, false, true)] + (Repeat(ConsumeMessage, messages) + LastSteps(out))
  }

  function LastSteps(out: nat): seq<Step> {
    [EndPrepare, Flush(out, false), Decide, Drop, Store]
  }

  lemma RunFirst(s: System, step: Step, rest: seq<Step>)
    requires Shape(s) && Enabled(s, step)
    ensures Run(s, [step] + rest) == Run(Next(s, step), rest)
  {
    assert ([step] + rest)[1..] == rest;
    hide Next, Enabled;
  }

  lemma {:induction false} ConsumesAll(s: System, n: nat, rest: seq<Step>)
    requires Shape(s) && At(s, Preparing) && s.mgrs[s.place.mgr].box == Open(n)
    decreases n
    ensures var g := s.mgrs[s.place.mgr];
            Run(s, Repeat(ConsumeMessage, n) + rest) == Run(Put(s, s.place.mgr, g.(box := Open(0))), rest)
  {
    hide Run;
    var m := s.place.mgr;
    if n == 0 {
      assert Put(s, m, s.mgrs[m].(box := Open(0))) == s;
      assert [] + rest == rest;
    } else {
      var tail := Repeat(ConsumeMessage, n - 1) + rest;
      assert Repeat(ConsumeMessage, n) + rest == [ConsumeMessage] + tail;
      RunFirst(s, ConsumeMessage, tail);
      var t := Next(s, ConsumeMessage);
      ConsumesAll(t, n - 1, rest);
      assert Put(t, m, t.mgrs[m].(box := Open(0))) == Put(s, m, s.mgrs[m].(box := Open(0)));
    }
  }

  /** Mailbox and output are empty, the mailbox blocked for the next wake-up, and `m` is polled for output no more. */
  ghost predicate DrainedBy(s: System, t: System, m: nat)
    requires Shape(s) && m < |s.mgrs|
  {
    && t == s.(mgrs := s.mgrs[m := s.mgrs[m].(box := Blocked, out := 0)], pollset := t.pollset, place := Idle)
    && t.pollset.masks == s.pollset.masks[m := s.pollset.masks[m].Without(Write)]
    && Exact(t.pollset) && !t.pollset.shuttingDown
  }

  lemma PhaseKeeps(s: System, t: System)
    requires Shape(s) && Shape(t) && PollsetOk(s) && At(s, Preparing) && t.pollset == s.pollset
    requires t.place == s.place.(phase := Dropping)
    ensures PollsetOk(t)
  {}

  lemma SendsAll(s: System, m: nat)
    requires Shape(s) && At(s, Preparing) && s.place.mgr == m && s.mgrs[m].box == Open(0)
    requires PollsetOk(s) && !s.pollset.shuttingDown && MayReturnFalse(s)
    ensures var t := Put(s, m, s.mgrs[m].(box := Blocked, out := 0)).(place := s.place.(phase := Dropping));
            && Shape(t) && PollsetOk(t) && MayReturnFalse(t)
            && Run(s, LastSteps(s.mgrs[m].out)) == Run(t, [Drop, Store])
  {
    hide PollsetOk, Run;
    var s2 := To(Put(s, m, s.mgrs[m].(out := 0)), Deciding);
    var s3 := Put(s, m, s.mgrs[m].(box := Blocked, out := 0)).(place := s.place.(phase := Dropping));
    Flushes(s, m);
    Blocks(s2, m);
    assert To(Put(s2, m, s2.mgrs[m].(box := Blocked)), Dropping) == s3;
    PhaseKeeps(s, s3);
    hide Next, Enabled;
    RunThree(s, [EndPrepare, Flush(s.mgrs[m].out, false), Decide], [Drop, Store]);
    assert [EndPrepare, Flush(s.mgrs[m].out, false), Decide] + [Drop, Store] == LastSteps(s.mgrs[m].out);
  }

  lemma RunThree(s: System, first: seq<Step>, rest: seq<Step>)
    requires Shape(s) && |first| == 3 && Enabled(s, first[0])
    requires var t := Next(s, first[0]); Enabled(t, first[1]) && Enabled(Next(t, first[1]), first[2])
    ensures Run(s, first + rest) == Run(Next(Next(Next(s, first[0]), first[1]), first[2]), rest)
  {
    hide *;
    var t := Next(s, first[0]);
    assert first + rest == [first[0]] + ([first[1]] + ([first[2]] + rest));
    RunFirst(s, first[0], [first[1]] + ([first[2]] + rest));
    RunFirst(t, first[1], [first[2]] + rest);
    RunFirst(Next(t, first[1]), first[2], rest);
  }

  lemma Flushes(s: System, m: nat)
    requires Shape(s) && At(s, Preparing) && s.place.mgr == m
    ensures Enabled(s, EndPrepare) && Enabled(Next(s, EndPrepare), Flush(s.mgrs[m].out, false))
    ensures Next(Next(s, EndPrepare), Flush(s.mgrs[m].out, false)) == To(Put(s, m, s.mgrs[m].(out := 0)), Deciding)
  {}

  lemma Blocks(s: System, m: nat)
    requires Shape(s) && At(s, Deciding) && s.place.mgr == m && s.mgrs[m].box == Open(0)
    ensures Enabled(s, Decide) && Next(s, Decide) == To(Put(s, m, s.mgrs[m].(box := Blocked)), Dropping)
  {}

  lemma StopsWriting(s: System, m: nat)
    requires Shape(s) && At(s, Dropping) && s.place.mgr == m && PollsetOk(s) && !s.pollset.shuttingDown
    requires MayReturnFalse(s)
    ensures var t := Run(s, [Drop, Store]);
            && t == s.(pollset := t.pollset, place := Idle)
            && t.pollset.masks == s.pollset.masks[m := s.pollset.masks[m].Without(Write)]
            && Exact(t.pollset) && !t.pollset.shuttingDown
  {
    CutOk(s, Write, Storing);
    var t := Next(s, Drop);
    assert Enabled(s, Drop) && At(t, Storing) && !t.pollset.shuttingDown;
    assert t == s.(pollset := t.pollset, place := t.place);
    hide PollsetOk, Run, CutHere, MayReturnFalse, Stored;
    EndsVisit(t);
    hide Next, Enabled;
    RunFirst(s, Drop, [Store]);
    RunFirst(t, Store, []);
    RunNothing(Next(t, Store));
  }

  lemma EndsVisit(s: System)
    requires Shape(s) && At(s, Storing) && PollsetOk(s) && !s.pollset.shuttingDown
    ensures Enabled(s, Store)
    ensures var t := Next(s, Store);
            && t == s.(pollset := t.pollset, place := Idle) && t.pollset.masks == s.pollset.masks
            && Exact(t.pollset) && !t.pollset.shuttingDown
  {
    StoreOk(s);
    hide ExactExcept, SyncExcept, VisitOk;
  }

  /** One write event without interference empties mailbox and output of any manager that is polled for writing. */
  lemma WriteEventDrains(s: System, m: nat, n: nat)
    requires Shape(s) && s.place == Idle && Exact(s.pollset) && !s.pollset.shuttingDown
    requires m < |s.mgrs| && s.pollset.masks[m].write && s.mgrs[m].box == Open(n)
    ensures DrainedBy(s, Run(s, WriteEvent(m, n, s.mgrs[m].out)), m)
  {
    var g := s.mgrs[m];
    assert !s.pollset.masks[m].None();
    var s1 := Next(s, StartVisit(m, false, true));
    StartOk(s, m, false, true);
    ConsumesAll(s1, n, LastSteps(g.out));
    var s2 := Put(s1, m, g.(box := Open(0)));
    SamePollset(s1, s2);
    hide Run, PollsetOk, Exact, LastSteps;
    RunFirst(s, StartVisit(m, false, true), Repeat(ConsumeMessage, n) + LastSteps(g.out));
    SendsAll(s2, m);
    StopsWriting(Put(s2, m, g.(box := Blocked, out := 0)).(place := s2.place.(phase := Dropping)), m);
  }

  // -- a mailbox that has been closed ---------------------------------------------------------------------------------

  /** A shell that has quit while its manager was polled for output. */
  predicate QuitPolled(s: System, m: nat)
    requires Shape(s) && m < |s.mgrs|
  {
    s.pollset.shuttingDown || s.mgrs[m].failed || (s.mgrs[m].box.Closed? && Writing(s, m))
  }

  lemma QuitStep(s: System, step: Step, m: nat)
    requires Invariant(s) && !s.pollset.shuttingDown && Enabled(s, step) && m < |s.mgrs| && QuitPolled(s, m)
    ensures QuitPolled(Next(s, step), m)
  {
    hide Next, Enabled, PollsetOk, AllSafe;
    MasksOnlyGrow(s, step);
    ClosedStays(s, step, m);
  }

  /** A closed mailbox stays closed, and a write event does not end for it. */
  predicate StaysClosed(s: System, t: System, step: Step, m: nat)
    requires m < |s.mgrs| == |t.mgrs|
  {
    && (s.mgrs[m].failed ==> t.mgrs[m].failed)
    && (s.mgrs[m].box.Closed? ==> t.mgrs[m].box.Closed?)
    && (s.mgrs[m].box.Closed? && At(t, Dropping) && t.place.mgr == m ==> At(s, Dropping) && s.place.mgr == m)
  }

  lemma ClosedStays(s: System, step: Step, m: nat)
    requires Shape(s) && Enabled(s, step) && m < |s.mgrs|
    ensures StaysClosed(s, Next(s, step), step, m)
  {
    if step.Produce? || step.EnqueueHere? || step.RegisterMore? || step.ExecuteRecord? {
      ClosedByRegistering(s, step, m);
    } else if s.place.Visiting? && !step.Enqueue? && !step.Signal? && !step.Post? {
      ClosedInVisit(s, step, m);
    } else {
      ClosedOtherwise(s, step, m);
    }
    hide Next, Enabled;
  }

  lemma ClosedByRegistering(s: System, step: Step, m: nat)
    requires Shape(s) && Enabled(s, step) && m < |s.mgrs|
    requires step.Produce? || step.EnqueueHere? || step.RegisterMore? || step.ExecuteRecord?
    ensures StaysClosed(s, Next(s, step), step, m)
  {
    hide Registered, ShutDown, MayRegister;
  }

  lemma ClosedInVisit(s: System, step: Step, m: nat)
    requires Shape(s) && Enabled(s, step) && m < |s.mgrs| && s.place.Visiting?
    requires !step.Produce? && !step.EnqueueHere? && !step.RegisterMore? && !step.ExecuteRecord?
    requires !step.Enqueue? && !step.Signal? && !step.Post?
    ensures StaysClosed(s, Next(s, step), step, m)
  {
    hide Deleted, MayReturnFalse, Stored, IndexOf, EnqueuedHere, Produced, Executed, Started, Signalled, RegisterHere;
  }

  lemma ClosedOtherwise(s: System, step: Step, m: nat)
    requires Shape(s) && Enabled(s, step) && m < |s.mgrs|
    requires !step.Produce? && !step.EnqueueHere? && !step.RegisterMore? && !step.ExecuteRecord?
    requires !s.place.Visiting? || step.Enqueue? || step.Signal? || step.Post?
    ensures StaysClosed(s, Next(s, step), step, m)
  {
    hide Deleted, StoredHere, CutHere, Flushed, Decided, IndexOf, EnqueuedHere, Produced, Executed, RegisterHere;
  }

  /** Only `mask_del` takes writing from a mask, apart from a failure. */
  predicate KeepsWriting(s: System, t: System, step: Step)
    requires Shape(s) && Shape(t) && |s.mgrs| == |t.mgrs|
  {
    forall m :: 0 <= m < |s.mgrs| && s.pollset.masks[m].write ==>
      t.pollset.masks[m].write || t.mgrs[m].failed || (step.Drop? && At(s, Dropping) && m == s.place.mgr)
  }

  lemma MasksOnlyGrow(s: System, step: Step)
    requires Shape(s) && !s.pollset.shuttingDown && Enabled(s, step)
    ensures Next(s, step).pollset.shuttingDown || KeepsWriting(s, Next(s, step), step)
  {
    if step.Produce? || step.EnqueueHere? || step.RegisterMore? || step.ExecuteRecord? {
      GrowsByRegistering(s, step);
    } else {
      GrowsOtherwise(s, step);
    }
    hide Next, Enabled;
  }

  lemma GrowsByRegistering(s: System, step: Step)
    requires Shape(s) && !s.pollset.shuttingDown && Enabled(s, step)
    requires step.Produce? || step.EnqueueHere? || step.RegisterMore? || step.ExecuteRecord?
    ensures Next(s, step).pollset.shuttingDown || KeepsWriting(s, Next(s, step), step)
  {
    if step.ExecuteRecord? && s.records[0].StopAll? {
      StopReadingFlag(s.pollset.(shuttingDown := true), 1);
    }
    RegisteringGrows(s.pollset);
    hide MayRegister, Registered, StopReading;
  }

  lemma RegisteringGrows(p: State)
    requires WellFormed(p)
    ensures forall m, op, k :: 0 <= m < |p.masks| && 0 <= k < |p.masks| && p.masks[k].write ==>
              Registered(p, m, op).masks[k].write
  {
    hide IndexOf;
  }

  lemma GrowsOtherwise(s: System, step: Step)
    requires Shape(s) && Enabled(s, step)
    requires !step.Produce? && !step.EnqueueHere? && !step.RegisterMore? && !step.ExecuteRecord?
    ensures KeepsWriting(s, Next(s, step), step)
  {
    hide MayReturnFalse, IndexOf, EnqueuedHere, Produced, Executed, RegisterHere;
  }

  /** A thread that has unblocked the mailbox of a shell registers its manager for writing, unless the shell has quit
      since. */
  lemma SignalExactly(s: System, m: nat)
    requires Shape(s) && Enabled(s, Signal(m))
    ensures var t := Next(s, Signal(m));
            && t.pollset == s.pollset && t.signals == s.signals - multiset{m}
            && t.records == s.records + if s.mgrs[m].box.Closed? then [] else [Registration(m, Write)]
  {
    assert s.records + [] == s.records;
  }

  /** Such a manager is polled for output for good: `done_sending` of a closed mailbox is never true. */
  lemma {:induction false} QuitPollsOn(s: System, steps: seq<Step>, m: nat)
    requires Invariant(s) && m < |s.mgrs| && QuitPolled(s, m)
    ensures var t := Run(s, steps);
            t.pollset.shuttingDown || t.mgrs[m].failed || (t.mgrs[m].box.Closed? && PolledForWriting(t, m))
    decreases |steps|
  {
    if steps == [] {
      if Writing(s, m) && !s.pollset.shuttingDown {
        WritingIsPolled(s, m);
      }
    } else if s.pollset.shuttingDown {
      ShutDownForGood(s, steps);
    } else {
      hide Next, Enabled, Invariant, QuitPolled, PolledForWriting;
      var t := s;
      if Enabled(s, steps[0]) {
        QuitStep(s, steps[0], m);
        StepKeeps(s, steps[0]);
        t := Next(s, steps[0]);
      }
      if t.pollset.shuttingDown {
        ShutDownForGood(t, steps[1..]);
      } else {
        QuitPollsOn(t, steps[1..], m);
      }
    }
  }

  lemma {:induction false} ShutDownForGood(s: System, steps: seq<Step>)
    requires Shape(s) && s.pollset.shuttingDown
    ensures Run(s, steps).pollset.shuttingDown
    decreases |steps|
  {
    hide Next, Enabled;
    if steps != [] {
      var t := s;
      if Enabled(s, steps[0]) {
        ShutDownStays(s, steps[0]);
        t := Next(s, steps[0]);
      }
      ShutDownForGood(t, steps[1..]);
    }
  }

  lemma RunNothing(s: System)
    requires Shape(s)
    ensures Run(s, []) == s
  {}
}
