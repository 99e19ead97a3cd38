/** The multiplexer as a function of its state: registrations, callbacks, the scan and the shutdown. */
module PollsetModel {
  /** A mask of the operations read and write; also the events a socket is polled for. */
  datatype Ops = Ops(read: bool, write: bool) {
    predicate None() {
      !read && !write
    }

    predicate Has(op: Op) {
      if op.Read? then read else write
    }

    function With(op: Op): Ops {
      if op.Read? then this.(read := true) else this.(write := true)
    }

    function Without(op: Op): Ops {
      if op.Read? then this.(read := false) else this.(write := false)
    }

    predicate Within(other: Ops) {
      (read ==> other.read) && (write ==> other.write)
    }
  }

  datatype Op = Read | Write

  const NOTHING := Ops(false, false)

  /** The events that `poll` reports: input, output and error conditions. */
  datatype Ready = Ready(input: bool, output: bool, error: bool) {
    predicate Any() {
      input || output || error
    }
  }

  const QUIET := Ready(false, false, false)

  datatype Entry = Entry(fd: nat, events: Ops, revents: Ready)

  /** What a callback does: registrations, and for the pollset updater also the shutdown. */
  datatype Action = Register(mgr: nat, op: Op) | Shutdown

  datatype Reaction = Reaction(actions: seq<Action>, keep: bool)

  /** The callbacks of one manager in one call of `handle`. */
  datatype Reactions = Reactions(onRead: Reaction, onWrite: Reaction, onError: seq<Action>)

  /** The code of the managers: what the callbacks of manager `m` do in the `n`-th call of `handle`. */
  type Managers = (nat, nat) -> Reactions

  /** `masks` and `handles` are indexed by manager; the pollset updater is manager 0. `calls` counts calls of
      `handle`, and `handled` lists their managers. */
  datatype State = State(pollset: seq<Entry>, managers: seq<nat>, masks: seq<Ops>, handles: seq<nat>,
                         shuttingDown: bool, calls: nat, handled: seq<nat>)

  const UPDATER: nat := 0

  // -- operations -----------------------------------------------------------------------------------------------------

  function IndexOf(managers: seq<nat>, m: nat): (i: int)
    ensures -1 <= i < |managers|
    ensures i >= 0 ==> managers[i] == m
    ensures i == -1 <==> m !in managers
  {
    if managers == [] then -1
    else if managers[0] == m then 0
    else
      var i := IndexOf(managers[1..], m);
      if i == -1 then -1 else i + 1
  }

  predicate WellFormed(s: State) {
    && |s.pollset| == |s.managers| && |s.handles| == |s.masks|
    && forall i :: 0 <= i < |s.managers| ==> s.managers[i] < |s.masks|
  }

  /** `register_reading` and `register_writing` in the thread of the multiplexer. */
  function Registered(s: State, m: nat, op: Op): (t: State)
    requires WellFormed(s) && m < |s.masks|
    ensures WellFormed(t) && |t.masks| == |s.masks| && |s.managers| <= |t.managers|
  {
    if s.shuttingDown then s
    else if !s.masks[m].None() then
      var i := IndexOf(s.managers, m);
      if i != -1 && !s.masks[m].Has(op) then
        s.(masks := s.masks[m := s.masks[m].With(op)],
           pollset := s.pollset[i := s.pollset[i].(events := s.pollset[i].events.With(op))])
      else s
    else
      s.(masks := s.masks[m := NOTHING.With(op)],
         pollset := s.pollset + [Entry(s.handles[m], NOTHING.With(op), QUIET)],
         managers := s.managers + [m])
  }

  function Deleted(s: State, i: nat): (t: State)
    requires WellFormed(s) && i < |s.managers|
    ensures WellFormed(t)
  {
    s.(pollset := s.pollset[..i] + s.pollset[i + 1..], managers := s.managers[..i] + s.managers[i + 1..])
  }

  /** The manager at index `i` reads no more. */
  function Stopped(s: State, i: nat): (t: State)
    requires WellFormed(s) && i < |s.managers|
    ensures WellFormed(t) && t.managers == s.managers && |t.masks| == |s.masks|
  {
    var m := s.managers[i];
    if s.masks[m].read then
      s.(masks := s.masks[m := s.masks[m].Without(Read)],
         pollset := s.pollset[i := s.pollset[i].(events := s.pollset[i].events.Without(Read))])
    else s
  }

  /** The loop of `shutdown` from index `i` on: nobody reads any more, and who does not write either is removed. */
  function StopReading(s: State, i: nat): (t: State)
    requires WellFormed(s)
    ensures WellFormed(t) && |t.masks| == |s.masks|
    decreases |s.managers| - i
  {
    if i >= |s.managers| then s
    else
      var t := Stopped(s, i);
      if t.masks[s.managers[i]].None() then StopReading(Deleted(t, i), i) else StopReading(t, i + 1)
  }

  function ShutDown(s: State): (t: State)
    requires WellFormed(s)
    ensures WellFormed(t) && |t.masks| == |s.masks|
  {
    StopReading(s.(shuttingDown := true), 1)
  }

  function Act(s: State, a: Action): (t: State)
    requires WellFormed(s)
    ensures WellFormed(t) && |t.masks| == |s.masks|
  {
    match a
    case Register(m, op) => if m < |s.masks| then Registered(s, m, op) else s
    case Shutdown => ShutDown(s)
  }

  function ActAll(s: State, actions: seq<Action>): (t: State)
    requires WellFormed(s)
    ensures WellFormed(t) && |t.masks| == |s.masks|
    decreases |actions|
  {
    if actions == [] then s else ActAll(Act(s, actions[0]), actions[1..])
  }

  /** A callback and, if it returns false, `mask_del`. */
  function Called(s: State, m: nat, op: Op, r: Reaction): (t: State)
    requires WellFormed(s) && m < |s.masks|
    ensures WellFormed(t) && |t.masks| == |s.masks|
  {
    var t := ActAll(s, r.actions);
    if r.keep then t else t.(masks := t.masks[m := t.masks[m].Without(op)])
  }

  function NewEvents(events: Ops, revents: Ready, r: Reactions): Ops {
    var e1 := if revents.input && !r.onRead.keep then events.Without(Read) else events;
    var e2 := if revents.output && !r.onWrite.keep then e1.Without(Write) else e1;
    if revents.error && !revents.input && !revents.output then NOTHING else e2
  }

  function Begun(s: State, m: nat): State {
    s.(calls := s.calls + 1, handled := s.handled + [m])
  }

  /** The state that `handle` leaves; the events it returns are `NewEvents`. */
  function Handled(s: State, m: nat, revents: Ready, r: Reactions): (t: State)
    requires WellFormed(s) && m < |s.masks|
    ensures WellFormed(t) && |t.masks| == |s.masks|
  {
    var s0 := Begun(s, m);
    var s1 := if revents.input then Called(s0, m, Read, r.onRead) else s0;
    var s2 := if revents.output then Called(s1, m, Write, r.onWrite) else s1;
    if revents.error && !revents.input && !revents.output then
      var t := ActAll(s2, r.onError);
      t.(masks := t.masks[m := NOTHING])
    else s2
  }

  /** What the scan does with the returned events, and the next index. */
  function Stored(t: State, i: nat, before: Ops, events: Ops): (r: (State, nat))
    requires WellFormed(t) && i < |t.pollset|
    ensures WellFormed(r.0)
  {
    if events.None() then (Deleted(t, i), i)
    else if events != before then (t.(pollset := t.pollset[i := t.pollset[i].(events := events)]), i + 1)
    else (t, i + 1)
  }

  /** One round of the scan at index `i`: the state and the next index. A callback that removes its own entry would
      leave the source with an index out of range; only a shutdown by another manager than the first could do so. */
  function Visited(s: State, code: Managers, i: nat): (r: (State, nat))
    requires WellFormed(s) && i < |s.pollset|
    ensures WellFormed(r.0)
  {
    var m, e := s.managers[i], s.pollset[i];
    var r := code(s.calls, m);
    var t := Handled(s, m, e.revents, r);
    if i >= |t.pollset| then (t, i + 1) else Stored(t, i, e.events, NewEvents(e.events, e.revents, r))
  }

  function Scan(s: State, code: Managers, i: nat, presult: nat): (t: State)
    requires WellFormed(s)
    ensures WellFormed(t)
    decreases presult, |s.pollset| - i
  {
    if i >= |s.pollset| || presult == 0 then s
    else if s.pollset[i].revents.Any() then
      var (t, next) := Visited(s, code, i);
      Scan(t, code, next, presult - 1)
    else Scan(s, code, i + 1, presult)
  }

  // -- one manager ----------------------------------------------------------------------------------------------------

  /** What the multiplexer knows of one manager: its mask, and the events of its entry, which are none without an
      entry. */
  datatype Interest = Interest(mask: Ops, polled: Ops) {
    /** `register_reading` or `register_writing` for this manager. */
    function Register(op: Op): Interest {
      if mask.None() then Interest(NOTHING.With(op), NOTHING.With(op))
      else if !polled.None() && !mask.Has(op) then Interest(mask.With(op), polled.With(op))
      else this
    }

    function RegisterAll(ops: seq<Op>): Interest
      decreases |ops|
    {
      if ops == [] then this else Register(ops[0]).RegisterAll(ops[1..])
    }

    /** A callback that registers for `r.ops` and returns `r.keep`. */
    function Call(op: Op, r: Callback): Interest {
      var t := RegisterAll(r.ops);
      if r.keep then t else t.(mask := t.mask.Without(op))
    }

    /** `handle` for the reported events, and storing what it returns. */
    function Round(revents: Ready, onRead: Callback, onWrite: Callback): Interest {
      var s1 := if revents.input then Call(Read, onRead) else this;
      var s2 := if revents.output then s1.Call(Write, onWrite) else s1;
      var s3 := if revents.error && !revents.input && !revents.output then s2.(mask := NOTHING) else s2;
      var events := NewEvents(polled, revents, Reactions(Reaction([], onRead.keep), Reaction([], onWrite.keep), []));
      if events == polled then s3 else s3.(polled := events)
    }
  }

  /** A callback that makes registrations for its own manager only. */
  datatype Callback = Callback(ops: seq<Op>, keep: bool) {
    function AsReaction(m: nat): Reaction {
      Reaction(seq(|ops|, k requires 0 <= k < |ops| => Register(m, ops[k])), keep)
    }
  }

  // -- invariants -----------------------------------------------------------------------------------------------------

  predicate Distinct(managers: seq<nat>) {
    forall i, j :: 0 <= i < j < |managers| ==> managers[i] != managers[j]
  }

  /** An entry polls for something its manager has in its mask, and always for writing if the manager wants to write. */
  predicate EntryFits(e: Entry, mask: Ops) {
    !e.events.None() && e.events.Within(mask) && (mask.write ==> e.events.write)
  }

  /** Both vectors describe the same sockets, each manager once; the entries at `gaps` need not fit. */
  predicate SyncExcept(s: State, gaps: set<int>) {
    && WellFormed(s) && Distinct(s.managers)
    && (forall i :: 0 <= i < |s.managers| ==> s.pollset[i].fd == s.handles[s.managers[i]])
    && (forall i :: 0 <= i < |s.managers| && i !in gaps ==> EntryFits(s.pollset[i], s.masks[s.managers[i]]))
  }

  predicate Sync(s: State) {
    SyncExcept(s, {})
  }

  /** Every manager is polled for exactly what its mask says, and is registered unless the mask is empty. */
  predicate ExactExcept(s: State, gaps: set<int>) {
    && SyncExcept(s, gaps)
    && (forall i :: 0 <= i < |s.managers| && i !in gaps ==> s.pollset[i].events == s.masks[s.managers[i]])
    && (forall m :: 0 <= m < |s.masks| && !s.masks[m].None() ==> m in s.managers)
  }

  predicate Exact(s: State) {
    ExactExcept(s, {})
  }

  predicate UpdaterFirst(s: State) {
    UPDATER in s.managers ==> s.managers[0] == UPDATER
  }
}
