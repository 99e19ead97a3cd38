/** The multiplexer and its socket managers as objects; the model of the pollset says what they compute. */
module Multiplexer {
  import opened PollsetModel
  import opened PollsetTheorems
  import opened PollsetScan
  import opened PollsetRuns
  import Pipe = PollsetUpdater

  class SocketManager {
    const handle: nat
    var mask: Ops

    constructor (handle: nat, mask: Ops)
      ensures this.handle == handle && this.mask == mask
    {
      this.handle, this.mask := handle, mask;
    }

    method MaskAdd(op: Op) returns (changed: bool)
      modifies this`mask
      ensures changed == !old(mask).Has(op) && mask == old(mask).With(op)
    {
      if mask.Has(op) {
        return false;
      }
      mask := mask.With(op);
      return true;
    }

    method MaskDel(op: Op) returns (changed: bool)
      modifies this`mask
      ensures changed == old(mask).Has(op) && mask == old(mask).Without(op)
    {
      if !mask.Has(op) {
        return false;
      }
      mask := mask.Without(op);
      return true;
    }
  }

  class Multiplexer {
    /** All socket managers there are, registered or not; the updater comes first. */
    const all: seq<SocketManager>
    /** What the callbacks of the managers do. */
    const code: Managers
    var pollset: seq<Entry>
    var managers: seq<nat>
    var shuttingDown: bool
    var calls: nat
    var handled: seq<nat>

    ghost predicate Valid()
      reads this
    {
      && (forall j, k :: 0 <= j < k < |all| ==> all[j] != all[k])
      && |pollset| == |managers| && forall i :: 0 <= i < |managers| ==> managers[i] < |all|
    }

    ghost function Abs(): (s: State)
      requires Valid()
      reads this, all
      ensures WellFormed(s) && |s.masks| == |all|
    {
      State(pollset, managers, seq(|all|, k requires 0 <= k < |all| reads all => all[k].mask),
            seq(|all|, k requires 0 <= k < |all| => all[k].handle), shuttingDown, calls, handled)
    }

    /** After `init`, with the updater registered for reading. */
    constructor (all: seq<SocketManager>, code: Managers)
      requires all != [] && all[0].mask == Ops(true, false)
      requires forall k :: 1 <= k < |all| ==> all[k].mask == NOTHING
      requires forall j, k :: 0 <= j < k < |all| ==> all[j] != all[k]
      ensures this.all == all && this.code == code && Valid() && Initial(Abs())
    {
      this.all, this.code := all, code;
      pollset, managers := [Entry(all[0].handle, Ops(true, false), QUIET)], [UPDATER];
      shuttingDown, calls, handled := false, 0, [];
    }

    method IndexOf(m: nat) returns (i: int)
      ensures i == PollsetModel.IndexOf(managers, m)
    {
      i := 0;
      while i < |managers| && managers[i] != m
        invariant 0 <= i <= |managers|
        invariant var j := PollsetModel.IndexOf(managers[i..], m);
                  PollsetModel.IndexOf(managers, m) == if j == -1 then -1 else i + j
      {
        assert managers[i..][1..] == managers[i + 1..];
        i := i + 1;
      }
      if i == |managers| {
        return -1;
      }
    }

    method Add(m: nat)
      requires Valid() && m < |all|
      modifies this`pollset, this`managers
      ensures Valid() && pollset == old(pollset) + [Entry(all[m].handle, all[m].mask, QUIET)]
      ensures managers == old(managers) + [m]
    {
      pollset := pollset + [Entry(all[m].handle, all[m].mask, QUIET)];
      managers := managers + [m];
    }

    method Del(i: nat)
      requires Valid() && i < |managers|
      modifies this`pollset, this`managers
      ensures Valid() && Abs() == Deleted(old(Abs()), i)
    {
      pollset := pollset[..i] + pollset[i + 1..];
      managers := managers[..i] + managers[i + 1..];
    }

    /** `register_reading` and `register_writing` in the thread of the multiplexer. */
    method Register(m: nat, op: Op)
      requires Valid() && m < |all|
      modifies this, all[m]
      ensures Valid() && Abs() == Registered(old(Abs()), m, op)
    {
      if shuttingDown {
        return;
      }
      ghost var masks := Abs().masks;
      if !all[m].mask.None() {
        var index := IndexOf(m);
        if index != -1 {
          var changed := all[m].MaskAdd(op);
          if changed {
            pollset := pollset[index := pollset[index].(events := pollset[index].events.With(op))];
          }
        }
      } else {
        var changed := all[m].MaskAdd(op);
        Add(m);
      }
    }

    /** Takes the manager at index `i` out of reading. */
    method StopAt(i: nat)
      requires Valid() && Distinct(managers) && i < |managers|
      modifies this`pollset, all[managers[i]]
      ensures Valid() && Abs() == Stopped(old(Abs()), i)
    {
      var m := managers[i];
      var changed := all[m].MaskDel(Read);
      if changed {
        IndexOfDistinct(managers, i);
        var index := IndexOf(m);
        pollset := pollset[index := pollset[index].(events := pollset[index].events.Without(Read))];
      }
    }

    /** `shutdown`: the first manager is the updater, which is skipped. */
    method ShutDown()
      requires Valid() && Distinct(managers)
      modifies this, all
      ensures Valid() && Abs() == PollsetModel.ShutDown(old(Abs()))
    {
      hide Deleted, Stopped;
      shuttingDown := true;
      ghost var s := Abs();
      assert s == old(Abs()).(shuttingDown := true);
      var i := 1;
      while i < |managers|
        invariant 1 <= i && Valid() && Distinct(managers)
        invariant StopReading(s, 1) == StopReading(Abs(), i)
        decreases |managers| - i
      {
        var m := managers[i];
        StopAt(i);
        if all[m].mask.None() {
          DeletedAt(Abs(), i);
          Del(i);
        } else {
          i := i + 1;
        }
      }
      assert StopReading(Abs(), i) == Abs();
    }

    // -- callbacks ----------------------------------------------------------------------------------------------------

    method Act(a: Action)
      requires Valid() && (a.Shutdown? ==> Distinct(managers))
      modifies this, all
      ensures Valid() && Abs() == PollsetModel.Act(old(Abs()), a)
    {
      match a
      case Register(m, op) =>
        if m < |all| {
          Register(m, op);
        }
      case Shutdown => ShutDown();
    }

    /** A callback of the manager at index `i`, which acts and then returns `r.keep`. */
    method Call(i: nat, op: Op, r: Reaction, ghost halts: bool) returns (keep: bool)
      requires Valid() && i < |managers| && Inv(Abs(), {i as int}, false) && Alive(Abs(), {i as int})
      requires OrderlyActions(r.actions, halts) && (halts ==> i == 0)
      modifies this, all
      ensures Valid() && Abs() == ActAll(old(Abs()), r.actions) && keep == r.keep
    {
      ghost var s := Abs();
      var k := 0;
      while k < |r.actions|
        invariant k <= |r.actions| && Valid() && i < |managers| && Inv(Abs(), {i as int}, false)
        invariant Alive(Abs(), {i as int})
        invariant ActAll(s, r.actions) == ActAll(Abs(), r.actions[k..])
      {
        ghost var t := Abs();
        assert [r.actions[k]][0] == r.actions[k] && r.actions[k..][1..] == r.actions[k + 1..];
        ActSettles(t, r.actions[k], i, halts, {i as int}, false);
        StillAlive(t, PollsetModel.Act(t, r.actions[k]), i, halts, {i as int});
        hide PollsetModel.Act, Moved, Grows, SyncExcept, ExactExcept;
        Act(r.actions[k]);
        k := k + 1;
      }
      keep := r.keep;
    }

    /** A callback and the `mask_del` if it returns false. */
    method CallAndMask(i: nat, op: Op, r: Reaction, ghost halts: bool) returns (keep: bool)
      requires Valid() && i < |managers| && Inv(Abs(), {i as int}, false) && Alive(Abs(), {i as int})
      requires OrderlyActions(r.actions, halts) && (halts ==> i == 0)
      modifies this, all
      ensures Valid() && Abs() == Called(old(Abs()), old(managers[i]), op, r) && keep == r.keep
    {
      ghost var s := Abs();
      var m := managers[i];
      keep := Call(i, op, r, halts);
      ghost var t := Abs();
      if !keep {
        var changed := all[m].MaskDel(op);
        assert Abs() == t.(masks := t.masks[m := t.masks[m].Without(op)]);
      }
    }

    /** One half of `handle`: the callback for `op`, if `poll` has reported its event. */
    method HandleOp(i: nat, op: Op, r: Reaction, ready: bool, events: Ops, ghost halts: bool) returns (left: Ops)
      requires Valid() && i < |managers| && Inv(Abs(), {i as int}, false)
      requires ready ==> Alive(Abs(), {i as int})
      requires OrderlyActions(r.actions, halts) && (halts ==> i == 0)
      modifies this, all
      ensures Valid() && Abs() == (if ready then Called(old(Abs()), old(managers[i]), op, r) else old(Abs()))
      ensures left == if ready && !r.keep then events.Without(op) else events
      ensures i < |managers| && managers[i] == old(managers[i]) && Inv(Abs(), {i as int}, false)
      ensures op.Read? && old(Abs()).masks[managers[i]].write ==> Abs().masks[managers[i]].write
    {
      left := events;
      ghost var mA := StageKeeps(Abs(), i, ready, op, r, halts, false);
      hide Inv, Called;
      if ready {
        var keep := CallAndMask(i, op, r, halts);
        if !keep {
          left := left.Without(op);
        }
      }
      hide Alive, ReadyFrom, Among;
    }

    /** `handle` for the manager at index `i`: returns the events to poll for from now on. */
    method Handle(i: nat) returns (events: Ops)
      requires Valid() && Inv(Abs(), {}, false) && UpdaterFirst(Abs()) && Orderly(code) && i < |managers|
      requires pollset[i].revents.Any() && Polled(pollset[i], shuttingDown)
      modifies this, all
      ensures Valid() && var s, e := old(Abs()), old(pollset[i]);
                         var r := code(s.calls, s.managers[i]);
                         && Abs() == Handled(s, s.managers[i], e.revents, r)
                         && events == NewEvents(e.events, e.revents, r)
    {
      var m, e := managers[i], pollset[i];
      var r := code(calls, m);
      ghost var halts := m == UPDATER;
      BegunKeeps(Abs(), i, false);
      if m == UPDATER {
        UpdaterAtFront(Abs(), i);
      }
      assert OrderlyReactions(r, halts);
      hide Inv, Orderly, UpdaterFirst, Called, ActAll, OrderlyActions;
      ghost var s := Abs();
      calls, handled := calls + 1, handled + [m];
      assert Abs() == Begun(s, m);
      events := HandleOp(i, Read, r.onRead, e.revents.input, e.events, halts);
      events := HandleOp(i, Write, r.onWrite, e.revents.output, events, halts);
      if !e.revents.input && !e.revents.output && e.revents.error {
        events := HandleError(i, m, r.onError, halts);
      }
    }

    /** `handle_error`, after which the manager takes part in nothing any more. */
    method HandleError(i: nat, m: nat, actions: seq<Action>, ghost halts: bool) returns (events: Ops)
      requires Valid() && i < |managers| && m == managers[i] && Inv(Abs(), {i as int}, false)
      requires Alive(Abs(), {i as int})
      requires OrderlyActions(actions, halts) && (halts ==> i == 0)
      modifies this, all
      ensures Valid() && events == NOTHING
      ensures var t := ActAll(old(Abs()), actions); Abs() == t.(masks := t.masks[m := NOTHING])
    {
      var keep := Call(i, Read, Reaction(actions, false), halts);
      ghost var t := Abs();
      var r := all[m].MaskDel(Read);
      var w := all[m].MaskDel(Write);
      assert all[m].mask == NOTHING;
      return NOTHING;
    }

    // -- polling ------------------------------------------------------------------------------------------------------

    /** The scan of `poll_once`, when `poll` has returned `presult` after reporting `revents`: it computes what the
        model says, so it handles every ready manager that is still registered exactly once and skips none. */
    method PollOnce(revents: seq<Ready>, presult: nat)
      requires Valid() && Inv(Abs(), {}, false) && UpdaterFirst(Abs()) && Orderly(code)
      requires PollReports(Abs(), revents) && presult == CountReady(revents)
      modifies this, all
      ensures Valid() && Abs() == PollsetRuns.PollOnce(old(Abs()), code, revents)
    {
      hide Scan, Visited, Passes, ReadyFrom, CountReady;
      ReportedKeeps(Abs(), code, revents, false);
      ghost var r := Reported(Abs(), revents);
      var entries := pollset;
      pollset := seq(|revents|, k requires 0 <= k < |revents| == |entries| => entries[k].(revents := revents[k]));
      assert Abs() == r;
      var i: nat, left: nat := 0, presult;
      while i < |pollset| && left > 0
        invariant Valid() && Scanning(Abs(), code, i, left, false)
        invariant Scan(r, code, 0, presult) == Scan(Abs(), code, i, left)
        decreases left, |pollset| - i
      {
        ghost var s := Abs();
        ScanAt(s, code, i, left);
        ScanningForm(s, code, i, left, false);
        if pollset[i].revents.Any() {
          RoundKeeps(s, code, i, left, false);
          i := Round(i);
          left := left - 1;
        } else {
          SkipKeeps(s, code, i, left, false);
          i := i + 1;
        }
      }
      ScanAt(Abs(), code, i, left);
    }

    /** One ready entry: `handle`, then removing the entry or storing its new events. */
    method Round(i: nat) returns (next: nat)
      requires Valid() && Inv(Abs(), {}, false) && UpdaterFirst(Abs()) && Orderly(code) && i < |managers|
      requires pollset[i].revents.Any() && Polled(pollset[i], shuttingDown)
      modifies this, all
      ensures Valid() && (Abs(), next) == Visited(old(Abs()), code, i)
    {
      var before := pollset[i].events;
      HandledInPlace(Abs(), code, i);
      hide Inv, Orderly, UpdaterFirst, Handled, NewEvents, Polled;
      var events := Handle(i);
      next := StoreEvents(i, before, events);
    }

    method StoreEvents(i: nat, before: Ops, events: Ops) returns (next: nat)
      requires Valid() && i < |pollset|
      modifies this`pollset, this`managers
      ensures Valid() && (Abs(), next) == Stored(old(Abs()), i, before, events)
    {
      if events.None() {
        Del(i);
        return i;
      }
      ghost var t := Abs();
      if events != before {
        pollset := pollset[i := pollset[i].(events := events)];
        assert Abs() == t.(pollset := pollset);
      }
      return i + 1;
    }
  }

  lemma HandledInPlace(s: State, code: Managers, i: nat)
    requires Inv(s, {}, false) && UpdaterFirst(s) && Orderly(code) && i < |s.managers|
    requires s.pollset[i].revents.Any() && Polled(s.pollset[i], s.shuttingDown)
    ensures var m := s.managers[i];
            i < |Handled(s, m, s.pollset[i].revents, code(s.calls, m)).pollset|
  {
    var m := s.managers[i];
    var r := code(s.calls, m);
    if m == UPDATER {
      UpdaterAtFront(s, i);
    }
    assert OrderlyReactions(r, m == UPDATER);
    if s.pollset[i].revents.input || s.pollset[i].revents.output {
      HandledKeeps(s, i, r, m == UPDATER, false);
    } else {
      ErrorKeeps(s, i, r, m == UPDATER, false);
    }
    hide Handled, NewEvents, Closes;
    MovedIndex(s, Handled(s, m, s.pollset[i].revents, r), i);
  }

  // -- the updater among the managers ---------------------------------------------------------------------------------

  /** What the multiplexer does for a record; `inits` are the registrations that the managers' `init` makes, and an
      unknown opcode is only logged. */
  function Meaning(r: Pipe.Record, inits: nat -> seq<Action>): seq<Action> {
    if r.opcode == Pipe.REGISTER_READING then [Action.Register(r.mgr, Read)]
    else if r.opcode == Pipe.REGISTER_WRITING then [Action.Register(r.mgr, Write)]
    else if r.opcode == Pipe.INIT_MANAGER then inits(r.mgr)
    else if r.opcode == Pipe.SHUTDOWN then [Shutdown]
    else []
  }

  function Meanings(rs: seq<Pipe.Record>, inits: nat -> seq<Action>): seq<Action> {
    if rs == [] then [] else Meaning(rs[0], inits) + Meanings(rs[1..], inits)
  }

  /** The records in the pipe are actions that the scan allows the updater, as long as nobody registers the updater. */
  lemma {:induction false} RecordsAreOrderly(rs: seq<Pipe.Record>, inits: nat -> seq<Action>)
    requires forall r :: r in rs ==> r.mgr != UPDATER || r.opcode == Pipe.SHUTDOWN
    requires forall m :: OrderlyActions(inits(m), false)
    ensures OrderlyActions(Meanings(rs, inits), true)
  {
    if rs != [] {
      assert OrderlyActions(inits(rs[0].mgr), false);
      RecordsAreOrderly(rs[1..], inits);
    }
  }

  /** What the records in the pipe mean for the pollset: after any sequence of them without a shutdown, a socket is
      polled for input if and only if it was before, or there is a record that registers it for reading, or the `init`
      of a manager in a record of that kind does; and for output likewise. */
  lemma RecordsTakeEffect(s: State, rs: seq<Pipe.Record>, inits: nat -> seq<Action>)
    requires Exact(s) && !s.shuttingDown
    requires forall r :: r in rs ==> r.opcode != Pipe.SHUTDOWN
    requires OnlyRegister(inits)
    ensures var t := ActAll(s, Meanings(rs, inits));
            && Exact(t) && !t.shuttingDown
            && (forall m :: 0 <= m < |s.masks| ==>
                  (PolledFor(t, m, Read) <==>
                   || PolledFor(s, m, Read) || Pipe.Record(Pipe.REGISTER_READING, m) in rs
                   || exists k :: Pipe.Record(Pipe.INIT_MANAGER, k) in rs && Action.Register(m, Read) in inits(k)))
            && (forall m :: 0 <= m < |s.masks| ==>
                  (PolledFor(t, m, Write) <==>
                   || PolledFor(s, m, Write) || Pipe.Record(Pipe.REGISTER_WRITING, m) in rs
                   || exists k :: Pipe.Record(Pipe.INIT_MANAGER, k) in rs && Action.Register(m, Write) in inits(k)))
  {
    OnlyRegistrations(rs, inits);
    RegistrationsKeep(s, Meanings(rs, inits));
    var t := ActAll(s, Meanings(rs, inits));
    hide ActAll, Meanings, ExactExcept, PolledFor;
    forall m, op | 0 <= m < |s.masks|
      ensures PolledFor(t, m, op) <==> PolledFor(s, m, op) || Asked(rs, inits, m, op)
    {
      ExactlyPolled(s, m, op);
      ExactlyPolled(t, m, op);
      AskedByRecords(rs, inits, m, op);
    }
    assert forall m :: Asked(rs, inits, m, Read) || !Asked(rs, inits, m, Read);
    assert forall m :: Asked(rs, inits, m, Write) || !Asked(rs, inits, m, Write);
  }

  ghost predicate OnlyRegister(inits: nat -> seq<Action>) {
    forall m, k :: 0 <= k < |inits(m)| ==> inits(m)[k].Register?
  }

  /** A record asks for `op` on the socket of `m`. */
  ghost predicate Asked(rs: seq<Pipe.Record>, inits: nat -> seq<Action>, m: nat, op: Op) {
    || Pipe.Record(if op.Read? then Pipe.REGISTER_READING else Pipe.REGISTER_WRITING, m) in rs
    || exists k :: Pipe.Record(Pipe.INIT_MANAGER, k) in rs && Action.Register(m, op) in inits(k)
  }

  lemma {:induction false} AskedByRecords(rs: seq<Pipe.Record>, inits: nat -> seq<Action>, m: nat, op: Op)
    ensures Action.Register(m, op) in Meanings(rs, inits) <==> Asked(rs, inits, m, op)
  {
    if rs != [] {
      AskedByRecords(rs[1..], inits, m, op);
      AskedByFirst(rs[0], inits, m, op);
      hide Meaning;
      assert rs == [rs[0]] + rs[1..];
      assert Asked(rs, inits, m, op) <==> Asked([rs[0]], inits, m, op) || Asked(rs[1..], inits, m, op);
    }
  }

  lemma AskedByFirst(r: Pipe.Record, inits: nat -> seq<Action>, m: nat, op: Op)
    ensures Action.Register(m, op) in Meaning(r, inits) <==> Asked([r], inits, m, op)
  {}

  lemma {:induction false} OnlyRegistrations(rs: seq<Pipe.Record>, inits: nat -> seq<Action>)
    requires forall r :: r in rs ==> r.opcode != Pipe.SHUTDOWN
    requires OnlyRegister(inits)
    ensures forall a :: a in Meanings(rs, inits) ==> a.Register?
  {
    if rs != [] {
      assert forall a :: a in Meaning(rs[0], inits) ==> a.Register?;
      OnlyRegistrations(rs[1..], inits);
    }
  }

  lemma {:induction false} MeaningsConcat(a: seq<Pipe.Record>, b: seq<Pipe.Record>, inits: nat -> seq<Action>)
    ensures Meanings(a + b, inits) == Meanings(a, inits) + Meanings(b, inits)
  {
    hide Meaning;
    if a == [] {
      assert a + b == b;
    } else {
      assert (a + b)[1..] == a[1..] + b;
      MeaningsConcat(a[1..], b, inits);
      assert Meanings(a + b, inits) == Meaning(a[0], inits) + (Meanings(a[1..], inits) + Meanings(b, inits));
    }
  }

  lemma {:induction false} ActConcat(s: State, a: seq<Action>, b: seq<Action>)
    requires WellFormed(s)
    ensures ActAll(s, a + b) == ActAll(ActAll(s, a), b)
    decreases |a|
  {
    hide Act;
    if a == [] {
      assert a + b == b;
    } else {
      assert (a + b)[1..] == a[1..] + b;
      ActConcat(Act(s, a[0]), a[1..], b);
    }
  }

  lemma {:induction false} NothingWhileDown(s: State, actions: seq<Action>)
    requires WellFormed(s) && s.shuttingDown && forall a :: a in actions ==> a.Register?
    ensures ActAll(s, actions) == s
    decreases |actions|
  {
    if actions != [] {
      assert actions[0] in actions;
      NothingWhileDown(s, actions[1..]);
    }
  }

  /** A record for the shutdown shuts down, and what comes behind it has no effect any more. */
  lemma ShutdownTakesEffect(s: State, before: seq<Pipe.Record>, mgr: nat, after: seq<Pipe.Record>,
                            inits: nat -> seq<Action>)
    requires WellFormed(s) && OnlyRegister(inits)
    requires forall r :: r in after ==> r.opcode != Pipe.SHUTDOWN
    ensures var rs := before + ([Pipe.Record(Pipe.SHUTDOWN, mgr)] + after);
            var t := ActAll(s, Meanings(rs, inits));
            t.shuttingDown && t == ShutDown(ActAll(s, Meanings(before, inits)))
  {
    var shutdown := Pipe.Record(Pipe.SHUTDOWN, mgr);
    MeaningsConcat(before, [shutdown] + after, inits);
    MeaningsConcat([shutdown], after, inits);
    OnlyRegistrations(after, inits);
    var u := ActAll(s, Meanings(before, inits));
    ActConcat(s, Meanings(before, inits), Meanings([shutdown] + after, inits));
    ActConcat(u, [Shutdown], Meanings(after, inits));
    ShutdownMeans(mgr, inits);
    ShutsDown(u);
    hide ActAll, Meanings, ShutDown;
    NothingWhileDown(ShutDown(u), Meanings(after, inits));
  }

  lemma ShutdownMeans(mgr: nat, inits: nat -> seq<Action>)
    ensures Meanings([Pipe.Record(Pipe.SHUTDOWN, mgr)], inits) == [Shutdown]
  {}

  lemma ShutsDown(s: State)
    requires WellFormed(s)
    ensures ActAll(s, [Shutdown]) == ShutDown(s) && ShutDown(s).shuttingDown
  {
    StopReadingFlag(s.(shuttingDown := true), 1);
    assert [Shutdown][1..] == [];
    hide StopReading;
  }
}
