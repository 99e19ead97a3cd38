/** One scan of the pollset, with callbacks that register, stop and shut down. */
module PollsetScan {
  import opened PollsetModel
  import opened PollsetTheorems

  // -- the actions of one callback ------------------------------------------------------------------------------------

  /** Nobody registers the pollset updater again, and only the updater shuts down. */
  predicate OrderlyActions(actions: seq<Action>, halts: bool) {
    forall k :: 0 <= k < |actions| ==>
      if actions[k].Register? then actions[k].mgr != UPDATER else halts
  }

  predicate OrderlyReactions(r: Reactions, halts: bool) {
    OrderlyActions(r.onRead.actions, halts) && OrderlyActions(r.onWrite.actions, halts)
        && OrderlyActions(r.onError, halts)
  }

  ghost predicate Orderly(code: Managers) {
    forall n: nat, m: nat :: OrderlyReactions(code(n, m), m == UPDATER)
  }

  lemma HaltedSettles(s: State, t: State)
    requires WellFormed(s) && Distinct(s.managers) && s.managers != [] && s.shuttingDown && Halted(s, t, 1)
    ensures Settled(s, t, 0, true) && t.masks[s.managers[0]] == s.masks[s.managers[0]]
  {
    NotBehind(s, 0);
    MaskKept(s, t, 1, s.managers[0]);
    hide ReadyFrom, Among;
    assert forall m :: m in t.managers ==> m in s.managers;
    hide HaltedNames;
    assert t.managers[0] == s.managers[0] && t.pollset[0] == s.pollset[0];
  }

  lemma FlagSettles(s: State)
    requires WellFormed(s) && s.managers != []
    ensures Settled(s, s.(shuttingDown := true), 0, true)
  {
    SettledOnce(s, 0, true);
    ReadySame(s, s.(shuttingDown := true), 1);
    hide ReadyFrom, Among;
  }

  lemma ShutDownSettles(s: State, gaps: set<int>, exact: bool)
    requires Inv(s, gaps, exact) && s.managers != [] && gaps <= {0}
    ensures Inv(ShutDown(s), gaps, exact) && Settled(s, ShutDown(s), 0, true) && ShutDown(s).shuttingDown
    ensures ShutDown(s).masks[s.managers[0]] == s.masks[s.managers[0]]
  {
    var s' := s.(shuttingDown := true);
    assert Inv(s', gaps, exact);
    StopReadingKeeps(s', 1, gaps, exact);
    hide StopReading, EntryFits, ReadyFrom, Among;
    HaltedSettles(s', ShutDown(s));
    FlagSettles(s);
    hide Grows, HaltedNames, Halted;
    MovedTwice(s, s', ShutDown(s), 0, true);
    OwnTwice(s, s', ShutDown(s), 0, true);
  }

  lemma ActSettles(s: State, a: Action, i: nat, halts: bool, gaps: set<int>, exact: bool)
    requires Inv(s, gaps, exact) && Alive(s, gaps) && i < |s.managers| && gaps <= {i as int}
    requires OrderlyActions([a], halts) && (halts ==> i == 0)
    ensures Inv(Act(s, a), gaps, exact) && Settled(s, Act(s, a), i, halts)
  {
    assert [a][0] == a;
    match a
    case Register(m, op) =>
      if m < |s.masks| {
        RegisteredSettles(s, m, op, i, halts, gaps, exact);
      } else {
        SettledOnce(s, i, halts);
      }
    case Shutdown => ShutDownSettles(s, gaps, exact);
  }

  lemma {:induction false} ActAllSettles(s: State, actions: seq<Action>, i: nat, halts: bool, gaps: set<int>,
      exact: bool)
    requires Inv(s, gaps, exact) && Alive(s, gaps) && i < |s.managers| && gaps <= {i as int}
    requires OrderlyActions(actions, halts) && (halts ==> i == 0)
    ensures Inv(ActAll(s, actions), gaps, exact) && Settled(s, ActAll(s, actions), i, halts)
    decreases |actions|
  {
    hide ExactExcept, EntryFits, ReadyFrom, Among, Act;
    if actions == [] {
      SettledOnce(s, i, halts);
    } else {
      assert [actions[0]][0] == actions[0];
      ActSettles(s, actions[0], i, halts, gaps, exact);
      var t := Act(s, actions[0]);
      StillAlive(s, t, i, halts, gaps);
      ActAllSettles(t, actions[1..], i, halts, gaps, exact);
      MovedTwice(s, t, ActAll(t, actions[1..]), i, halts);
      OwnTwice(s, t, ActAll(t, actions[1..]), i, halts);
    }
  }

  lemma StillAlive(s: State, t: State, i: nat, halts: bool, gaps: set<int>)
    requires WellFormed(s) && i < |s.managers| && Settled(s, t, i, halts) && Alive(s, gaps) && gaps <= {i as int}
    ensures Alive(t, gaps)
  {}

  lemma OwnTwice(s: State, t: State, u: State, i: nat, halts: bool)
    requires WellFormed(s) && i < |s.managers| && Settled(s, t, i, halts) && Settled(t, u, i, halts)
    requires Moved(s, u, i, halts)
    ensures Settled(s, u, i, halts)
  {
    hide ReadyFrom, Among;
  }

  // -- one callback ---------------------------------------------------------------------------------------------------

  /** A callback and the `mask_del` after it: only the own entry may cease to fit. */
  lemma CalledKeeps(s: State, i: nat, op: Op, r: Reaction, halts: bool, gaps: set<int>, exact: bool)
    requires Inv(s, gaps, exact) && Alive(s, gaps) && i < |s.managers| && gaps <= {i as int}
    requires OrderlyActions(r.actions, halts) && (halts ==> i == 0)
    ensures var m, t, u := s.managers[i], ActAll(s, r.actions), Called(s, s.managers[i], op, r);
            && Settled(s, t, i, halts) && Moved(s, u, i, halts)
            && Inv(u, if r.keep then gaps else {i as int}, exact)
            && u.pollset == t.pollset && u.shuttingDown == t.shuttingDown
            && u.masks[m] == if r.keep then t.masks[m] else t.masks[m].Without(op)
  {
    hide ActAll, ExactExcept, EntryFits, ReadyFrom, Among;
    ActAllSettles(s, r.actions, i, halts, gaps, exact);
    var m, t, u := s.managers[i], ActAll(s, r.actions), Called(s, s.managers[i], op, r);
    if !r.keep {
      MaskCut(t, i, u.masks[m], gaps, exact);
      MovedCut(s, t, i, u.masks[m], halts);
    }
    hide Inv, Grows;
  }

  lemma MovedCut(s: State, t: State, i: nat, mask: Ops, halts: bool)
    requires WellFormed(s) && i < |s.managers| && Moved(s, t, i, halts)
    ensures Moved(s, t.(masks := t.masks[s.managers[i] := mask]), i, halts)
  {
    ReadySame(t, t.(masks := t.masks[s.managers[i] := mask]), i + 1);
    hide ReadyFrom, Among;
  }

  /** A smaller mask for the manager at `i`. */
  lemma MaskCut(t: State, i: nat, mask: Ops, gaps: set<int>, exact: bool)
    requires Inv(t, gaps, exact) && i < |t.managers| && gaps <= {i as int} && mask.Within(t.masks[t.managers[i]])
    ensures Inv(t.(masks := t.masks[t.managers[i] := mask]), {i as int}, exact)
  {
    assert forall j :: 0 <= j < |t.managers| && j != i ==> t.managers[j] != t.managers[i];
  }

  // -- one call of `handle` -------------------------------------------------------------------------------------------

  /** Whether the callbacks that are called all return true, or else none of them changes the mask of its manager by a
      registration. */
  ghost predicate Considerate(s: State, m: nat, revents: Ready, r: Reactions)
    requires WellFormed(s) && m < |s.masks|
  {
    var s0 := Begun(s, m);
    var s1 := if revents.input then Called(s0, m, Read, r.onRead) else s0;
    || ((revents.input ==> r.onRead.keep) && (revents.output ==> r.onWrite.keep))
    || (&& (revents.input ==> ActAll(s0, r.onRead.actions).masks[m] == s0.masks[m])
        && (revents.output ==> ActAll(s1, r.onWrite.actions).masks[m] == s1.masks[m]))
  }

  /** How one callback's actions take a mask and the polled events from (`m0`, `e0`) to (`m1`, `e1`). */
  predicate Gains(m0: Ops, e0: Ops, shuttingDown: bool, m1: Ops, e1: Ops) {
    && m0.Within(m1)
    && e1.read == (e0.read || (m1.read && !m0.read))
    && e1.write == (e0.write || (m1.write && !m0.write))
    && (shuttingDown ==> m1 == m0 && e1 == e0)
  }

  /** What is reported was polled for, except that a shutdown may have ended the reading. */
  predicate Polled(e: Entry, shuttingDown: bool) {
    (e.revents.input ==> e.events.read || shuttingDown) && (e.revents.output ==> e.events.write)
  }

  /** The own entry after the call: `events` is what `handle` has returned, `polled` what the entry holds by then. */
  predicate Closes(before: Ops, events: Ops, polled: Ops, mask: Ops) {
    if events.None() then true
    else if events != before then events.Within(mask) && (mask.write ==> events.write)
    else polled.Within(mask) && (mask.write ==> polled.write) && !polled.None()
  }

  predicate ClosesExactly(before: Ops, events: Ops, polled: Ops, mask: Ops) {
    if events.None() then mask.None() else if events != before then events == mask else polled == mask
  }

  /** The masks and events of one manager through a call of `handle`: (m0, e0) before, mA after the actions of the read
      callback, (m1, e1) after it, mB after the actions of the write callback, (m2, e2) at the end. */
  lemma OwnEntry(e: Entry, sd0: bool, sd1: bool, m0: Ops, mA: Ops, m1: Ops, e1: Ops, mB: Ops, m2: Ops, e2: Ops,
      r: Reactions)
    requires EntryFits(e, m0) && Polled(e, sd0) && (sd0 ==> sd1) && (e.revents.input || e.revents.output)
    requires if e.revents.input then
               Gains(m0, e.events, sd0, mA, e1) && m1 == (if r.onRead.keep then mA else mA.Without(Read))
             else mA == m1 == m0 && e1 == e.events
    requires if e.revents.output then
               Gains(m1, e1, sd1, mB, e2) && m2 == (if r.onWrite.keep then mB else mB.Without(Write))
             else mB == m2 == m1 && e2 == e1
    ensures var events := NewEvents(e.events, e.revents, r);
            var kept := (e.revents.input ==> r.onRead.keep) && (e.revents.output ==> r.onWrite.keep);
            && Closes(e.events, events, e2, m2)
            && (e.events == m0 ==> (ClosesExactly(e.events, events, e2, m2) <==> kept || (mA == m0 && mB == m1)))
    ensures e.revents.input && e.revents.output ==> !m1.None()
  {}

  /** A callback that may or may not be called; `mA` is the mask after its actions. */
  lemma StageKeeps(s: State, i: nat, called: bool, op: Op, r: Reaction, halts: bool, exact: bool) returns (mA: Ops)
    requires Inv(s, {i as int}, exact) && i < |s.managers| && OrderlyActions(r.actions, halts) && (halts ==> i == 0)
    requires called ==> !s.masks[s.managers[i]].None()
    ensures var m := s.managers[i];
            var u := if called then Called(s, m, op, r) else s;
            && Moved(s, u, i, halts) && Inv(u, {i as int}, exact)
            && (if called then
                  && Gains(s.masks[m], s.pollset[i].events, s.shuttingDown, mA, u.pollset[i].events)
                  && u.masks[m] == (if r.keep then mA else mA.Without(op))
                  && mA == ActAll(s, r.actions).masks[m]
                else mA == s.masks[m])
  {
    hide ActAll, Called;
    mA := s.masks[s.managers[i]];
    if called {
      CalledKeeps(s, i, op, r, halts, {i as int}, exact);
      mA := ActAll(s, r.actions).masks[s.managers[i]];
    } else {
      SettledOnce(s, i, halts);
    }
    hide Inv, ReadyFrom, Among;
  }

  /** The callbacks of one call: everything but the own entry still fits, and the events returned close the gap
      exactly if the callbacks have been considerate. */
  lemma HandledKeeps(s: State, i: nat, r: Reactions, halts: bool, exact: bool)
    requires Inv(s, {}, exact) && i < |s.managers| && OrderlyReactions(r, halts) && (halts ==> i == 0)
    requires Polled(s.pollset[i], s.shuttingDown) && (s.pollset[i].revents.input || s.pollset[i].revents.output)
    ensures var m, e := s.managers[i], s.pollset[i];
            var t, events := Handled(s, m, e.revents, r), NewEvents(e.events, e.revents, r);
            && Moved(Begun(s, m), t, i, halts) && Inv(t, {i as int}, exact)
            && Closes(e.events, events, t.pollset[i].events, t.masks[m])
            && (exact ==> (ClosesExactly(e.events, events, t.pollset[i].events, t.masks[m]) <==>
                Considerate(s, m, e.revents, r)))
  {
    hide ActAll, Called, Inv, ReadyFrom, Among;
    BegunKeeps(s, i, exact);
    var m, e := s.managers[i], s.pollset[i];
    var s0 := Begun(s, m);
    var mA := StageKeeps(s0, i, e.revents.input, Read, r.onRead, halts, exact);
    var s1 := if e.revents.input then Called(s0, m, Read, r.onRead) else s0;
    var mB := StageKeeps(s1, i, e.revents.output, Write, r.onWrite, halts, exact);
    var t := if e.revents.output then Called(s1, m, Write, r.onWrite) else s1;
    MovedTwice(s0, s1, t, i, halts);
    OwnEntry(e, s0.shuttingDown, s1.shuttingDown, s.masks[m], mA, s1.masks[m], s1.pollset[i].events, mB, t.masks[m],
             t.pollset[i].events, r);
    hide Closes, ClosesExactly, Moved, Gains;
  }

  lemma BegunKeeps(s: State, i: nat, exact: bool)
    requires Inv(s, {}, exact) && i < |s.managers|
    ensures WellFormed(s)
    ensures var m, e := s.managers[i], s.pollset[i];
            && Inv(Begun(s, m), {i as int}, exact) && EntryFits(e, s.masks[m]) && !s.masks[m].None()
            && (exact ==> e.events == s.masks[m])
  {}

  /** The condition reported by `poll` is an error only. */
  lemma ErrorKeeps(s: State, i: nat, r: Reactions, halts: bool, exact: bool)
    requires Inv(s, {}, exact) && i < |s.managers| && OrderlyReactions(r, halts) && (halts ==> i == 0)
    requires !s.pollset[i].revents.input && !s.pollset[i].revents.output && s.pollset[i].revents.error
    ensures var m, e := s.managers[i], s.pollset[i];
            var t := Handled(s, m, e.revents, r);
            && Moved(Begun(s, m), t, i, halts) && Inv(t, {i as int}, exact)
            && t.masks[m].None() && NewEvents(e.events, e.revents, r).None() && Considerate(s, m, e.revents, r)
  {
    hide ActAll, ReadyFrom, Among;
    BegunKeeps(s, i, exact);
    var m := s.managers[i];
    var s0 := Begun(s, m);
    ActAllSettles(s0, r.onError, i, halts, {i as int}, exact);
    var t := ActAll(s0, r.onError);
    MaskCut(t, i, NOTHING, {i as int}, exact);
    MovedCut(s0, t, i, NOTHING, halts);
    hide Inv, Moved, Grows;
  }

  /** The own entry fits as well once the events have been stored. */
  lemma EntryCloses(t: State, i: nat, events: Ops, exact: bool)
    requires Inv(t, {i as int}, exact) && i < |t.managers|
    requires EntryFits(t.pollset[i].(events := events), t.masks[t.managers[i]])
    ensures Inv(t.(pollset := t.pollset[i := t.pollset[i].(events := events)]), {},
                exact && events == t.masks[t.managers[i]])
  {}

  // -- one round of the scan ------------------------------------------------------------------------------------------

  lemma {:induction false} ReadyBehind(s: State, i: nat, m: nat)
    requires WellFormed(s) && m !in s.managers[if i <= |s.managers| then i else |s.managers|..]
    ensures m !in ReadyFrom(s, i)
    decreases |s.managers| - i
  {
    if i < |s.managers| {
      assert s.managers[i..] == [s.managers[i]] + s.managers[i + 1..];
      ReadyBehind(s, i + 1, m);
    }
  }

  lemma {:induction false} AmongSame(ms: seq<nat>, a: seq<nat>, b: seq<nat>)
    requires forall m :: m in ms ==> (m in a <==> m in b)
    ensures Among(ms, a) == Among(ms, b)
  {
    if ms != [] {
      AmongSame(ms[1..], a, b);
    }
  }

  lemma UpdaterAtFront(s: State, i: nat)
    requires WellFormed(s) && Distinct(s.managers) && UpdaterFirst(s) && i < |s.managers| && s.managers[i] == UPDATER
    ensures i == 0
  {}

  /** What a round does to the order of the managers, whichever way it ends. */
  ghost predicate Passes(s: State, v: State, i: nat, next: nat)
    requires WellFormed(s) && i < |s.managers|
  {
    var m := s.managers[i];
    && WellFormed(v) && v.handled == s.handled + [m] && v.calls == s.calls + 1
    && UpdaterFirst(v) && (UPDATER !in s.managers ==> UPDATER !in v.managers)
    && (next == i || (next == i + 1 && i < |v.managers| && v.managers[i] == m))
    && (next == i ==> m !in v.managers)
    && ReadyFrom(v, next) == Among(ReadyFrom(s, i + 1), v.managers)
    && (m != UPDATER ==> ReadyFrom(v, next) == ReadyFrom(s, i + 1))
  }

  lemma PassesKept(s: State, t: State, entry: Entry, i: nat)
    requires WellFormed(s) && Distinct(s.managers) && UpdaterFirst(s) && i < |s.managers|
    requires Moved(Begun(s, s.managers[i]), t, i, s.managers[i] == UPDATER)
    requires entry.revents == t.pollset[i].revents
    ensures Passes(s, t.(pollset := t.pollset[i := entry]), i, i + 1)
  {
    var v := t.(pollset := t.pollset[i := entry]);
    var m := s.managers[i];
    var s0 := Begun(s, m);
    ReadyAreManagers(s, i + 1);
    ReadySame(s, s0, i + 1);
    ReadySame(t, v, i + 1);
    hide ReadyFrom;
    if m != UPDATER {
      AmongAll(ReadyFrom(s, i + 1), t.managers);
    }
  }

  lemma PassesDeleted(s: State, t: State, i: nat)
    requires WellFormed(s) && Distinct(s.managers) && UpdaterFirst(s) && i < |s.managers|
    requires Moved(Begun(s, s.managers[i]), t, i, s.managers[i] == UPDATER) && Distinct(t.managers)
    ensures Passes(s, Deleted(t, i), i, i)
  {
    DeletedAt(t, i);
    DeletedGone(t, i);
    ReadyDeleted(s, t, i);
    hide Deleted, ReadyFrom, Among;
  }

  /** Behind a deleted entry come the ready managers that are still there; all of them, unless it was the updater's. */
  lemma ReadyDeleted(s: State, t: State, i: nat)
    requires WellFormed(s) && Distinct(s.managers) && i < |s.managers|
    requires Moved(Begun(s, s.managers[i]), t, i, s.managers[i] == UPDATER) && Distinct(t.managers)
    ensures ReadyFrom(Deleted(t, i), i) == Among(ReadyFrom(s, i + 1), Deleted(t, i).managers)
    ensures s.managers[i] != UPDATER ==> ReadyFrom(Deleted(t, i), i) == ReadyFrom(s, i + 1)
  {
    MovedForm(s, t, i);
    NotReadyBehind(s, i);
    hide Moved, ReadyFrom, Among, Deleted, WellFormed, Distinct;
    DeletedShifts(t, i);
    AmongOthers(ReadyFrom(s, i + 1), t, i);
    if s.managers[i] != UPDATER {
      OthersStay(s, t, i);
    }
  }

  lemma MovedForm(s: State, t: State, i: nat)
    requires WellFormed(s) && i < |s.managers|
    requires Moved(Begun(s, s.managers[i]), t, i, s.managers[i] == UPDATER)
    ensures WellFormed(t) && i < |t.managers| && t.managers[i] == s.managers[i]
    ensures ReadyFrom(t, i + 1) == Among(ReadyFrom(s, i + 1), t.managers)
  {
    hide Among, ReadyFrom, WellFormed;
    BegunReady(s, s.managers[i], i + 1);
  }

  lemma {:induction false} BegunReady(s: State, m: nat, i: nat)
    requires WellFormed(s)
    ensures ReadyFrom(Begun(s, m), i) == ReadyFrom(s, i)
    decreases |s.pollset| - i
  {
    if i < |s.pollset| {
      BegunReady(s, m, i + 1);
    }
  }

  lemma DeletedShifts(t: State, i: nat)
    requires WellFormed(t) && i < |t.managers|
    ensures ReadyFrom(Deleted(t, i), i) == ReadyFrom(t, i + 1)
  {
    DeletedAt(t, i);
    hide Deleted;
    ReadyShift(t, Deleted(t, i), i);
  }

  lemma AmongOthers(ms: seq<nat>, t: State, i: nat)
    requires WellFormed(t) && Distinct(t.managers) && i < |t.managers| && t.managers[i] !in ms
    ensures Among(ms, Deleted(t, i).managers) == Among(ms, t.managers)
  {
    DeletedAt(t, i);
    DeletedGone(t, i);
    hide Deleted;
    AmongSame(ms, t.managers, Deleted(t, i).managers);
  }

  lemma OthersStay(s: State, t: State, i: nat)
    requires WellFormed(s) && i < |s.managers| && s.managers[i] != UPDATER
    requires Moved(Begun(s, s.managers[i]), t, i, s.managers[i] == UPDATER)
    ensures Among(ReadyFrom(s, i + 1), t.managers) == ReadyFrom(s, i + 1)
  {
    ReadyAreManagers(s, i + 1);
    hide ReadyFrom;
    AmongAll(ReadyFrom(s, i + 1), t.managers);
  }

  lemma NotReadyBehind(s: State, i: nat)
    requires WellFormed(s) && Distinct(s.managers) && i < |s.managers|
    ensures s.managers[i] !in ReadyFrom(s, i + 1)
  {
    NotBehind(s, i);
    ReadyBehind(s, i + 1, s.managers[i]);
    hide ReadyFrom;
  }

  lemma PassesStored(s: State, t: State, i: nat, before: Ops, events: Ops)
    requires WellFormed(s) && Distinct(s.managers) && UpdaterFirst(s) && i < |s.managers|
    requires Moved(Begun(s, s.managers[i]), t, i, s.managers[i] == UPDATER) && Distinct(t.managers)
    ensures var (v, next) := Stored(t, i, before, events); Passes(s, v, i, next)
  {
    hide Passes, Moved;
    if events.None() {
      PassesDeleted(s, t, i);
    } else {
      MovedIndex(s, t, i);
      var entry := if events != before then t.pollset[i].(events := events) else t.pollset[i];
      PassesKept(s, t, entry, i);
      assert events == before ==> t.(pollset := t.pollset[i := entry]) == t;
    }
  }

  lemma MovedIndex(s: State, t: State, i: nat)
    requires WellFormed(s) && i < |s.managers| && Moved(Begun(s, s.managers[i]), t, i, s.managers[i] == UPDATER)
    ensures WellFormed(t) && i < |t.pollset| && t.managers[i] == s.managers[i] && |t.masks| == |s.masks|
  {}

  lemma StoredFits(t: State, i: nat, before: Ops, events: Ops, exact: bool)
    requires Inv(t, {i as int}, exact) && i < |t.managers|
    requires Closes(before, events, t.pollset[i].events, t.masks[t.managers[i]])
    ensures var v := Stored(t, i, before, events).0;
            var closes := ClosesExactly(before, events, t.pollset[i].events, t.masks[t.managers[i]]);
            Inv(v, {}, exact && closes) && (exact ==> (Exact(v) <==> closes))
  {
    var m := t.managers[i];
    if events.None() {
      DeletedKeeps(t, i, {}, exact && t.masks[m].None());
      DeletedGone(t, i);
      hide Deleted, EntryFits;
    } else {
      var e := if events != before then events else t.pollset[i].events;
      EntryCloses(t, i, e, exact);
      var v := t.(pollset := t.pollset[i := t.pollset[i].(events := e)]);
      assert events == before ==> v == t;
      assert v.pollset[i].events == e && v.managers[i] == m;
      hide EntryFits;
    }
  }

  /** One round of the scan: both vectors stay in step; the masks stay exact if and only if the callbacks have been
      considerate. */
  lemma VisitKeeps(s: State, code: Managers, i: nat, exact: bool)
    requires Inv(s, {}, exact) && Orderly(code) && UpdaterFirst(s) && i < |s.managers|
    requires s.pollset[i].revents.Any() && Polled(s.pollset[i], s.shuttingDown)
    ensures var (v, next) := Visited(s, code, i);
            var considerate := Considerate(s, s.managers[i], s.pollset[i].revents, code(s.calls, s.managers[i]));
            && Passes(s, v, i, next)
            && Inv(v, {}, exact && considerate)
            && (exact ==> (Exact(v) <==> considerate))
  {
    var m, e := s.managers[i], s.pollset[i];
    var r := code(s.calls, m);
    if m == UPDATER {
      UpdaterAtFront(s, i);
    }
    assert OrderlyReactions(r, m == UPDATER);
    var t, events := Handled(s, m, e.revents, r), NewEvents(e.events, e.revents, r);
    if e.revents.input || e.revents.output {
      HandledKeeps(s, i, r, m == UPDATER, exact);
    } else {
      ErrorKeeps(s, i, r, m == UPDATER, exact);
    }
    hide Handled, NewEvents, Considerate, Moved, Closes, ClosesExactly, Passes, Stored, EntryFits;
    MovedIndex(s, t, i);
    PassesStored(s, t, i, e.events, events);
    StoredFits(t, i, e.events, events, exact);
  }
}
