/** What registrations, callbacks, scans and the shutdown keep. */
module PollsetTheorems {
  import opened PollsetModel

  ghost predicate Inv(s: State, gaps: set<int>, exact: bool) {
    SyncExcept(s, gaps) && (exact ==> ExactExcept(s, gaps))
  }

  lemma IndexOfDistinct(managers: seq<nat>, i: nat)
    requires Distinct(managers) && i < |managers|
    ensures IndexOf(managers, managers[i]) == i
  {
    var j := IndexOf(managers, managers[i]);
    assert managers[j] == managers[i];
  }

  // -- registrations --------------------------------------------------------------------------------------------------

  /** The manager at `i` stays there with its reported events, and whatever its mask gains is polled for as well. */
  ghost predicate Grows(s: State, t: State, i: nat)
    requires WellFormed(s) && WellFormed(t) && |s.masks| == |t.masks| && i < |s.managers|
  {
    && i < |t.managers| && t.managers[i] == s.managers[i] && t.pollset[i].revents == s.pollset[i].revents
    && var m := s.managers[i];
       && s.masks[m].Within(t.masks[m])
       && t.pollset[i].events.read == (s.pollset[i].events.read || (t.masks[m].read && !s.masks[m].read))
       && t.pollset[i].events.write == (s.pollset[i].events.write || (t.masks[m].write && !s.masks[m].write))
  }

  ghost predicate Alive(s: State, gaps: set<int>)
    requires WellFormed(s)
  {
    forall i :: i in gaps && 0 <= i < |s.managers| ==> !s.masks[s.managers[i]].None()
  }

  /** Nothing but registrations has happened. */
  ghost predicate OnlyGrows(s: State, t: State)
    requires WellFormed(s) && WellFormed(t) && |s.masks| == |t.masks|
  {
    && s.managers <= t.managers
    && t.shuttingDown == s.shuttingDown && t.calls == s.calls && t.handled == s.handled && t.handles == s.handles
    && (forall i :: 0 <= i < |s.managers| ==> Grows(s, t, i))
    && (forall i :: |s.managers| <= i < |t.managers| ==> t.pollset[i].revents == QUIET)
    && (s.shuttingDown ==> t == s)
  }

  lemma AddedKeeps(s: State, m: nat, op: Op, gaps: set<int>, exact: bool)
    requires Inv(s, gaps, exact) && Alive(s, gaps) && m < |s.masks| && s.masks[m].None()
    requires forall i :: i in gaps ==> i < |s.managers|
    ensures Inv(Registered(s, m, op), gaps, exact) && OnlyGrows(s, Registered(s, m, op))
  {
    assert m !in s.managers;
  }

  lemma ExtendedKeeps(s: State, m: nat, op: Op, gaps: set<int>, exact: bool)
    requires Inv(s, gaps, exact) && m < |s.masks| && !s.masks[m].None()
    ensures Inv(Registered(s, m, op), gaps, exact) && OnlyGrows(s, Registered(s, m, op))
  {
    if m in s.managers {
      var i := IndexOf(s.managers, m);
      assert forall j :: 0 <= j < |s.managers| && j != i ==> s.managers[j] != m;
    }
  }

  lemma RegisteredKeeps(s: State, m: nat, op: Op, gaps: set<int>, exact: bool)
    requires Inv(s, gaps, exact) && Alive(s, gaps) && m < |s.masks|
    requires forall i :: i in gaps ==> i < |s.managers|
    ensures Inv(Registered(s, m, op), gaps, exact) && OnlyGrows(s, Registered(s, m, op))
  {
    if s.masks[m].None() {
      AddedKeeps(s, m, op, gaps, exact);
    } else {
      ExtendedKeeps(s, m, op, gaps, exact);
    }
  }

  lemma RegisteredMask(p: State, m: nat, op: Op, gaps: set<int>)
    requires ExactExcept(p, gaps) && !p.shuttingDown && m < |p.masks|
    ensures Registered(p, m, op).masks == p.masks[m := p.masks[m].With(op)]
    ensures !Registered(p, m, op).shuttingDown
  {}

  lemma ActKeeps(s: State, a: Action)
    requires Exact(s) && !s.shuttingDown && a.Register?
    ensures var t := Act(s, a);
            && Exact(t) && !t.shuttingDown && |t.masks| == |s.masks|
            && t.masks == if a.mgr < |s.masks| then s.masks[a.mgr := s.masks[a.mgr].With(a.op)] else s.masks
  {
    if a.mgr < |s.masks| {
      assert Inv(s, {}, true) && Alive(s, {});
      hide Registered, Alive;
      RegisteredKeeps(s, a.mgr, a.op, {}, true);
      RegisteredMask(s, a.mgr, a.op, {});
      hide SyncExcept, ExactExcept;
    }
  }

  /** Registrations one after another: the pollset stays exact, and the masks grow by what is asked for, no more. */
  lemma {:induction false} RegistrationsKeep(s: State, actions: seq<Action>)
    requires WellFormed(s) && Exact(s) && !s.shuttingDown && forall a :: a in actions ==> a.Register?
    decreases |actions|
    ensures var t := ActAll(s, actions);
            && Exact(t) && !t.shuttingDown
            && forall m, op :: 0 <= m < |s.masks| ==>
                 (t.masks[m].Has(op) <==> s.masks[m].Has(op) || Action.Register(m, op) in actions)
  {
    hide Exact, Act, WellFormed;
    if actions != [] {
      var a, rest := actions[0], actions[1..];
      assert actions == [a] + rest;
      ActKeeps(s, a);
      RegistrationsKeep(Act(s, a), rest);
    }
  }

  /** `poll` is asked to watch for `op` on the socket of `m`. */
  ghost predicate PolledFor(s: State, m: nat, op: Op)
    requires WellFormed(s)
  {
    exists i :: 0 <= i < |s.managers| && s.managers[i] == m && s.pollset[i].events.Has(op)
  }

  lemma ExactlyPolled(s: State, m: nat, op: Op)
    requires Exact(s) && m < |s.masks|
    ensures PolledFor(s, m, op) <==> s.masks[m].Has(op)
  {
    if s.masks[m].Has(op) {
      var i := IndexOf(s.managers, m);
      assert s.pollset[i].events == s.masks[m];
    }
  }

  // -- removal and shutdown -------------------------------------------------------------------------------------------

  lemma DeletedAt(s: State, i: nat)
    requires WellFormed(s) && i < |s.managers|
    ensures var t := Deleted(s, i);
            && |t.managers| == |s.managers| - 1
            && (forall j :: 0 <= j < i ==> t.managers[j] == s.managers[j] && t.pollset[j] == s.pollset[j])
            && (forall j :: i <= j < |t.managers| ==>
                t.managers[j] == s.managers[j + 1] && t.pollset[j] == s.pollset[j + 1])
            && (forall m :: m in s.managers && m != s.managers[i] ==> m in t.managers)
  {
    var t := Deleted(s, i);
    forall m | m in s.managers && m != s.managers[i] ensures m in t.managers {
      var k := IndexOf(s.managers, m);
      assert t.managers[if k < i then k else k - 1] == m;
    }
  }

  lemma {:induction false} StopReadingFlag(p: State, i: nat)
    requires WellFormed(p)
    ensures StopReading(p, i).shuttingDown == p.shuttingDown
    decreases |p.managers| - i
  {
    if i < |p.managers| {
      var t := Stopped(p, i);
      if t.masks[p.managers[i]].None() {
        StopReadingFlag(Deleted(t, i), i);
      } else {
        StopReadingFlag(t, i + 1);
      }
    }
  }

  /** Removing the last entry that may not fit, whose manager has an empty mask, leaves the others as they were. */
  lemma DeletedKeeps(s: State, i: nat, gaps: set<int>, exact: bool)
    requires i < |s.managers| && Inv(s, gaps + {i}, exact) && (exact ==> s.masks[s.managers[i]].None())
    requires forall g :: g in gaps ==> g < i
    ensures Inv(Deleted(s, i), gaps, exact)
  {
    DeletedAt(s, i);
    DeletedFits(s, i, gaps);
    hide Deleted, EntryFits;
    var t := Deleted(s, i);
    if exact {
      forall j | 0 <= j < |t.managers| && j !in gaps ensures t.pollset[j].events == t.masks[t.managers[j]] {
        var k := if j < i then j else j + 1;
        assert k !in gaps + {i};
        assert t.pollset[j] == s.pollset[k];
      }
      hide SyncExcept;
    }
  }

  lemma DeletedFits(s: State, i: nat, gaps: set<int>)
    requires i < |s.managers| && SyncExcept(s, gaps + {i})
    requires forall g :: g in gaps ==> g < i
    ensures SyncExcept(Deleted(s, i), gaps)
  {
    DeletedAt(s, i);
    hide Deleted, EntryFits;
    var t := Deleted(s, i);
    forall j | 0 <= j < |t.managers|
      ensures t.pollset[j].fd == t.handles[t.managers[j]]
      ensures j !in gaps ==> EntryFits(t.pollset[j], t.masks[t.managers[j]])
    {
      var k := if j < i then j else j + 1;
      assert j !in gaps ==> k !in gaps + {i};
      assert t.pollset[j] == s.pollset[k];
    }
  }

  lemma StoppedKeeps(s: State, i: nat, gaps: set<int>, exact: bool)
    requires Inv(s, gaps, exact) && i < |s.managers| && forall g :: g in gaps ==> g < i
    ensures var t := Stopped(s, i);
            Inv(if t.masks[s.managers[i]].None() then Deleted(t, i) else t, gaps, exact)
  {
    var m := s.managers[i];
    var t := Stopped(s, i);
    assert forall j :: 0 <= j < |s.managers| && j != i ==> s.managers[j] != m;
    if t.masks[m].None() {
      DeletedKeeps(t, i, gaps, exact);
    }
    hide Deleted;
  }

  // -- ready managers -------------------------------------------------------------------------------------------------

  /** The managers at index `i` or later for which `poll` has reported something, in order. */
  function ReadyFrom(s: State, i: nat): seq<nat>
    requires WellFormed(s)
    decreases |s.pollset| - i
  {
    if i >= |s.pollset| then []
    else (if s.pollset[i].revents.Any() then [s.managers[i]] else []) + ReadyFrom(s, i + 1)
  }

  /** The managers in `ms` that are also in `kept`. */
  function Among(ms: seq<nat>, kept: seq<nat>): seq<nat> {
    if ms == [] then [] else (if ms[0] in kept then [ms[0]] else []) + Among(ms[1..], kept)
  }

  lemma {:induction false} AmongAll(ms: seq<nat>, kept: seq<nat>)
    requires forall m :: m in ms ==> m in kept
    ensures Among(ms, kept) == ms
  {
    if ms != [] {
      AmongAll(ms[1..], kept);
    }
  }

  lemma {:induction false} AmongTwice(ms: seq<nat>, kept: seq<nat>, more: seq<nat>)
    requires forall m :: m in ms && m in more ==> m in kept
    ensures Among(Among(ms, kept), more) == Among(ms, more)
  {
    if ms != [] {
      var rest := Among(ms[1..], kept);
      assert ([ms[0]] + rest)[1..] == rest && [] + rest == rest;
      AmongTwice(ms[1..], kept, more);
    }
  }

  lemma {:induction false} ReadyAreManagers(s: State, i: nat)
    requires WellFormed(s)
    ensures forall m :: m in ReadyFrom(s, i) ==> m in s.managers
    decreases |s.pollset| - i
  {
    if i < |s.pollset| {
      ReadyAreManagers(s, i + 1);
    }
  }

  /** Only the order of the managers and what has been reported count; `t` may have new entries at its end. */
  lemma {:induction false} ReadySame(s: State, t: State, i: nat)
    requires WellFormed(s) && WellFormed(t) && s.managers <= t.managers
    requires forall k :: i <= k < |s.managers| ==> t.pollset[k].revents == s.pollset[k].revents
    requires forall k :: |s.managers| <= k < |t.managers| ==> t.pollset[k].revents == QUIET
    ensures ReadyFrom(t, i) == ReadyFrom(s, i)
    decreases |t.managers| - i
  {
    if i < |t.managers| {
      ReadySame(s, t, i + 1);
    }
  }

  /** An entry before index `i` has been removed. */
  lemma {:induction false} ReadyShift(s: State, t: State, i: nat)
    requires WellFormed(s) && WellFormed(t) && |t.managers| == |s.managers| - 1
    requires forall k :: i <= k < |t.managers| ==>
        t.managers[k] == s.managers[k + 1] && t.pollset[k] == s.pollset[k + 1]
    ensures ReadyFrom(t, i) == ReadyFrom(s, i + 1)
    decreases |t.managers| - i
  {
    if i < |t.managers| {
      ReadyShift(s, t, i + 1);
    }
  }

  // -- what callbacks may do to the rest of the pollset ---------------------------------------------------------------

  /** The managers up to index `i` are in place, and of those behind it only a shutdown (`halts`) has removed any. */
  ghost predicate Moved(s: State, t: State, i: nat, halts: bool)
    requires WellFormed(s) && i < |s.managers|
  {
    && WellFormed(t) && |t.masks| == |s.masks| && i < |t.managers| && t.pollset[i].revents == s.pollset[i].revents
    && (forall j :: 0 <= j <= i ==> t.managers[j] == s.managers[j])
    && (s.shuttingDown ==> t.shuttingDown && forall m :: m in t.managers ==> m in s.managers)
    && (forall m :: m in s.managers && m !in t.managers ==> t.shuttingDown && halts)
    && (UPDATER !in s.managers ==> UPDATER !in t.managers)
    && t.calls == s.calls && t.handled == s.handled
    && ReadyFrom(t, i + 1) == Among(ReadyFrom(s, i + 1), t.managers)
  }

  /** The entry and the mask of the manager at `i` have only grown, and not at all during a shutdown. */
  ghost predicate Settled(s: State, t: State, i: nat, halts: bool)
    requires WellFormed(s) && i < |s.managers|
  {
    && Moved(s, t, i, halts) && Grows(s, t, i)
    && (s.shuttingDown ==> t.masks[s.managers[i]] == s.masks[s.managers[i]] && t.pollset[i] == s.pollset[i])
  }

  lemma SettledOnce(s: State, i: nat, halts: bool)
    requires WellFormed(s) && i < |s.managers|
    ensures Settled(s, s, i, halts)
  {
    ReadyAreManagers(s, i + 1);
    AmongAll(ReadyFrom(s, i + 1), s.managers);
  }

  lemma MovedTwice(s: State, t: State, u: State, i: nat, halts: bool)
    requires WellFormed(s) && i < |s.managers| && Moved(s, t, i, halts) && Moved(t, u, i, halts)
    ensures Moved(s, u, i, halts)
  {
    ReadyAreManagers(s, i + 1);
    AmongTwice(ReadyFrom(s, i + 1), t.managers, u.managers);
    hide Among, ReadyFrom;
  }

  lemma ReadyKept(s: State, t: State, i: nat)
    requires WellFormed(s) && WellFormed(t) && |s.masks| == |t.masks| && OnlyGrows(s, t)
    ensures ReadyFrom(t, i) == Among(ReadyFrom(s, i), t.managers)
  {
    forall k | 0 <= k < |s.managers| ensures t.pollset[k].revents == s.pollset[k].revents {
      assert Grows(s, t, k);
    }
    ReadySame(s, t, i);
    ReadyAreManagers(s, i);
    AmongAll(ReadyFrom(s, i), t.managers);
  }

  lemma RegisteredSettles(s: State, m: nat, op: Op, i: nat, halts: bool, gaps: set<int>, exact: bool)
    requires Inv(s, gaps, exact) && Alive(s, gaps) && i < |s.managers| && (forall g :: g in gaps ==> g == i)
    requires m < |s.masks| && m != UPDATER
    ensures Inv(Registered(s, m, op), gaps, exact) && Settled(s, Registered(s, m, op), i, halts)
  {
    hide Registered, ExactExcept, EntryFits, Alive, ReadyFrom, Among;
    RegisteredKeeps(s, m, op, gaps, exact);
    RegisteredNames(s, m, op);
    var t := Registered(s, m, op);
    ReadyKept(s, t, i + 1);
    assert Grows(s, t, i);
    assert s.managers <= t.managers;
  }

  lemma RegisteredNames(s: State, m: nat, op: Op)
    requires WellFormed(s) && m < |s.masks|
    ensures forall k :: k in Registered(s, m, op).managers ==> k in s.managers || k == m
  {}

  lemma StoppedReady(s: State, i: nat)
    requires WellFormed(s) && i < |s.managers|
    ensures ReadyFrom(Stopped(s, i), i) == ReadyFrom(s, i)
    ensures ReadyFrom(Deleted(Stopped(s, i), i), i) == ReadyFrom(s, i + 1)
  {
    var t := Stopped(s, i);
    ReadySame(s, t, i);
    ReadySame(s, t, i + 1);
    hide Stopped;
    DeletedAt(t, i);
    hide Deleted;
    ReadyShift(t, Deleted(t, i), i);
  }

  /** `t` is `s` with some managers from index `i` on removed and none of the others reading. */
  ghost predicate Halted(s: State, t: State, i: nat)
    requires WellFormed(s) && i <= |s.managers|
  {
    && WellFormed(t) && |t.masks| == |s.masks| && i <= |t.managers|
    && (forall j :: 0 <= j < i ==> t.managers[j] == s.managers[j] && t.pollset[j] == s.pollset[j])
    && (forall j :: i <= j < |t.managers| ==> !t.masks[t.managers[j]].read && !t.pollset[j].events.read)
    && t.shuttingDown == s.shuttingDown && t.calls == s.calls && t.handled == s.handled
    && HaltedNames(s, t, i)
    && ReadyFrom(t, i) == Among(ReadyFrom(s, i), t.managers)
  }

  /** Exactly the managers from index `i` on that do not write are gone. */
  ghost predicate HaltedNames(s: State, t: State, i: nat)
    requires i <= |s.managers| && |t.masks| == |s.masks| && WellFormed(s)
  {
    && (forall m :: m in t.managers ==> m in s.managers)
    && (forall m :: 0 <= m < |s.masks| && m !in s.managers[i..] ==> t.masks[m] == s.masks[m])
    && (forall m :: m in s.managers[i..] ==> (s.masks[m].write <==> m in t.managers))
  }

  lemma AmongGone(m: nat, ms: seq<nat>, kept: seq<nat>, some: seq<nat>)
    requires some == [m] || some == []
    ensures Among(some + ms, kept) == (if m in kept then some else []) + Among(ms, kept)
  {
    assert some == [m] ==> (some + ms)[1..] == ms;
    assert [] + ms == ms;
  }

  lemma NamesDeleted(s: State, i: nat, u: State)
    requires WellFormed(s) && Distinct(s.managers) && i < |s.managers| && |u.masks| == |s.masks|
    requires Stopped(s, i).masks[s.managers[i]].None() && HaltedNames(Deleted(Stopped(s, i), i), u, i)
    ensures HaltedNames(s, u, i) && s.managers[i] !in u.managers
  {
    var t := Stopped(s, i);
    DeletedGone(t, i);
    hide HaltedNames;
    assert Deleted(t, i).managers[i..] == s.managers[i + 1..];
    NamesBehind(s, i, Deleted(t, i), u);
  }

  /** `d` is `s` without the manager at `i`, which does not write. */
  lemma NamesBehind(s: State, i: nat, d: State, u: State)
    requires WellFormed(s) && WellFormed(d) && i < |s.managers| && i <= |d.managers|
    requires |u.masks| == |s.masks| == |d.masks|
    requires !s.masks[s.managers[i]].write && HaltedNames(d, u, i)
    requires d.managers[i..] == s.managers[i + 1..] && s.managers[i] !in d.managers
    requires forall k :: k in d.managers ==> k in s.managers
    requires forall k :: 0 <= k < |s.masks| && k != s.managers[i] ==> d.masks[k] == s.masks[k]
    ensures HaltedNames(s, u, i) && s.managers[i] !in u.managers
  {
    var m := s.managers[i];
    assert s.managers[i..] == [m] + s.managers[i + 1..];
    assert forall k :: k in s.managers[i + 1..] ==> k in d.managers;
  }

  lemma DeletedGone(t: State, i: nat)
    requires WellFormed(t) && Distinct(t.managers) && i < |t.managers|
    ensures t.managers[i] !in Deleted(t, i).managers && forall k :: k in Deleted(t, i).managers ==> k in t.managers
  {}

  lemma NamesKept(s: State, i: nat, u: State)
    requires WellFormed(s) && Distinct(s.managers) && i < |s.managers| && |u.masks| == |s.masks|
    requires !Stopped(s, i).masks[s.managers[i]].None() && HaltedNames(Stopped(s, i), u, i + 1)
    requires s.managers[i] in u.managers
    ensures HaltedNames(s, u, i)
  {
    var m := s.managers[i];
    assert s.managers[i..] == [m] + s.managers[i + 1..];
    assert m !in s.managers[i + 1..];
  }

  lemma HaltedDeleted(s: State, i: nat, u: State)
    requires WellFormed(s) && Distinct(s.managers) && i < |s.managers|
    requires Stopped(s, i).masks[s.managers[i]].None() && Halted(Deleted(Stopped(s, i), i), u, i)
    ensures Halted(s, u, i)
  {
    hide ReadyFrom, Among, HaltedNames;
    var m := s.managers[i];
    NamesDeleted(s, i, u);
    DeletedAt(Stopped(s, i), i);
    hide Deleted;
    StoppedReady(s, i);
    ReadyAt(s, i);
    AmongGone(m, ReadyFrom(s, i + 1), u.managers, if s.pollset[i].revents.Any() then [m] else []);
    assert forall r: seq<nat> :: [] + r == r;
  }

  lemma ReadyAt(s: State, i: nat)
    requires WellFormed(s) && i < |s.managers|
    ensures ReadyFrom(s, i) == (if s.pollset[i].revents.Any() then [s.managers[i]] else []) + ReadyFrom(s, i + 1)
  {}

  lemma HaltedKept(s: State, i: nat, u: State)
    requires WellFormed(s) && Distinct(s.managers) && i < |s.managers|
    requires !Stopped(s, i).masks[s.managers[i]].None() && Halted(Stopped(s, i), u, i + 1)
    requires EntryFits(s.pollset[i], s.masks[s.managers[i]])
    ensures Halted(s, u, i)
  {
    hide ReadyFrom, Among, HaltedNames;
    var m, t := s.managers[i], Stopped(s, i);
    assert u.managers[i] == m && u.pollset[i] == t.pollset[i];
    NamesKept(s, i, u);
    StoppedReady(s, i);
    ReadyAt(t, i);
    ReadyAt(u, i);
    assert !u.masks[m].read by {
      hide *;
      NotBehind(s, i);
      MaskKept(t, u, i + 1, m);
    }
    AmongGone(m, ReadyFrom(t, i + 1), u.managers, if t.pollset[i].revents.Any() then [m] else []);
  }

  lemma NotBehind(s: State, i: nat)
    requires i < |s.managers| && Distinct(s.managers)
    ensures s.managers[i] !in s.managers[i + 1..]
  {}

  lemma MaskKept(s: State, u: State, i: nat, m: nat)
    requires i <= |s.managers| && WellFormed(s) && |u.masks| == |s.masks| && HaltedNames(s, u, i)
    requires m < |s.masks| && m !in s.managers[i..]
    ensures u.masks[m] == s.masks[m]
  {}

  lemma HaltedAtEnd(s: State)
    requires WellFormed(s)
    ensures Halted(s, s, |s.managers|)
  {
    assert s.managers[|s.managers|..] == [];
  }

  /** The shutdown loop: the managers from index `i` on stop reading, and those that do not write are removed. */
  lemma {:induction false} StopReadingKeeps(s: State, i: nat, gaps: set<int>, exact: bool)
    requires Inv(s, gaps, exact) && i <= |s.managers| && forall g :: g in gaps ==> g < i
    ensures Inv(StopReading(s, i), gaps, exact) && Halted(s, StopReading(s, i), i)
    decreases |s.managers| - i
  {
    hide Halted;
    if i == |s.managers| {
      HaltedAtEnd(s);
    } else {
      StoppedKeeps(s, i, gaps, exact);
      var t := Stopped(s, i);
      assert EntryFits(s.pollset[i], s.masks[s.managers[i]]);
      hide EntryFits, Stopped;
      if t.masks[s.managers[i]].None() {
        StopReadingKeeps(Deleted(t, i), i, gaps, exact);
        HaltedDeleted(s, i, StopReading(s, i));
      } else {
        StopReadingKeeps(t, i + 1, gaps, exact);
        HaltedKept(s, i, StopReading(s, i));
      }
    }
  }
}
