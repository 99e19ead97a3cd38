/** Whole scans and whole runs of the multiplexer. */
module PollsetRuns {
  import opened Bytes
  import opened PollsetModel
  import opened PollsetTheorems
  import opened PollsetScan

  // -- reported events are still polled for when they are reached -----------------------------------------------------

  predicate PolledFrom(s: State, i: nat) {
    WellFormed(s) && forall j :: i <= j < |s.pollset| ==> Polled(s.pollset[j], s.shuttingDown)
  }

  lemma {:induction false} PolledStopping(s: State, k: nat, i: nat)
    requires PolledFrom(s, i) && s.shuttingDown && i <= k
    ensures PolledFrom(StopReading(s, k), i)
    decreases |s.managers| - k
  {
    if k < |s.managers| {
      var t := Stopped(s, k);
      assert PolledFrom(t, i);
      if t.masks[s.managers[k]].None() {
        DeletedAt(t, k);
        assert PolledFrom(Deleted(t, k), i);
        PolledStopping(Deleted(t, k), k, i);
      } else {
        PolledStopping(t, k + 1, i);
      }
    }
  }

  lemma {:induction false} PolledActing(s: State, actions: seq<Action>, i: nat, halts: bool)
    requires PolledFrom(s, i) && OrderlyActions(actions, halts) && (halts ==> i == 1)
    ensures PolledFrom(ActAll(s, actions), i)
    decreases |actions|
  {
    if actions != [] {
      if actions[0].Shutdown? {
        PolledStopping(s.(shuttingDown := true), 1, i);
      }
      assert PolledFrom(Act(s, actions[0]), i) by { hide StopReading; }
      hide Act;
      PolledActing(Act(s, actions[0]), actions[1..], i, halts);
    }
  }

  lemma PolledCalling(s: State, m: nat, op: Op, r: Reaction, i: nat, halts: bool)
    requires PolledFrom(s, i) && m < |s.masks| && OrderlyActions(r.actions, halts) && (halts ==> i == 1)
    ensures PolledFrom(Called(s, m, op, r), i)
  {
    PolledActing(s, r.actions, i, halts);
    hide ActAll;
  }

  lemma PolledHandling(s: State, m: nat, revents: Ready, r: Reactions, i: nat, halts: bool)
    requires PolledFrom(s, i) && m < |s.masks| && OrderlyReactions(r, halts) && (halts ==> i == 1)
    ensures PolledFrom(Handled(s, m, revents, r), i)
  {
    hide ActAll, Called;
    var s0 := Begun(s, m);
    assert PolledFrom(s0, i);
    PolledCalling(s0, m, Read, r.onRead, i, halts);
    var s1 := if revents.input then Called(s0, m, Read, r.onRead) else s0;
    PolledCalling(s1, m, Write, r.onWrite, i, halts);
    var s2 := if revents.output then Called(s1, m, Write, r.onWrite) else s1;
    PolledActing(s2, r.onError, i, halts);
    hide Polled;
  }

  lemma PolledStoring(t: State, i: nat, before: Ops, events: Ops)
    requires PolledFrom(t, i + 1) && i < |t.pollset|
    ensures var (v, next) := Stored(t, i, before, events); PolledFrom(v, next)
  {
    DeletedAt(t, i);
    hide Deleted, Polled;
  }

  lemma PolledVisiting(s: State, code: Managers, i: nat)
    requires i < |s.pollset| && PolledFrom(s, i + 1) && Orderly(code) && (s.managers[i] == UPDATER ==> i == 0)
    ensures var (v, next) := Visited(s, code, i); PolledFrom(v, next)
  {
    var m, e := s.managers[i], s.pollset[i];
    var r := code(s.calls, m);
    assert OrderlyReactions(r, m == UPDATER);
    PolledHandling(s, m, e.revents, r, i + 1, m == UPDATER);
    hide Handled, NewEvents, Stored, Polled;
    var t := Handled(s, m, e.revents, r);
    if i < |t.pollset| {
      PolledStoring(t, i, e.events, NewEvents(e.events, e.revents, r));
    }
  }

  // -- considerate managers -------------------------------------------------------------------------------------------

  /** A manager one of whose callbacks returns false does not register itself in that call. */
  predicate SelfRestrained(m: nat, r: Reactions) {
    || (r.onRead.keep && r.onWrite.keep)
    || (SparesSelf(m, r.onRead.actions) && SparesSelf(m, r.onWrite.actions))
  }

  predicate SparesSelf(m: nat, actions: seq<Action>) {
    forall k :: 0 <= k < |actions| && actions[k].Register? ==> actions[k].mgr != m
  }

  ghost predicate Restrained(code: Managers) {
    forall n: nat, m: nat :: SelfRestrained(m, code(n, m))
  }

  lemma {:induction false} SparedMask(s: State, i: nat, actions: seq<Action>, halts: bool, gaps: set<int>)
    requires Inv(s, gaps, false) && Alive(s, gaps) && i < |s.managers| && gaps <= {i as int}
    requires OrderlyActions(actions, halts) && (halts ==> i == 0) && SparesSelf(s.managers[i], actions)
    ensures ActAll(s, actions).masks[s.managers[i]] == s.masks[s.managers[i]]
    decreases |actions|
  {
    if actions != [] {
      assert [actions[0]][0] == actions[0];
      ActSettles(s, actions[0], i, halts, gaps, false);
      var t := Act(s, actions[0]);
      if actions[0].Shutdown? {
        ShutDownSettles(s, gaps, false);
        hide StopReading;
      }
      assert t.masks[s.managers[i]] == s.masks[s.managers[i]];
      hide Act, EntryFits, ReadyFrom, Among;
      SparedMask(t, i, actions[1..], halts, gaps);
    }
  }

  lemma RestrainedIsConsiderate(s: State, i: nat, r: Reactions, halts: bool)
    requires Inv(s, {}, false) && i < |s.managers| && OrderlyReactions(r, halts) && (halts ==> i == 0)
    requires SelfRestrained(s.managers[i], r) && Polled(s.pollset[i], s.shuttingDown)
    ensures Considerate(s, s.managers[i], s.pollset[i].revents, r)
  {
    var m, e := s.managers[i], s.pollset[i];
    if SparesSelf(m, r.onRead.actions) && SparesSelf(m, r.onWrite.actions) {
      BegunKeeps(s, i, false);
      hide Inv, ActAll, ReadyFrom, Among, Called;
      var s0 := Begun(s, m);
      var s1 := if e.revents.input then Called(s0, m, Read, r.onRead) else s0;
      SparedMask(s0, i, r.onRead.actions, halts, {i as int});
      var mA := StageKeeps(s0, i, e.revents.input, Read, r.onRead, halts, false);
      if e.revents.output {
        SparedMask(s1, i, r.onWrite.actions, halts, {i as int});
      }
    }
  }

  // -- whole scans ----------------------------------------------------------------------------------------------------

  /** What holds before each round of a scan. */
  ghost predicate Scanning(s: State, code: Managers, i: nat, presult: nat, exact: bool) {
    && Inv(s, {}, exact) && UpdaterFirst(s) && PolledFrom(s, i) && |ReadyFrom(s, i)| <= presult
    && Orderly(code) && (exact ==> Restrained(code))
  }

  lemma {:induction false} AmongShrinks(ms: seq<nat>, kept: seq<nat>)
    ensures |Among(ms, kept)| <= |ms|
  {
    if ms != [] {
      AmongShrinks(ms[1..], kept);
    }
  }

  lemma RoundKeeps(s: State, code: Managers, i: nat, presult: nat, exact: bool)
    requires Scanning(s, code, i, presult, exact) && i < |s.pollset| && s.pollset[i].revents.Any()
    ensures var (v, next) := Visited(s, code, i);
            presult > 0 && Scanning(v, code, next, presult - 1, exact) && Passes(s, v, i, next)
  {
    var m, r := s.managers[i], code(s.calls, s.managers[i]);
    if m == UPDATER {
      UpdaterAtFront(s, i);
    }
    VisitKeeps(s, code, i, exact);
    PolledVisiting(s, code, i);
    assert exact ==> SelfRestrained(m, r);
    if exact {
      assert OrderlyReactions(r, m == UPDATER);
      RestrainedIsConsiderate(s, i, r, m == UPDATER);
    }
    var (v, next) := Visited(s, code, i);
    AmongShrinks(ReadyFrom(s, i + 1), v.managers);
    ReadyAt(s, i);
    hide Visited, Considerate, SyncExcept, ExactExcept, Polled, ReadyFrom, Among, Orderly, Restrained, UpdaterFirst;
  }

  /** The rest of a scan handles every ready manager exactly once, in order, whatever the callbacks register. */
  lemma {:induction false} ScanHandlesAll(s: State, code: Managers, i: nat, presult: nat, exact: bool)
    requires Scanning(s, code, i, presult, exact) && (i > 0 || UPDATER !in s.managers)
    ensures var t := Scan(s, code, i, presult);
            && Inv(t, {}, exact) && UpdaterFirst(t)
            && t.handled == s.handled + ReadyFrom(s, i)
    decreases presult, |s.pollset| - i
  {
    hide Scan, Visited, Scanning, ReadyFrom, UpdaterFirst, Inv, Distinct;
    ScanningForm(s, code, i, presult, exact);
    ScanAt(s, code, i, presult);
    if i >= |s.pollset| || presult == 0 {
      NothingReady(s, code, i, presult, exact);
      assert s.handled + [] == s.handled;
    } else if s.pollset[i].revents.Any() {
      NoUpdater(s, i);
      var r := RoundLeads(s, code, i, presult, exact);
      ScanHandlesAll(r.0, code, r.1, presult - 1, exact);
    } else {
      SkipKeeps(s, code, i, presult, exact);
      ScanHandlesAll(s, code, i + 1, presult, exact);
    }
  }

  lemma ScanAt(s: State, code: Managers, i: nat, presult: nat)
    requires WellFormed(s)
    ensures Scan(s, code, i, presult) ==
            if i >= |s.pollset| || presult == 0 then s
            else if s.pollset[i].revents.Any() then
              var r := Visited(s, code, i);
              Scan(r.0, code, r.1, presult - 1)
            else Scan(s, code, i + 1, presult)
  {
    hide Visited;
  }

  lemma NothingReady(s: State, code: Managers, i: nat, presult: nat, exact: bool)
    requires Scanning(s, code, i, presult, exact) && (i >= |s.pollset| || presult == 0)
    ensures ReadyFrom(s, i) == [] && Inv(s, {}, exact) && UpdaterFirst(s)
  {}

  /** The managers still to be handled, together with those already handled, stay the same. */
  lemma RoundLeads(s: State, code: Managers, i: nat, presult: nat, exact: bool) returns (r: (State, nat))
    requires Scanning(s, code, i, presult, exact) && i < |s.pollset| && s.pollset[i].revents.Any()
    requires s.managers[i] != UPDATER && (i > 0 || UPDATER !in s.managers)
    ensures r == Visited(s, code, i) && presult > 0 && Scanning(r.0, code, r.1, presult - 1, exact)
    ensures r.1 > 0 || UPDATER !in r.0.managers
    ensures r.0.handled + ReadyFrom(r.0, r.1) == s.handled + ReadyFrom(s, i)
  {
    ScanningForm(s, code, i, presult, exact);
    hide Visited, Scanning, ReadyFrom, Among, UpdaterFirst, Passes;
    RoundKeeps(s, code, i, presult, exact);
    r := Visited(s, code, i);
    PassesOn(s, r.0, i, r.1);
  }

  lemma PassesOn(s: State, v: State, i: nat, next: nat)
    requires WellFormed(s) && i < |s.pollset| && s.pollset[i].revents.Any() && Passes(s, v, i, next)
    requires s.managers[i] != UPDATER && (i > 0 || UPDATER !in s.managers)
    ensures WellFormed(v) && (next > 0 || UPDATER !in v.managers)
    ensures v.handled + ReadyFrom(v, next) == s.handled + ReadyFrom(s, i)
  {
    ReadyAt(s, i);
    hide ReadyFrom, Among, UpdaterFirst;
    Associative(s.handled, [s.managers[i]], ReadyFrom(s, i + 1));
  }

  lemma ScanningForm(s: State, code: Managers, i: nat, presult: nat, exact: bool)
    requires Scanning(s, code, i, presult, exact)
    ensures WellFormed(s) && Distinct(s.managers) && UpdaterFirst(s)
  {}

  lemma NoUpdater(s: State, i: nat)
    requires WellFormed(s) && Distinct(s.managers) && UpdaterFirst(s) && i < |s.managers|
    requires i > 0 || UPDATER !in s.managers
    ensures s.managers[i] != UPDATER
  {}

  lemma SkipKeeps(s: State, code: Managers, i: nat, presult: nat, exact: bool)
    requires Scanning(s, code, i, presult, exact) && i < |s.pollset| && !s.pollset[i].revents.Any()
    ensures Scanning(s, code, i + 1, presult, exact) && ReadyFrom(s, i) == ReadyFrom(s, i + 1)
  {
    ReadyAt(s, i);
  }

  // -- poll -----------------------------------------------------------------------------------------------------------

  /** `poll` reports input and output only where they are polled for; it may report errors anywhere. */
  predicate PollReports(s: State, revents: seq<Ready>) {
    && |revents| == |s.pollset|
    && forall k :: 0 <= k < |revents| ==>
         (revents[k].input ==> s.pollset[k].events.read) && (revents[k].output ==> s.pollset[k].events.write)
  }

  function Reported(s: State, revents: seq<Ready>): (t: State)
    requires WellFormed(s) && |revents| == |s.pollset|
    ensures WellFormed(t)
  {
    s.(pollset := seq(|revents|, k requires 0 <= k < |revents| => s.pollset[k].(revents := revents[k])))
  }

  /** The number of entries with reported events, which `poll` returns. */
  function CountReady(revents: seq<Ready>): nat {
    if revents == [] then 0 else (if revents[0].Any() then 1 else 0) + CountReady(revents[1..])
  }

  lemma {:induction false} CountsReady(s: State, revents: seq<Ready>, i: nat)
    requires WellFormed(s) && |revents| == |s.pollset| && i <= |revents|
    ensures |ReadyFrom(Reported(s, revents), i)| == CountReady(revents[i..])
    decreases |revents| - i
  {
    if i < |revents| {
      assert revents[i..][1..] == revents[i + 1..];
      CountsReady(s, revents, i + 1);
    }
  }

  /** `poll_once` when `poll` reports `revents`. */
  function PollOnce(s: State, code: Managers, revents: seq<Ready>): (t: State)
    requires WellFormed(s) && PollReports(s, revents)
    ensures WellFormed(t)
  {
    Scan(Reported(s, revents), code, 0, CountReady(revents))
  }

  lemma ReportedKeeps(s: State, code: Managers, revents: seq<Ready>, exact: bool)
    requires Inv(s, {}, exact) && UpdaterFirst(s) && Orderly(code) && (exact ==> Restrained(code))
    requires PollReports(s, revents)
    ensures Scanning(Reported(s, revents), code, 0, CountReady(revents), exact)
  {
    CountsReady(s, revents, 0);
    assert revents[0..] == revents;
    hide ReadyFrom, CountReady;
  }

  /** One call of `poll_once`: with `first` the state after the round for index 0, it handles the first manager, if
      ready, and then every ready manager that is still registered, each exactly once and in order; nobody is skipped
      unless the updater has shut down in that first round. */
  lemma PollHandlesAll(s: State, code: Managers, revents: seq<Ready>, exact: bool)
    requires Inv(s, {}, exact) && UpdaterFirst(s) && Orderly(code) && (exact ==> Restrained(code))
    requires PollReports(s, revents)
    ensures var r, t := Reported(s, revents), PollOnce(s, code, revents);
            && Inv(t, {}, exact) && UpdaterFirst(t)
            && t.handled == s.handled + Expected(r, code)
            && (s.managers != [] && s.managers[0] != UPDATER ==> t.handled == s.handled + ReadyFrom(r, 0))
  {
    ReportedKeeps(s, code, revents, exact);
    var r, n := Reported(s, revents), CountReady(revents);
    hide CountReady, PollReports;
    ScanningForm(r, code, 0, n, exact);
    if r.pollset == [] {
      NothingReady(r, code, 0, n, exact);
    } else if r.managers[0] != UPDATER {
      ScanHandlesAll(r, code, 0, n, exact);
      FirstIsOrdinary(r, code, n, exact);
    } else if r.pollset[0].revents.Any() {
      FirstIsUpdater(r, code, n, exact);
    } else {
      SkipKeeps(r, code, 0, n, exact);
      ScanHandlesAll(r, code, 1, n, exact);
    }
    hide Scan, Visited, Scanning, Inv, ReadyFrom, Among;
    assert s.handled + [] == s.handled;
  }

  lemma FirstIsOrdinary(r: State, code: Managers, n: nat, exact: bool)
    requires Scanning(r, code, 0, n, exact) && r.pollset != [] && r.managers[0] != UPDATER
    ensures Expected(r, code) == ReadyFrom(r, 0)
  {
    ReadyAt(r, 0);
    if r.pollset[0].revents.Any() {
      RoundKeeps(r, code, 0, n, exact);
      hide Visited, Scanning, ReadyFrom, Among;
    }
  }

  /** The updater is the first manager, and after its round the updater is not reached again. */
  lemma FirstIsUpdater(r: State, code: Managers, n: nat, exact: bool)
    requires Scanning(r, code, 0, n, exact) && r.pollset != [] && r.managers[0] == UPDATER && r.pollset[0].revents.Any()
    ensures var t := Scan(r, code, 0, n);
            Inv(t, {}, exact) && UpdaterFirst(t) && t.handled == r.handled + Expected(r, code)
  {
    hide Visited, Scan, Expected, Scanning, ReadyFrom, Among, Inv, UpdaterFirst;
    ScanningForm(r, code, 0, n, exact);
    FirstRound(r, code, n, exact);
    var v := Visited(r, code, 0);
    ScanHandlesAll(v.0, code, v.1, n - 1, exact);
    Associative(r.handled, [UPDATER], ReadyFrom(v.0, v.1));
    ScanUnfolds(r, code, n);
  }

  lemma FirstRound(r: State, code: Managers, n: nat, exact: bool)
    requires Scanning(r, code, 0, n, exact) && r.pollset != [] && r.managers[0] == UPDATER && r.pollset[0].revents.Any()
    ensures var v := Visited(r, code, 0);
            && n > 0 && Scanning(v.0, code, v.1, n - 1, exact) && (v.1 > 0 || UPDATER !in v.0.managers)
            && v.0.handled == r.handled + [UPDATER]
            && ReadyFrom(v.0, v.1) == Among(ReadyFrom(r, 1), v.0.managers)
  {
    ScanningForm(r, code, 0, n, exact);
    hide Visited, Scanning, ReadyFrom, Among, Inv, UpdaterFirst;
    RoundKeeps(r, code, 0, n, exact);
  }

  lemma ScanUnfolds(r: State, code: Managers, n: nat)
    requires WellFormed(r) && r.pollset != [] && r.pollset[0].revents.Any() && n > 0
    ensures var v := Visited(r, code, 0);
            && Scan(r, code, 0, n) == Scan(v.0, code, v.1, n - 1)
            && Expected(r, code) == [r.managers[0]] + Among(ReadyFrom(r, 1), v.0.managers)
  {
    hide Visited;
  }

  /** The managers a scan should handle: the first if it is ready, then the ready ones that are registered after it. */
  function Expected(r: State, code: Managers): seq<nat>
    requires WellFormed(r)
  {
    if r.pollset == [] then []
    else if r.pollset[0].revents.Any() then
      [r.managers[0]] + Among(ReadyFrom(r, 1), Visited(r, code, 0).0.managers)
    else ReadyFrom(r, 1)
  }

  // -- whole runs -----------------------------------------------------------------------------------------------------

  datatype Event = Poll(revents: seq<Ready>) | Join(mgr: nat, op: Op) | Stop

  /** Anything the thread of the multiplexer does: polling, and registrations or a shutdown between two polls. */
  function Happens(s: State, code: Managers, e: Event): (t: State)
    requires WellFormed(s)
    ensures WellFormed(t)
  {
    match e
    case Poll(revents) =>
      if PollReports(s, revents) then PollOnce(s, code, revents) else s
    case Join(m, op) => if m != UPDATER && m < |s.masks| then Registered(s, m, op) else s
    case Stop => ShutDown(s)
  }

  function Run(s: State, code: Managers, events: seq<Event>): State
    requires WellFormed(s)
    decreases |events|
  {
    if events == [] then s else Run(Happens(s, code, events[0]), code, events[1..])
  }

  /** After `init`: the updater alone, polled for input; the other managers exist but are not registered. */
  predicate Initial(s: State) {
    && |s.masks| > 0 && |s.handles| == |s.masks|
    && s.masks[UPDATER] == Ops(true, false) && (forall m :: 0 < m < |s.masks| ==> s.masks[m].None())
    && s.managers == [UPDATER] && s.pollset == [Entry(s.handles[UPDATER], Ops(true, false), QUIET)]
    && !s.shuttingDown && s.handled == []
  }

  lemma HappensKeeps(s: State, code: Managers, e: Event, exact: bool)
    requires Inv(s, {}, exact) && UpdaterFirst(s) && Orderly(code) && (exact ==> Restrained(code))
    ensures Inv(Happens(s, code, e), {}, exact) && UpdaterFirst(Happens(s, code, e))
  {
    hide Scan, Expected, ReadyFrom, StopReading, EntryFits;
    match e
    case Poll(revents) =>
      if PollReports(s, revents) {
        PollHandlesAll(s, code, revents, exact);
      }
    case Join(m, op) =>
      if m != UPDATER && m < |s.masks| {
        RegisteredKeeps(s, m, op, {}, exact);
        assert UPDATER in Registered(s, m, op).managers ==> UPDATER in s.managers;
      }
    case Stop =>
      if s.managers == [] {
        StopReadingKeeps(s.(shuttingDown := true), 0, {}, exact);
        assert ShutDown(s) == s.(shuttingDown := true) by { StopNothing(s.(shuttingDown := true)); }
      } else {
        ShutDownSettles(s, {}, exact);
      }
  }

  lemma StopNothing(s: State)
    requires WellFormed(s) && s.managers == []
    ensures StopReading(s, 1) == s
  {}

  /** In every run: both vectors have the same length and describe the same socket at each index, no manager occurs
      twice, and every entry polls for a non-empty part of its manager's mask. If no manager registers itself in a
      call in which one of its callbacks returns false, the entries poll for exactly the masks and only empty masks
      are unregistered. */
  lemma {:induction false} RunKeeps(s: State, code: Managers, events: seq<Event>, exact: bool)
    requires Inv(s, {}, exact) && UpdaterFirst(s) && Orderly(code) && (exact ==> Restrained(code))
    ensures Inv(Run(s, code, events), {}, exact) && UpdaterFirst(Run(s, code, events))
    decreases |events|
  {
    if events != [] {
      HappensKeeps(s, code, events[0], exact);
      hide Happens, UpdaterFirst, Orderly, Restrained, SyncExcept, ExactExcept;
      InvForm(Happens(s, code, events[0]), exact);
      RunKeeps(Happens(s, code, events[0]), code, events[1..], exact);
    }
  }

  lemma InvForm(s: State, exact: bool)
    requires Inv(s, {}, exact)
    ensures WellFormed(s)
  {}

  lemma InitialIsExact(s: State)
    requires Initial(s)
    ensures Inv(s, {}, true) && UpdaterFirst(s)
  {}

  /** From the start: in every run the pollset is in sync with the managers, whatever their callbacks do, and it is
      exact if the managers are restrained. */
  lemma EveryRun(s: State, code: Managers, events: seq<Event>)
    requires Initial(s) && Orderly(code)
    ensures Sync(Run(s, code, events)) && (Restrained(code) ==> Exact(Run(s, code, events)))
  {
    InitialIsExact(s);
    RunKeeps(s, code, events, false);
    if Restrained(code) {
      RunKeeps(s, code, events, true);
    }
  }

  /** The shutdown: whoever remains behind the updater still has something to write, and nobody reads. */
  lemma ShutDownStopsReading(s: State)
    requires Exact(s) && s.managers != []
    ensures var t := ShutDown(s);
            && Exact(t) && t.managers != [] && t.managers[0] == s.managers[0]
            && (forall j :: 1 <= j < |t.managers| ==> t.masks[t.managers[j]] == Ops(false, true) == t.pollset[j].events)
            && (forall m :: m in s.managers[1..] ==> (s.masks[m].write <==> m in t.managers))
  {
    hide StopReading, ReadyFrom, Among, EntryFits;
    var s', t := s.(shuttingDown := true), ShutDown(s);
    assert Inv(s', {}, true);
    StopReadingKeeps(s', 1, {}, true);
    hide HaltedNames;
    forall j | 1 <= j < |t.managers| ensures t.masks[t.managers[j]] == Ops(false, true) == t.pollset[j].events {
      WritesOnly(t, j);
    }
    NamesLeft(s', t);
    hide *;
  }

  lemma WritesOnly(t: State, j: nat)
    requires Exact(t) && j < |t.managers| && !t.masks[t.managers[j]].read
    ensures t.masks[t.managers[j]] == Ops(false, true) == t.pollset[j].events
  {}

  lemma NamesLeft(s: State, t: State)
    requires WellFormed(s) && s.managers != [] && |t.masks| == |s.masks| && HaltedNames(s, t, 1)
    ensures forall m :: m in s.managers[1..] ==> (s.masks[m].write <==> m in t.managers)
  {}

  // -- what goes wrong otherwise --------------------------------------------------------------------------------------

  /** A read callback that registers for writing and returns false: the manager is removed with a mask that says it is
      registered for writing, and all its later registrations are ignored. */
  lemma WriteLost(s: State, code: Managers)
    requires Exact(s) && |s.managers| == 2 && s.managers[1] == 1 && s.masks[1] == Ops(true, false) && !s.shuttingDown
    requires s.pollset[1].revents == Ready(true, false, false)
    requires code(s.calls, 1).onRead == Reaction([Register(1, Write)], false)
    ensures var t := Visited(s, code, 1).0;
            1 !in t.managers && t.masks[1] == Ops(false, true) && Registered(t, 1, Write) == t
                && Registered(t, 1, Read) == t
  {
    IndexOfDistinct(s.managers, 1);
    var s0 := Begun(s, 1);
    var a := Register(1, Write);
    var s1 := Registered(s0, 1, Write);
    assert [a][1..] == [] && ActAll(s1, []) == s1;
    assert ActAll(s0, [a]) == s1;
    DeletedGone(s1, 1);
  }

  /** A read callback that returns false, and a write callback that registers for reading in the same call and returns
      true: the mask says reading, but the entry does not poll for it, and registering for reading has no effect. */
  lemma ReadLost(s: State, code: Managers)
    requires Exact(s) && |s.managers| == 2 && s.managers[1] == 1 && s.masks[1] == Ops(true, true) && !s.shuttingDown
    requires s.pollset[1].revents == Ready(true, true, false)
    requires code(s.calls, 1).onRead == Reaction([], false)
    requires code(s.calls, 1).onWrite == Reaction([Register(1, Read)], true)
    ensures var t := Visited(s, code, 1).0;
            && t.managers[1] == 1 && t.masks[1] == Ops(true, true) && t.pollset[1].events == Ops(false, true)
            && Registered(t, 1, Read) == t
  {
    IndexOfDistinct(s.managers, 1);
    var s0 := Begun(s, 1);
    var s1 := s0.(masks := s0.masks[1 := Ops(false, true)]);
    var a := Register(1, Read);
    var s2 := Registered(s1, 1, Read);
    assert ActAll(s0, []) == s0;
    assert [a][1..] == [] && ActAll(s2, []) == s2;
    assert ActAll(s1, [a]) == s2;
  }
}
