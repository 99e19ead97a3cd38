/** What a round of the scan means for the manager it visits, when the callbacks register no other manager. */
module PollsetOwn {
  import opened PollsetModel
  import opened PollsetTheorems

  /** The mask and the events of the manager at index `i`. */
  function InterestAt(s: State, i: nat): Interest
    requires WellFormed(s) && i < |s.managers|
  {
    Interest(s.masks[s.managers[i]], s.pollset[i].events)
  }

  function WithInterest(s: State, i: nat, t: Interest): (u: State)
    requires WellFormed(s) && i < |s.managers|
    ensures WellFormed(u) && u.managers == s.managers && InterestAt(u, i) == t
  {
    s.(masks := s.masks[s.managers[i] := t.mask], pollset := s.pollset[i := s.pollset[i].(events := t.polled)])
  }

  /** The mask of any manager and the events of its entry, which are none without an entry. */
  function InterestOf(s: State, m: nat): Interest
    requires WellFormed(s) && m < |s.masks|
  {
    var i := IndexOf(s.managers, m);
    Interest(s.masks[m], if i == -1 then NOTHING else s.pollset[i].events)
  }

  /** A registration does to a manager, listed or not, what `Register` says, and nothing to any other. */
  lemma RegisteredInterest(s: State, m: nat, op: Op, other: nat)
    requires WellFormed(s) && Distinct(s.managers) && !s.shuttingDown && m < |s.masks| && other < |s.masks|
    requires m in s.managers ==> !s.masks[m].None() && !InterestOf(s, m).polled.None()
    ensures InterestOf(Registered(s, m, op), other) ==
            if other == m then InterestOf(s, m).Register(op) else InterestOf(s, other)
  {
    if s.masks[m].None() {
      IndexOfAppended(s.managers, m, other);
    }
  }

  lemma {:induction false} IndexOfAppended(managers: seq<nat>, m: nat, other: nat)
    requires m !in managers
    ensures IndexOf(managers + [m], other) == if other == m then |managers| else IndexOf(managers, other)
  {
    if managers != [] {
      assert (managers + [m])[1..] == managers[1..] + [m];
      IndexOfAppended(managers[1..], m, other);
    }
  }

  predicate IsListed(s: State, i: nat) {
    && WellFormed(s) && Distinct(s.managers) && i < |s.managers| && !s.shuttingDown
    && !s.masks[s.managers[i]].None() && !s.pollset[i].events.None()
  }

  lemma OwnRegistered(s: State, i: nat, op: Op)
    requires IsListed(s, i)
    ensures Registered(s, s.managers[i], op) == WithInterest(s, i, InterestAt(s, i).Register(op))
    ensures IsListed(Registered(s, s.managers[i], op), i)
  {
    IndexOfDistinct(s.managers, i);
    if s.masks[s.managers[i]].Has(op) {
      assert WithInterest(s, i, InterestAt(s, i)) == s;
    }
  }

  lemma {:induction false} OwnRegistrations(s: State, i: nat, ops: seq<Op>)
    requires IsListed(s, i)
    ensures ActAll(s, Callback(ops, true).AsReaction(s.managers[i]).actions)
            == WithInterest(s, i, InterestAt(s, i).RegisterAll(ops))
    ensures IsListed(ActAll(s, Callback(ops, true).AsReaction(s.managers[i]).actions), i)
    decreases |ops|
  {
    var m := s.managers[i];
    var actions := Callback(ops, true).AsReaction(m).actions;
    if ops == [] {
      assert WithInterest(s, i, InterestAt(s, i)) == s;
    } else {
      OwnRegistered(s, i, ops[0]);
      var t := Registered(s, m, ops[0]);
      OwnRegistrations(t, i, ops[1..]);
      assert actions[1..] == Callback(ops[1..], true).AsReaction(m).actions;
      hide Registered;
    }
  }

  /** A visit of the manager at `i`: its entry and mask become what `Round` says, the entry is gone if nothing is polled
      for any more, and no other manager is affected. */
  lemma RoundIsVisited(s: State, i: nat, revents: Ready, code: Managers, onRead: Callback, onWrite: Callback)
    requires IsListed(s, i) && s.pollset[i].revents == revents && s.pollset[i].events.Within(s.masks[s.managers[i]])
    requires (revents.input ==> s.pollset[i].events.read) && (revents.output ==> s.pollset[i].events.write)
    requires var m := s.managers[i];
             code(s.calls, m) == Reactions(onRead.AsReaction(m), onWrite.AsReaction(m), [])
    ensures var t := InterestAt(s, i).Round(revents, onRead, onWrite);
            var u := WithInterest(Begun(s, s.managers[i]), i, t);
            Visited(s, code, i).0 == if t.polled.None() then Deleted(u, i) else u
  {
    var m := s.managers[i];
    var t0 := InterestAt(s, i);
    var s0 := Begun(s, m);
    assert WithInterest(s0, i, t0) == s0;
    var t1 := if revents.input then t0.Call(Read, onRead) else t0;
    if revents.input {
      OwnCalled(s0, i, Read, onRead);
    }
    var s1 := WithInterest(s0, i, t1);
    OnlyMore(t0, onRead.ops);
    if revents.output {
      OwnCalled(s1, i, Write, onWrite);
      OnlyMore(t1, onWrite.ops);
    }
    var t2 := if revents.output then t1.Call(Write, onWrite) else t1;
    hide Called;
    var r := code(s.calls, m);
    var t3 := if OnlyError(revents) then t2.(mask := NOTHING) else t2;
    assert Handled(s, m, revents, r) == WithInterest(s0, i, t3) by {
      Errors(WithInterest(s0, i, t2), i);
    }
    hide Handled;
    assert !t2.polled.None();
    Stores(s0, i, t3, t0.polled, NewEvents(t0.polled, revents, r));
  }

  predicate OnlyError(revents: Ready) {
    revents.error && !revents.input && !revents.output
  }

  lemma Errors(s: State, i: nat)
    requires WellFormed(s) && i < |s.managers|
    ensures ActAll(s, []) == s
    ensures s.(masks := s.masks[s.managers[i] := NOTHING]) == WithInterest(s, i, InterestAt(s, i).(mask := NOTHING))
  {}

  lemma Stores(s: State, i: nat, t: Interest, before: Ops, events: Ops)
    requires WellFormed(s) && i < |s.managers| && (events == before ==> !before.None())
    ensures Stored(WithInterest(s, i, t), i, before, events).0 ==
            var u := WithInterest(s, i, if events == before then t else t.(polled := events));
            if events.None() then Deleted(u, i) else u
  {
    if events.None() {
      assert Deleted(WithInterest(s, i, t), i) == Deleted(WithInterest(s, i, t.(polled := events)), i);
    }
  }

  lemma {:induction false} OnlyMore(t: Interest, ops: seq<Op>)
    requires !t.mask.None()
    ensures t.mask.Within(t.RegisterAll(ops).mask) && t.polled.Within(t.RegisterAll(ops).polled)
    decreases |ops|
  {
    if ops != [] {
      OnlyMore(t.Register(ops[0]), ops[1..]);
    }
  }

  lemma OwnCalled(s: State, i: nat, op: Op, r: Callback)
    requires IsListed(s, i)
    ensures Called(s, s.managers[i], op, r.AsReaction(s.managers[i]))
            == WithInterest(s, i, InterestAt(s, i).Call(op, r))
  {
    OwnRegistrations(s, i, r.ops);
    assert r.AsReaction(s.managers[i]).actions == Callback(r.ops, true).AsReaction(s.managers[i]).actions;
  }
}
