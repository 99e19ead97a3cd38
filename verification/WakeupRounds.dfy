/** A visit of the wake-up system, step by step and interleaved with other threads, is one round of the scan. */
module WakeupRounds {
  import opened PollsetModel
  import opened Wakeup

  /** Where the call of `handle` stands that began with the pollset `p`, given what its callbacks have done so far. */
  ghost predicate Stage(p: State, i: nat, input: bool, output: bool, r: Reactions, s: System) {
    && WellFormed(p) && i < |p.managers| && Shape(s) && s.place.Visiting?
    && s.place.mgr == p.managers[i] && s.place.index == i && s.place.before == p.pollset[i].events
    && p.pollset[i].revents == Ready(input, output, false)
    && match s.place.phase
       case Reading(next) =>
         && input && next == output && s.place.events == s.place.before && r.onRead.keep
         && r.onWrite == Reaction([], true) && s.pollset == ActAll(Begun(p, p.managers[i]), r.onRead.actions)
       case Storing => s.place.events == NewEvents(p.pollset[i].events, p.pollset[i].revents, r)
                       && s.pollset == Handled(p, p.managers[i], p.pollset[i].revents, r)
       case _ => output && r.onWrite.keep && s.place.events == EventsAfterRead(p, i, input, r)
                 && s.pollset == ActAll(AfterRead(p, i, input, r), r.onWrite.actions)
  }

  function AfterRead(p: State, i: nat, input: bool, r: Reactions): (t: State)
    requires WellFormed(p) && i < |p.managers|
    ensures WellFormed(t) && |t.masks| == |p.masks|
  {
    var q := Begun(p, p.managers[i]);
    if input then Called(q, p.managers[i], Read, r.onRead) else q
  }

  function EventsAfterRead(p: State, i: nat, input: bool, r: Reactions): Ops
    requires i < |p.pollset|
  {
    if input && !r.onRead.keep then p.pollset[i].events.Without(Read) else p.pollset[i].events
  }

  lemma {:induction false} ActMore(s: State, actions: seq<Action>, a: Action)
    requires WellFormed(s)
    ensures ActAll(s, actions + [a]) == Act(ActAll(s, actions), a)
    decreases |actions|
  {
    hide Act;
    if actions == [] {
      assert [] + [a] == [a] && [a][1..] == [];
    } else {
      assert (actions + [a])[1..] == actions[1..] + [a];
      ActMore(Act(s, actions[0]), actions[1..], a);
    }
  }

  /** Steps that leave the pollset and the call alone: those of other threads, and those on mailboxes and output. */
  lemma StageSame(p: State, i: nat, input: bool, output: bool, r: Reactions, s: System, t: System)
    requires Stage(p, i, input, output, r, s) && Shape(t) && t.pollset == s.pollset && t.place == s.place
    ensures Stage(p, i, input, output, r, t)
  {}

  /** A registration by the running callback. */
  lemma StageRegisters(p: State, i: nat, input: bool, output: bool, r: Reactions, s: System, k: nat, op: Op)
    returns (r': Reactions)
    requires Stage(p, i, input, output, r, s) && k < |s.mgrs| && (InRead(s) || At(s, Preparing))
    ensures Stage(p, i, input, output, r', RegisterHere(s, k, op))
  {
    var a := Action.Register(k, op);
    hide Registered, ActAll;
    if InRead(s) {
      r' := r.(onRead := Reaction(r.onRead.actions + [a], true));
      ActMore(Begun(p, p.managers[i]), r.onRead.actions, a);
    } else {
      r' := r.(onWrite := Reaction(r.onWrite.actions + [a], true));
      ActMore(AfterRead(p, i, input, r), r.onWrite.actions, a);
    }
  }

  /** The read callback returns. */
  lemma StageReadEnds(p: State, i: nat, input: bool, output: bool, r: Reactions, s: System, keep: bool)
    returns (r': Reactions)
    requires Stage(p, i, input, output, r, s) && Enabled(s, EndRead(keep))
    ensures Stage(p, i, input, output, r', Next(s, EndRead(keep)))
  {
    r' := r.(onRead := Reaction(r.onRead.actions, keep));
    var q := ActAll(Begun(p, p.managers[i]), r.onRead.actions);
    NoActions(AfterRead(p, i, input, r'));
    hide ActAll;
  }

  lemma NoActions(s: State)
    requires WellFormed(s)
    ensures ActAll(s, []) == s
  {}

  /** The steps of `handle_write_event` after `prepare_send`. */
  lemma StageWrites(p: State, i: nat, input: bool, output: bool, r: Reactions, s: System, step: Step)
    requires Stage(p, i, input, output, r, s) && Enabled(s, step)
    requires step.EndPrepare? || step.Flush? || step.Decide?
    ensures Stage(p, i, input, output, r, Next(s, step))
  {
    hide ActAll;
  }

  /** The `mask_del` behind a write callback that returns false. */
  lemma StageCuts(p: State, i: nat, input: bool, output: bool, r: Reactions, s: System, step: Step)
    returns (r': Reactions)
    requires Stage(p, i, input, output, r, s) && Enabled(s, step) && (step.Drop? || step.FailWrite?)
    ensures Stage(p, i, input, output, r', Next(s, step))
  {
    hide ActAll;
    r' := r.(onWrite := Reaction(r.onWrite.actions, false));
  }

  /** One step of any thread. */
  lemma StageMoves(p: State, i: nat, input: bool, output: bool, r: Reactions, s: System, step: Step)
    returns (r': Reactions)
    requires Stage(p, i, input, output, r, s) && Enabled(s, step) && !step.Store? && !step.Fail?
    ensures Stage(p, i, input, output, r', Next(s, step))
  {
    hide Stage, Registered, MayRegister, MayReturnFalse;
    StageVisits(p, i, input, output, r, s);
    r' := r;
    match step
    case RegisterMore(k, op) => r' := StageRegisters(p, i, input, output, r, s, k, op);
    case EndRead(keep) => r' := StageReadEnds(p, i, input, output, r, s, keep);
    case EndPrepare => StageWrites(p, i, input, output, r, s, step);
    case Flush(_, _) => StageWrites(p, i, input, output, r, s, step);
    case Decide => StageWrites(p, i, input, output, r, s, step);
    case Drop => r' := StageCuts(p, i, input, output, r, s, step);
    case FailWrite => r' := StageCuts(p, i, input, output, r, s, step);
    case Produce(_) =>
      var m := s.place.mgr;
      var u := if s.mgrs[m].out == 0 then RegisterHere(s, m, Write) else s;
      if s.mgrs[m].out == 0 {
        r' := StageRegisters(p, i, input, output, r, s, m, Write);
      }
      StageSame(p, i, input, output, r', u, Next(s, step));
    case EnqueueHere(k) =>
      var u := if s.mgrs[k].box.Blocked? then RegisterHere(s, k, Write) else s;
      if s.mgrs[k].box.Blocked? {
        r' := StageRegisters(p, i, input, output, r, s, k, Write);
      }
      StageSame(p, i, input, output, r', u, Next(s, step));
    case Enqueue(_) => StageSame(p, i, input, output, r, s, Next(s, step));
    case Signal(_) => StageSame(p, i, input, output, r, s, Next(s, step));
    case Post(_) => StageSame(p, i, input, output, r, s, Next(s, step));
    case ConsumeMessage => StageSame(p, i, input, output, r, s, Next(s, step));
    case Quit(_) => StageSame(p, i, input, output, r, s, Next(s, step));
    case ExecuteRecord => assert false;
    case StartInit(_) => assert false;
    case EndInit => assert false;
    case StartVisit(_, _, _) => assert false;
  }

  lemma StageVisits(p: State, i: nat, input: bool, output: bool, r: Reactions, s: System)
    requires Stage(p, i, input, output, r, s)
    ensures Shape(s) && s.place.Visiting?
  {}

  lemma {:induction false} StagesRun(p: State, i: nat, input: bool, output: bool, r: Reactions, s: System,
                                     steps: seq<Step>) returns (r': Reactions)
    requires Stage(p, i, input, output, r, s) && Shape(s)
    requires forall step :: step in steps ==> !step.Store? && !step.Fail?
    ensures Stage(p, i, input, output, r', Run(s, steps))
    decreases |steps|
  {
    hide Stage, Next, Enabled;
    r' := r;
    if steps != [] {
      var t := s;
      if Enabled(s, steps[0]) {
        r' := StageMoves(p, i, input, output, r, s, steps[0]);
        t := Next(s, steps[0]);
      }
      r' := StagesRun(p, i, input, output, r', t, steps[1..]);
    }
  }

  /** From `StartVisit` to `Store`, with any steps of the callbacks and of other threads in between, the pollset does
      what one round of the scan does for some reactions of the manager's callbacks. */
  lemma VisitIsRound(s: System, m: nat, input: bool, output: bool, steps: seq<Step>) returns (r: Reactions)
    requires Shape(s) && Enabled(s, StartVisit(m, input, output))
    requires forall step :: step in steps ==> !step.Store? && !step.Fail?
    requires At(Run(Next(s, StartVisit(m, input, output)), steps), Storing)
    ensures var i := IndexOf(s.pollset.managers, m);
            var t := Run(Next(s, StartVisit(m, input, output)), steps);
            && Enabled(t, Store)
            && Next(t, Store).pollset == Visited(WithReady(s.pollset, i, input, output), (n, k) => r, i).0
  {
    hide Handled, Run, ActAll;
    var i := IndexOf(s.pollset.managers, m);
    var p := WithReady(s.pollset, i, input, output);
    r := Reactions(Reaction([], true), Reaction([], true), []);
    StageBegins(s, m, input, output);
    r := StagesRun(p, i, input, output, r, Next(s, StartVisit(m, input, output)), steps);
    hide Next, Enabled;
    StageEnds(p, i, input, output, r, Run(Next(s, StartVisit(m, input, output)), steps));
  }

  lemma StageBegins(s: System, m: nat, input: bool, output: bool)
    requires Shape(s) && Enabled(s, StartVisit(m, input, output))
    ensures var i := IndexOf(s.pollset.managers, m);
            var none := Reaction([], true);
            Stage(WithReady(s.pollset, i, input, output), i, input, output, Reactions(none, none, []),
                  Next(s, StartVisit(m, input, output)))
  {
    var i := IndexOf(s.pollset.managers, m);
    NoActions(Begun(WithReady(s.pollset, i, input, output), m));
    hide ActAll;
  }

  lemma StageEnds(p: State, i: nat, input: bool, output: bool, r: Reactions, s: System)
    requires Stage(p, i, input, output, r, s) && At(s, Storing)
    ensures Enabled(s, Store) && Next(s, Store).pollset == Visited(p, (n, k) => r, i).0
  {
    hide Handled, ActAll;
  }
}
