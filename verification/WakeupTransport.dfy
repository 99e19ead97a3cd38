/** The callbacks of a transport make the steps that the wake-up system says. */
module WakeupTransport {
  import opened PollsetModel
  import opened Wakeup
  import S = StreamTransport

  /** Whether `try_block_mailbox` succeeds after `taken` messages have been consumed. */
  predicate Emptied(box: Box, taken: nat) {
    match box
    case Blocked => true
    case Open(n) => n == taken
    case Closed => false
  }

  predicate Has(box: Box, taken: nat) {
    taken == 0 || (box.Open? && taken <= box.count)
  }

  function Taken(box: Box, taken: nat): Box
    requires Has(box, taken)
  {
    if box.Open? then Open(box.count - taken) else box
  }

  lemma {:induction false} RunBoth(s: System, a: seq<Step>, b: seq<Step>)
    requires Shape(s)
    ensures Run(s, a + b) == Run(Run(s, a), b)
    decreases |a|
  {
    hide Next, Enabled;
    if a == [] {
      assert a + b == b;
    } else {
      assert (a + b)[1..] == a[1..] + b;
      RunBoth(if Enabled(s, a[0]) then Next(s, a[0]) else s, a[1..], b);
    }
  }

  /** A manager in its write callback: polled for output, and nothing has been cut from its events. */
  ghost predicate InCallback(s: System) {
    && Shape(s) && At(s, Preparing) && s.pollset.masks[s.place.mgr].write && s.place.events.write && MayReturnFalse(s)
  }

  /** `prepare_send` takes messages from the mailbox, ... */
  lemma {:induction false} TakesMessages(s: System, taken: nat)
    requires InCallback(s) && Has(s.mgrs[s.place.mgr].box, taken)
    ensures Run(s, Repeat(ConsumeMessage, taken)) == AfterTaking(s, taken)
    decreases taken
  {
    var m := s.place.mgr;
    if taken == 0 {
      assert Put(s, m, s.mgrs[m]) == s;
    } else {
      hide Run, MayReturnFalse;
      var t := Next(s, ConsumeMessage);
      SameCall(s, t);
      RunFirst(s, ConsumeMessage, Repeat(ConsumeMessage, taken - 1));
      TakesMessages(t, taken - 1);
      var g := s.mgrs[m].(box := Taken(s.mgrs[m].box, taken));
      assert t.mgrs[m := g] == s.mgrs[m := g];
    }
  }

  lemma SameCall(s: System, t: System)
    requires InCallback(s) && Shape(t) && t.pollset == s.pollset && t.place == s.place
    ensures InCallback(t)
  {}

  /** ... and adds to the output; the manager is registered for output already. */
  lemma Adds(s: System, bytes: nat)
    requires InCallback(s)
    ensures Enabled(s, Produce(bytes))
    ensures var m := s.place.mgr;
            Next(s, Produce(bytes)) == Put(s, m, s.mgrs[m].(out := s.mgrs[m].out + bytes))
  {}

  /** Where `handle_write_event` leaves the manager: with `out` bytes of output, and either about to go on or cut. */
  ghost predicate Left(s: System, u: System, out: nat, keep: bool)
    requires Shape(s) && At(s, Preparing)
  {
    var m := s.place.mgr;
    && Shape(u) && At(u, Storing) && u.place.mgr == m && u.place.before == s.place.before
    && u.mgrs == s.mgrs[m := s.mgrs[m].(out := out, box := if keep then s.mgrs[m].box else Blocked)]
    && u.place.events == (if keep then s.place.events else s.place.events.Without(Write))
    && u.pollset == s.pollset.(masks := s.pollset.masks[m := if keep then s.pollset.masks[m]
                                                            else s.pollset.masks[m].Without(Write)])
  }

  /** The steps behind `prepare_send` when the buffer holds `out` bytes at the end. */
  function Steps(before: nat, out: nat, keep: bool): seq<Step>
    requires out <= before
  {
    [EndPrepare, FlushStep(before, out)] + Rest(out, keep)
  }

  lemma StepsLead(s: System, out: nat, keep: bool)
    requires InCallback(s) && out <= s.mgrs[s.place.mgr].out
    requires keep == (out > 0 || !Emptied(s.mgrs[s.place.mgr].box, 0))
    ensures Left(s, Run(s, Steps(s.mgrs[s.place.mgr].out, out, keep)), out, keep)
  {
    hide *;
    StillInCall(s, out);
    LeftAtEnd(s, out, keep);
    var before, t := s.mgrs[s.place.mgr].out, AfterFlush(s, out);
    StepsSplit(before, out, keep);
    FlushesPart(s, out);
    RunFirst(s, EndPrepare, [FlushStep(before, out)] + Rest(out, keep));
    RunFirst(Next(s, EndPrepare), FlushStep(before, out), Rest(out, keep));
    RunsRest(t, out, keep);
  }

  function FlushStep(before: nat, out: nat): Step
    requires out <= before
  {
    if out == before > 0 then Flush(-1, true) else Flush(before - out, false)
  }

  function Rest(out: nat, keep: bool): seq<Step> {
    if out > 0 then [] else if keep then [Decide] else [Decide, Drop]
  }

  lemma StepsSplit(before: nat, out: nat, keep: bool)
    requires out <= before
    ensures Steps(before, out, keep) == [EndPrepare] + ([FlushStep(before, out)] + Rest(out, keep))
  {}

  lemma RunsRest(s: System, out: nat, keep: bool)
    requires Shape(s) && s.place.Visiting? && (out == 0 ==> At(s, Deciding) && MayReturnFalse(s))
    requires out == 0 ==> keep == !Emptied(s.mgrs[s.place.mgr].box, 0)
    ensures Run(s, Rest(out, keep)) == if out > 0 then s else AfterDecision(s, keep)
  {
    hide Run, AfterDecision;
    if out > 0 {
      RunNothing(s);
    } else {
      Decides(s, keep);
    }
  }

  function AfterFlush(s: System, out: nat): System
    requires Shape(s) && s.place.Visiting?
  {
    var m := s.place.mgr;
    To(Put(s, m, s.mgrs[m].(out := out)), if out > 0 then Storing else Deciding)
  }

  function AfterDecision(s: System, keep: bool): System
    requires Shape(s) && s.place.Visiting?
  {
    var m := s.place.mgr;
    if keep then To(s, Storing) else CutHere(Put(s, m, s.mgrs[m].(box := Blocked)), Write, Storing)
  }

  /** Where the steps end. */
  lemma LeftAtEnd(s: System, out: nat, keep: bool)
    requires InCallback(s) && (out > 0 ==> keep) && (keep ==> out > 0 || !Emptied(s.mgrs[s.place.mgr].box, 0))
    ensures var t := AfterFlush(s, out);
            Shape(t) && Left(s, if out > 0 then t else AfterDecision(t, keep), out, keep)
  {
    var m := s.place.mgr;
    assert s.mgrs[m := s.mgrs[m].(out := out)][m := s.mgrs[m].(out := out, box := Blocked)]
        == s.mgrs[m := s.mgrs[m].(out := out, box := Blocked)];
  }

  lemma FlushesPart(s: System, out: nat)
    requires Shape(s) && At(s, Preparing) && out <= s.mgrs[s.place.mgr].out
    ensures var flush := FlushStep(s.mgrs[s.place.mgr].out, out);
            && Enabled(s, EndPrepare) && Enabled(Next(s, EndPrepare), flush)
            && Next(Next(s, EndPrepare), flush) == AfterFlush(s, out)
  {
    var m := s.place.mgr;
    assert s.mgrs[m := s.mgrs[m]] == s.mgrs;
  }

  lemma StillInCall(s: System, out: nat)
    requires InCallback(s)
    ensures Shape(s) && At(s, Preparing) && s.place.Visiting?
    ensures var t := AfterFlush(s, out);
            && Shape(t) && t.place.Visiting? && t.mgrs[t.place.mgr].box == s.mgrs[s.place.mgr].box
            && MayReturnFalse(t) && (out == 0 ==> At(t, Deciding))
  {}

  lemma Decides(s: System, keep: bool)
    requires Shape(s) && At(s, Deciding) && MayReturnFalse(s) && keep == !Emptied(s.mgrs[s.place.mgr].box, 0)
    ensures Run(s, if keep then [Decide] else [Decide, Drop]) == AfterDecision(s, keep)
  {
    var t := DecisionStep(s, keep);
    hide *;
    assert [Decide] + [Drop] == [Decide, Drop] && [Decide] + [] == [Decide] && [Drop] + [] == [Drop];
    RunFirst(s, Decide, if keep then [] else [Drop]);
    if keep {
      RunNothing(t);
    } else {
      RunFirst(t, Drop, []);
      RunNothing(Next(t, Drop));
    }
  }

  lemma DecisionStep(s: System, keep: bool) returns (t: System)
    requires Shape(s) && At(s, Deciding) && MayReturnFalse(s) && keep == !Emptied(s.mgrs[s.place.mgr].box, 0)
    ensures Enabled(s, Decide) && Next(s, Decide) == t && Shape(t)
    ensures if keep then t == AfterDecision(s, keep)
            else Enabled(t, Drop) && Next(t, Drop) == AfterDecision(s, keep)
  {
    var m := s.place.mgr;
    assert s.mgrs[m].box == Blocked ==> s.mgrs[m := s.mgrs[m].(box := Blocked)] == s.mgrs;
    t := if keep then To(s, Storing) else To(Put(s, m, s.mgrs[m].(box := Blocked)), Dropping);
  }

  /** The write callback of a transport whose buffer and mailbox are those of the manager: whatever the socket does, the
      system makes the steps of `handle_write_event` with the output that is left, and cuts writing from the mask if and
      only if the callback returns false. */
  method WriteVisit<T(!new), V>(t: S.Transport<T, V>, s: System, taken: nat) returns (keep: bool, steps: seq<Step>)
    requires t.Valid() && t.HasEntry() && !t.writeAborted && InCallback(s)
    requires var g := s.mgrs[s.place.mgr];
             && g.out == |t.writeBuf| && Has(g.box, taken)
             && t.layer.doneSending(t.layer.prepareSend(t.state).state) == Emptied(g.box, taken)
    modifies t`state, t`writeBuf, t`interest, t`appended, t`writeAborted, t`unprepared, t.socket`sent, t.socket`sends
    ensures t.Valid() && (t.writeAborted ==> !keep)
    ensures if t.writeAborted then Failed(AfterTaking(s, taken), Run(s, steps), |t.writeBuf|)
            else Left(AfterTaking(s, taken), Run(s, steps), |t.writeBuf|, keep)
  {
    hide Left, Failed, Run, Repeat, Steps, MayReturnFalse;
    var m := s.place.mgr;
    var added := |t.layer.prepareSend(t.state).output|;
    var before := s.mgrs[m].out + added;
    keep := t.HandleWriteEvent();
    if t.writeAborted {
      steps := Repeat(ConsumeMessage, taken) + [Produce(added), FailWrite];
      FailSteps(s, taken, added);
    } else {
      steps := Repeat(ConsumeMessage, taken) + ([Produce(added)] + Steps(before, |t.writeBuf|, keep));
      WriteSteps(s, taken, added, |t.writeBuf|, keep);
    }
  }

  /** A failed write leaves the output in the buffer and takes writing from the mask; the manager stays, and its other
      events with it. */
  ghost predicate Failed(s: System, u: System, out: nat)
    requires Shape(s) && At(s, Preparing)
  {
    var m := s.place.mgr;
    && Shape(u) && u.place == s.place.(events := s.place.events.Without(Write), phase := Storing)
    && u.mgrs == s.mgrs[m := s.mgrs[m].(out := out, failed := true)]
    && u.pollset == s.pollset.(masks := s.pollset.masks[m := s.pollset.masks[m].Without(Write)])
  }

  lemma FailSteps(s: System, taken: nat, added: nat)
    requires InCallback(s) && Has(s.mgrs[s.place.mgr].box, taken)
    ensures var steps := Repeat(ConsumeMessage, taken) + [Produce(added), FailWrite];
            Failed(AfterTaking(s, taken), Run(s, steps), s.mgrs[s.place.mgr].out + added)
  {
    hide *;
    StillInCallback(s, taken);
    TakesMessages(s, taken);
    RunBoth(s, Repeat(ConsumeMessage, taken), [Produce(added), FailWrite]);
    FailsAfterAdding(AfterTaking(s, taken), added);
  }

  lemma FailsAfterAdding(s: System, added: nat)
    requires InCallback(s)
    ensures Failed(s, Run(s, [Produce(added), FailWrite]), s.mgrs[s.place.mgr].out + added)
  {
    MoreOutput(s, added);
    var t := More(s, added);
    hide Run;
    assert [Produce(added)] + [FailWrite] == [Produce(added), FailWrite] && [FailWrite] + [] == [FailWrite];
    MayFail(t);
    FailsFrom(s, added);
    hide Next, Enabled, Failed, WriteFailed;
    RunFirst(s, Produce(added), [FailWrite]);
    RunFirst(t, FailWrite, []);
    RunNothing(WriteFailed(t));
  }

  lemma MayFail(s: System)
    requires InCallback(s)
    ensures Enabled(s, FailWrite) && Next(s, FailWrite) == WriteFailed(s)
  {}

  lemma FailsFrom(s: System, added: nat)
    requires InCallback(s)
    ensures Shape(More(s, added)) && Failed(s, WriteFailed(More(s, added)), s.mgrs[s.place.mgr].out + added)
  {
    var m := s.place.mgr;
    var g := s.mgrs[m].(out := s.mgrs[m].out + added);
    assert s.mgrs[m := g][m := g.(failed := true)] == s.mgrs[m := g.(failed := true)];
  }

  lemma WriteSteps(s: System, taken: nat, added: nat, out: nat, keep: bool)
    requires InCallback(s) && Has(s.mgrs[s.place.mgr].box, taken) && out <= s.mgrs[s.place.mgr].out + added
    requires keep == (out > 0 || !Emptied(s.mgrs[s.place.mgr].box, taken))
    ensures var m := s.place.mgr;
            var g := s.mgrs[m];
            var steps := Repeat(ConsumeMessage, taken) + ([Produce(added)] + Steps(g.out + added, out, keep));
            Left(AfterTaking(s, taken), Run(s, steps), out, keep)
  {
    hide *;
    StillInCallback(s, taken);
    var s1, rest := AfterTaking(s, taken), [Produce(added)] + Steps(s.mgrs[s.place.mgr].out + added, out, keep);
    TakesMessages(s, taken);
    RunBoth(s, Repeat(ConsumeMessage, taken), rest);
    AddsAndLeads(s1, added, out, keep);
  }

  function AfterTaking(s: System, taken: nat): System
    requires Shape(s) && s.place.Visiting? && Has(s.mgrs[s.place.mgr].box, taken)
  {
    var g := s.mgrs[s.place.mgr];
    Put(s, s.place.mgr, g.(box := Taken(g.box, taken)))
  }

  lemma StillInCallback(s: System, taken: nat)
    requires InCallback(s) && Has(s.mgrs[s.place.mgr].box, taken)
    ensures var t := AfterTaking(s, taken);
            && InCallback(t) && t.place == s.place && |t.mgrs| == |s.mgrs| && Shape(s) && s.place.Visiting?
            && t.mgrs[s.place.mgr].out == s.mgrs[s.place.mgr].out
            && Emptied(t.mgrs[s.place.mgr].box, 0) == Emptied(s.mgrs[s.place.mgr].box, taken)
  {
    SameCall(s, AfterTaking(s, taken));
  }

  lemma AddsAndLeads(s: System, added: nat, out: nat, keep: bool)
    requires InCallback(s) && out <= s.mgrs[s.place.mgr].out + added
    requires keep == (out > 0 || !Emptied(s.mgrs[s.place.mgr].box, 0))
    ensures Left(s, Run(s, [Produce(added)] + Steps(s.mgrs[s.place.mgr].out + added, out, keep)), out, keep)
  {
    hide *;
    MoreOutput(s, added);
    var t, steps := More(s, added), Steps(s.mgrs[s.place.mgr].out + added, out, keep);
    StepsLead(t, out, keep);
    LeftAfterAdding(s, added, Run(t, steps), out, keep);
    RunFirst(s, Produce(added), steps);
  }

  function More(s: System, added: nat): System
    requires Shape(s) && s.place.Visiting?
  {
    Put(s, s.place.mgr, s.mgrs[s.place.mgr].(out := s.mgrs[s.place.mgr].out + added))
  }

  lemma MoreOutput(s: System, added: nat)
    requires InCallback(s)
    ensures var t := More(s, added);
            && InCallback(t) && t.place == s.place && |t.mgrs| == |s.mgrs|
            && t.mgrs[s.place.mgr].out == s.mgrs[s.place.mgr].out + added
            && t.mgrs[s.place.mgr].box == s.mgrs[s.place.mgr].box
            && Shape(s) && At(s, Preparing) && Shape(t) && Enabled(s, Produce(added)) && t == Next(s, Produce(added))
  {
    Adds(s, added);
    SameCall(s, More(s, added));
  }

  lemma LeftAfterAdding(s: System, added: nat, u: System, out: nat, keep: bool)
    requires Shape(s) && At(s, Preparing)
    requires Left(More(s, added), u, out, keep)
    ensures Left(s, u, out, keep)
  {
    var m := s.place.mgr;
    var g := s.mgrs[m].(out := s.mgrs[m].out + added);
    var h := g.(out := out, box := if keep then g.box else Blocked);
    assert s.mgrs[m := g][m := h] == s.mgrs[m := h];
  }

  // -- the read callback ----------------------------------------------------------------------------------------------

  /** A manager in its read callback: it is polled for input, and nothing has been registered in this call. */
  ghost predicate InReadCallback(s: System) {
    && Shape(s) && InRead(s) && !s.pollset.shuttingDown && s.pollset.masks[s.place.mgr].read
    && s.place.events == s.place.before == Entries(s)
  }

  /** Where `handle_read_event` leaves the manager: with `out` bytes of output, with `mask`, and cut if it returned
      false. */
  ghost predicate HasRead(s: System, u: System, out: nat, mask: Ops, keep: bool)
    requires Shape(s) && InRead(s)
  {
    var m := s.place.mgr;
    && Shape(u)
    && u.place == s.place.(events := if keep then s.place.events else s.place.events.Without(Read),
                           phase := if s.place.phase.output then Preparing else Storing)
    && u.mgrs == s.mgrs[m := s.mgrs[m].(out := out)]
    && u.pollset.masks == s.pollset.masks[m := if keep then mask else mask.Without(Read)]
  }

  /** The steps of a call that has left `out` bytes of output. */
  function ReadSteps(m: nat, before: nat, out: nat, registers: bool, keep: bool): seq<Step>
    requires before <= out
  {
    Outputs(m, before, out, registers) + [EndRead(keep)]
  }

  function Outputs(m: nat, before: nat, out: nat, registers: bool): seq<Step>
    requires before <= out
  {
    if before < out then [Produce(out - before)] else if registers then [RegisterMore(m, Write)] else []
  }

  /** A registration by the manager that is visited. */
  lemma OwnMask(s: System, op: Op)
    requires InReadCallback(s)
    ensures var m := s.place.mgr;
            var t := RegisterHere(s, m, op);
            && t.pollset.masks == s.pollset.masks[m := s.pollset.masks[m].With(op)]
            && (s.pollset.masks[m].Has(op) ==> t == s)
  {
    var m := s.place.mgr;
    assert m in s.pollset.managers;
    assert s.pollset.masks[m].Has(op) ==> s.pollset.masks[m := s.pollset.masks[m].With(op)] == s.pollset.masks;
    hide IndexOf;
  }

  /** `t` is `s` with `out` bytes of output and `mask`. */
  ghost predicate WithOutput(s: System, t: System, out: nat, mask: Ops)
    requires Shape(s) && s.place.Visiting?
  {
    var m := s.place.mgr;
    && Shape(t) && t.place == s.place && t.mgrs == s.mgrs[m := s.mgrs[m].(out := out)]
    && t.pollset.masks == s.pollset.masks[m := mask]
    && (mask == s.pollset.masks[m] ==> t.pollset == s.pollset)
  }

  lemma OutputProduced(s: System, out: nat, mask: Ops)
    requires InReadCallback(s) && s.mgrs[s.place.mgr].out < out
    requires Reachable(s.mgrs[s.place.mgr].out, s.pollset.masks[s.place.mgr], out, mask)
    ensures var step := Produce(out - s.mgrs[s.place.mgr].out);
            Enabled(s, step) && WithOutput(s, Next(s, step), out, mask)
  {
    OwnMask(s, Write);
    hide RegisterHere;
  }

  lemma OutputRegistered(s: System, out: nat, mask: Ops)
    requires InReadCallback(s) && s.mgrs[s.place.mgr].out == out && mask != s.pollset.masks[s.place.mgr]
    requires Reachable(s.mgrs[s.place.mgr].out, s.pollset.masks[s.place.mgr], out, mask)
    ensures var step := RegisterMore(s.place.mgr, Write);
            Enabled(s, step) && WithOutput(s, Next(s, step), out, mask)
  {
    OwnMask(s, Write);
    hide RegisterHere;
    var m := s.place.mgr;
    assert s.mgrs[m := s.mgrs[m].(out := out)] == s.mgrs;
  }

  lemma NoOutput(s: System)
    requires Shape(s) && s.place.Visiting?
    ensures WithOutput(s, s, s.mgrs[s.place.mgr].out, s.pollset.masks[s.place.mgr])
  {}

  /** The output of a read callback, and the mask that it leaves. */
  lemma OutputsLead(s: System, out: nat, mask: Ops)
    requires InReadCallback(s)
    requires Reachable(s.mgrs[s.place.mgr].out, s.pollset.masks[s.place.mgr], out, mask)
    ensures var m := s.place.mgr;
            var first := Outputs(m, s.mgrs[m].out, out, mask != s.pollset.masks[m]);
            WithOutput(s, Run(s, first), out, mask)
  {
    var m := s.place.mgr;
    var before := s.mgrs[m].out;
    hide Run, Next, Enabled, WithOutput;
    if before < out {
      OutputProduced(s, out, mask);
      RunOne(s, Produce(out - before));
    } else if mask != s.pollset.masks[m] {
      OutputRegistered(s, out, mask);
      RunOne(s, RegisterMore(m, Write));
    } else {
      NoOutput(s);
      RunNothing(s);
    }
  }

  lemma RunOne(s: System, step: Step)
    requires Shape(s) && Enabled(s, step)
    ensures Run(s, [step]) == Next(s, step)
  {
    hide Run, Next, Enabled;
    assert [step] + [] == [step];
    RunFirst(s, step, []);
    RunNothing(Next(s, step));
  }

  /** From `before` bytes of output to `out`, which are registered for writing. */
  predicate Reachable(before: nat, was: Ops, out: nat, mask: Ops) {
    && before <= out && (before > 0 ==> was.write) && (before < out ==> mask.write)
    && (mask == was || mask == was.With(Write))
  }

  lemma ReadLeads(s: System, out: nat, mask: Ops, keep: bool)
    requires InReadCallback(s)
    requires Reachable(s.mgrs[s.place.mgr].out, s.pollset.masks[s.place.mgr], out, mask)
    requires keep || mask == s.pollset.masks[s.place.mgr]
    ensures var m := s.place.mgr;
            var registers := mask != s.pollset.masks[m];
            HasRead(s, Run(s, ReadSteps(m, s.mgrs[m].out, out, registers, keep)), out, mask, keep)
  {
    var m := s.place.mgr;
    var first := Outputs(m, s.mgrs[m].out, out, mask != s.pollset.masks[m]);
    OutputsLead(s, out, mask);
    var t := Run(s, first);
    ReadEnds(s, t, out, mask, keep);
    hide *;
    RunBoth(s, first, [EndRead(keep)]);
    RunOne(t, EndRead(keep));
  }

  lemma ReadEnds(s: System, t: System, out: nat, mask: Ops, keep: bool)
    requires InReadCallback(s) && WithOutput(s, t, out, mask) && (keep || mask == s.pollset.masks[s.place.mgr])
    ensures Shape(t) && Enabled(t, EndRead(keep)) && HasRead(s, Next(t, EndRead(keep)), out, mask, keep)
  {
    var m := s.place.mgr;
    assert s.pollset.masks[m := mask][m := mask.Without(Read)] == s.pollset.masks[m := mask.Without(Read)];
  }

  /** The read callback of a transport whose buffer and mask are those of the manager: whatever arrives and whatever the
      layer does with it, the system adds the output and the registration for it, and then cuts reading from the mask if
      and only if the callback returns false. A call that begins output and returns false is the one in which the
      manager is stranded; the system leaves it out. */
  method ReadVisit<T(!new), V>(t: S.Transport<T, V>, s: System) returns (keep: bool, steps: seq<Step>)
    requires t.Valid() && t.HasEntry() && !t.readAborted && !t.writeAborted && !t.faulted && InReadCallback(s)
    requires s.mgrs[s.place.mgr].out == |t.writeBuf| && s.pollset.masks[s.place.mgr] == t.interest.mask
    modifies t, t.readBuf, t.socket`pos, t.socket`recvs
    ensures t.Valid() && old(t.interest.mask).Within(t.interest.mask)
    ensures keep || t.interest.mask == old(t.interest.mask) ==>
              HasRead(s, Run(s, steps), |t.writeBuf|, t.interest.mask, keep)
  {
    hide HasRead, Run, ReadSteps;
    var m, before, was := s.place.mgr, |t.writeBuf|, t.interest.mask;
    keep := t.HandleReadEvent();
    steps := ReadSteps(m, before, |t.writeBuf|, t.interest.mask != was, keep);
    if keep || t.interest.mask == was {
      ReadLeads(s, |t.writeBuf|, t.interest.mask, keep);
    }
  }
}
