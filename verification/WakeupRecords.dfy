/** The records of the wake-up system are those in the pipe, and mean the same to the multiplexer. */
module WakeupRecords {
  import opened PollsetModel
  import opened Wakeup
  import opened Bytes
  import Pipe = PollsetUpdater
  import Mux = Multiplexer

  /** What another thread writes to the pipe for `register_reading`, `register_writing`, `init` and `shutdown`. */
  function OnPipe(r: Record): Pipe.Record {
    match r
    case Registration(m, Read) => Pipe.Record(Pipe.REGISTER_READING, m)
    case Registration(m, Write) => Pipe.Record(Pipe.REGISTER_WRITING, m)
    case Init(m) => Pipe.Record(Pipe.INIT_MANAGER, m)
    case StopAll => Pipe.Record(Pipe.SHUTDOWN, 0)
  }

  /** What the updater makes of the bytes of a record. */
  function OffPipe(r: Record, inits: nat -> seq<Action>): seq<Action> {
    Mux.Meaning(Pipe.Decode(Pipe.Encode(OnPipe(r))), inits)
  }

  predicate Sendable(s: System) {
    Shape(s) && s.records != [] && (!s.records[0].StopAll? ==> s.records[0].mgr < |s.mgrs| <= UINT64_LIMIT)
  }

  /** Executing a registration or the shutdown changes the pollset of the system as the multiplexer changes its own
      when the bytes of the record arrive. */
  lemma ExecutedAlike(s: System, inits: nat -> seq<Action>)
    requires Sendable(s) && !s.records[0].Init?
    ensures Executed(s).pollset == ActAll(s.pollset, OffPipe(s.records[0], inits))
  {
    hide Registered, ShutDown, ActAll, OffPipe;
    var a := Received(s.records[0], inits);
    OneAction(s.pollset, a);
  }

  /** The bytes of such a record are one action. */
  lemma Received(r: Record, inits: nat -> seq<Action>) returns (a: Action)
    requires !r.Init? && (!r.StopAll? ==> r.mgr < UINT64_LIMIT)
    ensures OffPipe(r, inits) == [a]
    ensures a == if r.StopAll? then Shutdown else Action.Register(r.mgr, r.op)
  {
    Pipe.DecodeEncode(OnPipe(r));
    hide Pipe.Encode, Pipe.Decode;
    a := if r.StopAll? then Shutdown else Action.Register(r.mgr, r.op);
  }

  lemma OneAction(s: State, a: Action)
    requires WellFormed(s)
    ensures ActAll(s, [a]) == Act(s, a)
  {
    hide Act;
    assert [a][1..] == [];
  }

  /** The steps of an `init` that makes these registrations. */
  function InitSteps(actions: seq<Action>): seq<Step>
    requires forall a :: a in actions ==> a.Register?
  {
    if actions == [] then [EndInit] else [RegisterMore(actions[0].mgr, actions[0].op)] + InitSteps(actions[1..])
  }

  lemma {:induction false} InitRuns(s: System, actions: seq<Action>)
    requires Shape(s) && s.place.Starting?
    requires forall a :: a in actions ==> a.Register? && a.mgr < |s.mgrs|
    ensures var t := Run(s, InitSteps(actions));
            t.place == Idle && t.pollset == ActAll(s.pollset, actions)
    decreases |actions|
  {
    hide Run;
    if actions == [] {
      RunFirst(s, EndInit, []);
      assert [EndInit] + [] == [EndInit];
      RunNothing(Next(s, EndInit));
    } else {
      var a := actions[0];
      assert a in actions;
      var step := RegisterMore(a.mgr, a.op);
      RunFirst(s, step, InitSteps(actions[1..]));
      hide Registered;
      InitRuns(Next(s, step), actions[1..]);
    }
  }

  /** The same for a record that asks for the `init` of a manager, whose registrations are steps of the system. */
  lemma InitAlike(s: System, inits: nat -> seq<Action>)
    requires Sendable(s) && s.records[0].Init? && s.place == Idle
    requires forall a :: a in inits(s.records[0].mgr) ==> a.Register? && a.mgr < |s.mgrs|
    ensures var t := Run(s, [ExecuteRecord] + InitSteps(inits(s.records[0].mgr)));
            t.place == Idle && t.pollset == ActAll(s.pollset, OffPipe(s.records[0], inits))
  {
    Pipe.DecodeEncode(OnPipe(s.records[0]));
    var actions := inits(s.records[0].mgr);
    hide Run, Pipe.Encode, Pipe.Decode;
    RunFirst(s, ExecuteRecord, InitSteps(actions));
    InitRuns(Next(s, ExecuteRecord), actions);
  }
}
