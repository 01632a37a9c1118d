/** The one mutation permit is always given back, and a tick that nobody disturbs sees what there is. */
module AgentPermit {
  import opened Options
  import opened AgentTick

  lemma RunMore(steps: seq<Step>, step: Step)
    ensures Run(Start, steps + [step]) == Do(Run(Start, steps), step)
  {
    assert (steps + [step])[..|steps|] == steps;
  }

  /** Who has the permit, in every run: the tick exactly from when it got it until its plan is made, a client from when
      it entered until it released, a policy action from when it took the permit until it dropped it. */
  lemma HolderExactly(steps: seq<Step>)
    ensures var s := Run(Start, steps);
            && (s.holder.Tick? <==> Trying(s.watch) && s.watch.owned)
            && (s.holder.PolicyAction? <==> exists i | 0 <= i < |s.actions| :: s.actions[i].dropped.None?)
            && (forall i | 0 <= i < |s.operations| && !s.operations[i].kill && s.operations[i].ended.None? ::
                  s.holder == Client(i))
  {
    RunKeeps(steps);
    RunActions(steps);
    var s := Run(Start, steps);
    if s.holder.PolicyAction? {
      assert s.actions[|s.actions| - 1].dropped.None?;
    }
  }

  /** Whoever is done gives the permit back, and then a client can enter. A tick without an action does so when its plan
      is made; an action takes the permit over from it. A tick that did not get the permit changes nothing. */
  lemma GivenBack(steps: seq<Step>, step: Step)
    requires Enabled(Run(Start, steps), step)
    ensures var s, t := Run(Start, steps), Run(Start, steps + [step]);
            && (step.Release? || step.GiveUp? || step.DropByPolicy? ==> t.holder.Nobody? && Enabled(t, Enter))
            && (step == HandOver(false) && s.watch.owned ==>
                  t.holder.Nobody? && Enabled(t, Enter) && Enabled(t, TakeForPolicy))
            && (step == HandOver(true) && s.watch.owned ==>
                  t.holder.PolicyAction? && t.actions == s.actions + [Holding(s.time, None)])
            && (step.HandOver? ==> t.watch.Resting? && (!s.watch.owned ==> t.holder == s.holder))
            && (step.DropByPolicy? ==> t.actions != [] && t.actions[|t.actions| - 1].dropped == Some(s.time))
  {
    RunMore(steps, step);
    RunActions(steps);
  }

  // ----- The permit can always become free

  ghost predicate Frees(s: State, more: seq<Step>) {
    Run(s, more).holder.Nobody?
  }

  lemma FreesAfter(s: State, step: Step, more: seq<Step>)
    requires Frees(Do(s, step), more)
    ensures Frees(s, [step] + more)
  {
    RunSplit(s, [step], more);
    assert [step][..0] == [];
    assert Run(s, [step]) == Do(Run(s, []), step);
  }

  lemma FreesAtOnce(s: State, step: Step)
    requires Do(s, step).holder.Nobody?
    ensures Frees(s, [step] + [])
  {
    FreesAfter(s, step, []);
  }

  lemma ClientFrees(s: State) returns (more: seq<Step>)
    requires OperationsOk(s) && s.holder.Client?
    ensures Frees(s, more)
  {
    var id := s.holder.id;
    if s.operations[id].ended.Some? {
      FreesAtOnce(s, Release);
      more := [Release] + [];
    } else {
      FreesAtOnce(Do(s, Finish(id)), Release);
      FreesAfter(s, Finish(id), [Release] + []);
      more := [Finish(id)] + ([Release] + []);
    }
  }

  /** The tick's next step. */
  function NextOf(watch: Watch): Step
    requires Trying(watch)
  {
    match watch
    case Tried(_, _, _, _) => ReadRoomAgain
    case SeenRoom(_, _, _, _, _) => CompareHistory
    case Compared(_, _, _, _, _, _, _) => CompareRevision
    case Decided(_, _, _, _, _, _, _, _) => HandOver(false)
  }

  function StepsLeft(watch: Watch): nat {
    match watch
    case Tried(_, _, _, _) => 3
    case SeenRoom(_, _, _, _, _) => 2
    case Compared(_, _, _, _, _, _, _) => 1
    case _ => 0
  }

  lemma {:induction false} TickFrees(s: State) returns (more: seq<Step>)
    requires s.holder.Tick? && Trying(s.watch) && s.watch.owned
    ensures Frees(s, more)
    decreases StepsLeft(s.watch)
  {
    var step := NextOf(s.watch);
    if s.watch.Decided? {
      FreesAtOnce(s, step);
      more := [step] + [];
    } else {
      var rest := TickFrees(Do(s, step));
      FreesAfter(s, step, rest);
      more := [step] + rest;
    }
  }

  /** From every state of every run the permit can become free by steps of its holder alone. */
  lemma ComesFree(steps: seq<Step>)
    ensures exists more :: Run(Start, steps + more).holder.Nobody?
  {
    RunKeeps(steps);
    var s, more := Run(Start, steps), [];
    match s.holder {
      case Nobody =>
      case Entering =>
        FreesAtOnce(s, GiveUp);
        more := [GiveUp] + [];
      case Client(_) => more := ClientFrees(s);
      case PolicyAction =>
        FreesAtOnce(s, DropByPolicy);
        more := [DropByPolicy] + [];
      case Tick => more := TickFrees(s);
    }
    RunSplit(Start, steps, more);
    assert Run(Start, steps + more).holder.Nobody?;
  }

  // ----- A tick that nobody disturbs

  /** There is something that a tick must not plan across. */
  predicate Occupied(s: State) {
    s.current.Some? || s.room.operation.Some? || !s.holder.Nobody?
  }

  function WithHistory(s: State): State {
    s.(time := s.time + 2, watch := HasHistory(Window(Revision(s), s.signals, s.current, s.last, s.time + 1)))
  }

  function Snapped(s: State): State {
    s.(time := s.time + 4, chosenAt := s.time + 3,
       watch := Observed(Window(Revision(s), s.signals, s.current, s.last, s.time + 1), s.room, Occupied(s)))
  }

  lemma HistoryRead(s: State)
    requires s.watch.Resting?
    ensures Run(s, [ReadRevision, ReadHistory]) == WithHistory(s)
  {
    RunTwo(s, ReadRevision, ReadHistory);
  }

  lemma InputsChosen(s: State, t: State)
    requires t == WithHistory(s)
    ensures Run(t, [ReadRoom, ChooseInputs]) == Snapped(s)
  {
    RunTwo(t, ReadRoom, ChooseInputs);
  }

  lemma SnapshotTaken(s: State)
    requires s.watch.Resting?
    ensures Run(s, Snapshot) == Snapped(s)
  {
    RunSplit(s, [ReadRevision, ReadHistory], [ReadRoom, ChooseInputs]);
    HistoryRead(s);
    InputsChosen(s, WithHistory(s));
  }

  function ReadTwice(s: State): State
    requires s.watch.Observed?
  {
    var t := s.watch;
    s.(time := s.time + 2, triedAt := s.time, holder := if s.holder.Nobody? then Tick else s.holder,
       watch := SeenRoom(t.w, t.before, t.busy, s.holder.Nobody?, s.room))
  }

  lemma RoomRead(s: State)
    requires s.watch.Observed?
    ensures Run(s, [TryPermit, ReadRoomAgain]) == ReadTwice(s)
  {
    RunTwo(s, TryPermit, ReadRoomAgain);
  }

  /** What the comparison decides when the tick has these readings. */
  ghost predicate DecidedBy(s: State, t: State)
    requires s.watch.SeenRoom?
  {
    && t.watch.Decided? && t.watch.owned == s.watch.owned && t.holder == s.holder
    && (t.watch.kept <==>
          && s.watch.owned && s.watch.w.current.None? && s.watch.before.operation.None?
          && s.current.None? && s.last == s.watch.w.last && s.watch.after == s.watch.before
          && Revision(s) == s.watch.w.revision)
    && (t.watch.busy <==> !t.watch.kept || s.watch.busy)
  }

  lemma ComparisonMade(s: State)
    requires s.watch.SeenRoom?
    ensures DecidedBy(s, Run(s, [CompareHistory, CompareRevision]))
  {
    RunTwo(s, CompareHistory, CompareRevision);
  }

  lemma WindowRuns(s: State)
    requires s.watch.Resting?
    ensures DecidedBy(ReadTwice(Snapped(s)), Run(s, Snapshot + Comparison))
  {
    var m, n := Snapped(s), ReadTwice(Snapped(s));
    RunSplit(s, Snapshot, Comparison);
    SnapshotTaken(s);
    RunSplit(m, [TryPermit, ReadRoomAgain], [CompareHistory, CompareRevision]);
    RoomRead(m);
    ComparisonMade(n);
  }

  /** If nothing else happens while it observes and compares, the tick keeps its observation and plans with it exactly
      when neither history, room nor permit shows anything under way, and it has the permit exactly if it was free. */
  lemma QuietTick(steps: seq<Step>)
    requires Run(Start, steps).watch.Resting?
    ensures var s, t := Run(Start, steps), Run(Start, steps + (Snapshot + Comparison));
            && t.watch.Decided? && (t.watch.busy <==> s.current.Some? || s.room.operation.Some? || !s.holder.Nobody?)
            && t.watch.owned == s.holder.Nobody?
  {
    RunSplit(Start, steps, Snapshot + Comparison);
    WindowRuns(Run(Start, steps));
  }

  // ----- What happens outside the tick is what the run says

  function SignalsIn(steps: seq<Step>): nat {
    if steps == [] then 0
    else SignalsIn(steps[..|steps| - 1]) + (if steps[|steps| - 1].Signal? then 1 else 0)
  }

  function RoomAfter(steps: seq<Step>): RoomStatus {
    if steps == [] then RoomStatus(None, 0)
    else if steps[|steps| - 1].RoomChanges? then steps[|steps| - 1].status
    else RoomAfter(steps[..|steps| - 1])
  }

  /** Every signal counts and every change of the room's status arrives. */
  lemma {:induction false} OutsideArrives(steps: seq<Step>)
    ensures Run(Start, steps).signals == SignalsIn(steps) && Run(Start, steps).room == RoomAfter(steps)
    decreases |steps|
  {
    if steps != [] {
      OutsideArrives(steps[..|steps| - 1]);
    }
  }

  /** A client that enters its operation in the history is the current one until it finishes, and then the last. */
  lemma RecordedUntilFinished(steps: seq<Step>, kill: bool)
    requires kill || Run(Start, steps).holder.Entering?
    ensures var s, step := Run(Start, steps), if kill then RecordKill else Record;
            var t, id := Run(Start, steps + [step]), |s.operations|;
            && t.operations == s.operations + [Operation(kill, s.time, None)] && t.current == Some(id)
            && (!kill ==> t.holder == Client(id))
            && Enabled(t, Finish(id))
            && Do(t, Finish(id)).current.None? && Do(t, Finish(id)).last == Some(id)
            && Do(t, Finish(id)).operations[id].ended == Some(t.time)
  {
    RunMore(steps, if kill then RecordKill else Record);
  }
}
