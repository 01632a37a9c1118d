/** The Agent's optimistic observation: read without the mutation permit, then take the permit and compare. */
module AgentTick {
  import opened Options

  /** The interruption revision is an unsigned 64-bit counter that wraps. */
  const WRAP := 0x1_0000_0000_0000_0000

  /** A client operation, named by its position. `started` is when it was entered in the history and its
      worker was spawned, `ended` when that worker recorded the result. A kill runs without the permit. */
  datatype Operation = Operation(kill: bool, started: nat, ended: Option<nat>)

  /** A policy action, from when it has the permit until it drops it. */
  datatype Holding = Holding(taken: nat, dropped: Option<nat>)

  /** Who has the one mutation permit: a client on its way into the history, a recorded client operation,
      a policy action, or the tick. */
  datatype Holder = Nobody | Entering | Client(id: nat) | PolicyAction | Tick

  /** Opaque, except for the room's own operation. */
  datatype RoomStatus = RoomStatus(operation: Option<nat>, rest: nat)

  /** What the tick remembers from the beginning of its window. */
  datatype Window = Window(revision: nat, signals: nat, current: Option<nat>, last: Option<nat>, openedAt: nat)

  datatype Watch =
    | Resting
    | HasRevision(revision: nat, signals: nat)
    | HasHistory(w: Window)
    | HasRoom(w: Window, before: RoomStatus)
    | Observed(w: Window, before: RoomStatus, busy: bool)
    | Tried(w: Window, before: RoomStatus, busy: bool, owned: bool)
    | SeenRoom(w: Window, before: RoomStatus, busy: bool, owned: bool, after: RoomStatus)
    | Compared(w: Window, before: RoomStatus, after: RoomStatus, busy: bool, owned: bool, equal: bool, closedAt: nat)
    | Decided(w: Window, before: RoomStatus, after: RoomStatus, owned: bool, kept: bool, busy: bool, closedAt: nat,
              heard: nat)

  /** The history's entries are told apart by their unique ids, so its equality is that of the ids.
      `signals` counts the changes of the wrapping revision; `actions`, `chosenAt` and `triedAt` are history. */
  datatype State = State(
    time: nat,
    operations: seq<Operation>,
    current: Option<nat>,
    last: Option<nat>,
    holder: Holder,
    signals: nat,
    room: RoomStatus,
    watch: Watch,
    actions: seq<Holding>,
    chosenAt: nat,
    triedAt: nat)

  datatype Step =
    | Enter                      // a client mutation gets the permit
    | GiveUp                     // and returns before recording anything
    | Record                     // or enters itself in the history and runs
    | Signal                     // a kill or a scheduled closing changes the revision
    | RecordKill
    | Finish(id: nat)
    | Release                    // a finished client operation drops the permit
    | TakeForPolicy | DropByPolicy
    | RoomChanges(status: RoomStatus)
    | ReadRevision | ReadHistory | ReadRoom | ChooseInputs | TryPermit | ReadRoomAgain | CompareHistory
    | CompareRevision
    | HandOver(action: bool)     // the plan is made; its action keeps the permit, or nobody does

  function Revision(s: State): nat {
    s.signals % WRAP
  }

  predicate Enabled(s: State, step: Step) {
    match step
    case Enter => s.holder.Nobody?
    case GiveUp => s.holder.Entering?
    case Record => s.holder.Entering?
    case Signal => true
    case RecordKill => true
    case Finish(id) => id < |s.operations| && s.operations[id].ended.None?
    case Release => s.holder.Client? && s.holder.id < |s.operations| && s.operations[s.holder.id].ended.Some?
    case TakeForPolicy => s.holder.Nobody?
    case DropByPolicy => s.holder.PolicyAction?
    case RoomChanges(_) => true
    case ReadRevision => s.watch.Resting?
    case ReadHistory => s.watch.HasRevision?
    case ReadRoom => s.watch.HasHistory?
    case ChooseInputs => s.watch.HasRoom?
    case TryPermit => s.watch.Observed?
    case ReadRoomAgain => s.watch.Tried?
    case CompareHistory => s.watch.SeenRoom?
    case CompareRevision => s.watch.Compared?
    case HandOver(_) => s.watch.Decided?
  }

  function Recorded(s: State, kill: bool): State {
    s.(operations := s.operations + [Operation(kill, s.time, None)], current := Some(|s.operations|))
  }

  /** The worker clears the current operation only if it is its own, and always becomes the last one. */
  function Finished(s: State, id: nat): State
    requires id < |s.operations|
  {
    s.(operations := s.operations[id := s.operations[id].(ended := Some(s.time))],
       current := if s.current == Some(id) then None else s.current,
       last := Some(id))
  }

  function Taken(s: State): State {
    s.(holder := PolicyAction, actions := s.actions + [Holding(s.time, None)])
  }

  function Dropped(actions: seq<Holding>, time: nat): seq<Holding> {
    if actions == [] then []
    else actions[..|actions| - 1] + [actions[|actions| - 1].(dropped := Some(time))]
  }

  function Effect(s: State, step: Step): State
    requires Enabled(s, step)
  {
    match step
    case Enter => s.(holder := Entering)
    case GiveUp => s.(holder := Nobody)
    case Record => Recorded(s, false).(holder := Client(|s.operations|))
    case Signal => s.(signals := s.signals + 1)
    case RecordKill => Recorded(s, true)
    case Finish(id) => Finished(s, id)
    case Release => s.(holder := Nobody)
    case TakeForPolicy => Taken(s)
    case DropByPolicy => s.(holder := Nobody, actions := Dropped(s.actions, s.time))
    case RoomChanges(status) => s.(room := status)
    case ReadRevision => s.(watch := HasRevision(Revision(s), s.signals))
    case ReadHistory =>
      s.(watch := HasHistory(Window(s.watch.revision, s.watch.signals, s.current, s.last, s.time)))
    case ReadRoom => s.(watch := HasRoom(s.watch.w, s.room))
    case ChooseInputs =>
      var busy := s.watch.w.current.Some? || s.watch.before.operation.Some? || !s.holder.Nobody?;
      s.(watch := Observed(s.watch.w, s.watch.before, busy), chosenAt := s.time)
    case TryPermit =>
      s.(watch := Tried(s.watch.w, s.watch.before, s.watch.busy, s.holder.Nobody?),
         holder := if s.holder.Nobody? then Tick else s.holder, triedAt := s.time)
    case ReadRoomAgain => s.(watch := SeenRoom(s.watch.w, s.watch.before, s.watch.busy, s.watch.owned, s.room))
    case CompareHistory =>
      var t := s.watch;
      var equal :=
        && t.owned && t.w.current.None? && t.before.operation.None?
        && t.w.current == s.current && t.w.last == s.last && t.before == t.after;
      s.(watch := Compared(t.w, t.before, t.after, t.busy, t.owned, equal, s.time))
    case CompareRevision =>
      var t := s.watch;
      var kept := t.equal && t.w.revision == Revision(s);
      s.(watch := Decided(t.w, t.before, t.after, t.owned, kept, if kept then t.busy else true, t.closedAt, s.signals))
    case HandOver(action) =>
      var t := s.(watch := Resting);
      if !s.watch.owned then t else if action then Taken(t) else t.(holder := Nobody)
  }

  /** Every step takes one unit of time, so that the steps of a run are ordered by it. */
  function Do(s: State, step: Step): State {
    if Enabled(s, step) then Effect(s, step).(time := s.time + 1) else s
  }

  function Run(s: State, steps: seq<Step>): State
    decreases |steps|
  {
    if steps == [] then s else Do(Run(s, steps[..|steps| - 1]), steps[|steps| - 1])
  }

  const Start := State(0, [], None, None, Nobody, 0, RoomStatus(None, 0), Resting, [], 0, 0)

  /** An operation is being carried out at some moment of the time from `from` to `to`. */
  predicate Overlaps(o: Operation, from: nat, to: nat) {
    o.started <= to && (o.ended.None? || o.ended.value >= from)
  }

  // ----- What every step keeps

  /** Operations run in the past, and only the holder of the permit runs without being a kill. */
  ghost predicate OperationsOk(s: State) {
    && (forall i | 0 <= i < |s.operations| ::
          && s.operations[i].started < s.time
          && (s.operations[i].ended.Some? ==> s.operations[i].started < s.operations[i].ended.value < s.time)
          && (s.operations[i].ended.None? && !s.operations[i].kill ==> s.holder == Client(i)))
    && (s.holder.Client? ==> s.holder.id < |s.operations|)
  }

  /** The last operation is the one that ended last; the current one has not ended. */
  ghost predicate HistoryOk(s: State) {
    && (s.current.Some? ==> s.current.value < |s.operations| && s.operations[s.current.value].ended.None?)
    && (s.last.Some? ==> s.last.value < |s.operations| && s.operations[s.last.value].ended.Some?)
    && (forall i | 0 <= i < |s.operations| && s.operations[i].ended.Some? ::
          s.last.Some? && s.operations[i].ended.value <= s.operations[s.last.value].ended.value)
  }

  /** An operation that runs unseen was overwritten by a later one that has ended. */
  ghost predicate Overwritten(s: State, i: nat) {
    exists j | i < j < |s.operations| :: s.operations[j].ended.Some?
  }

  ghost predicate SeenOrOverwritten(s: State) {
    forall i | 0 <= i < |s.operations| && s.operations[i].ended.None? ::
      (s.current.Some? && i <= s.current.value) || Overwritten(s, i)
  }

  predicate HasWindow(watch: Watch) {
    !watch.Resting? && !watch.HasRevision?
  }

  /** What the history says about the operations since the window began. */
  ghost predicate Detects(s: State, w: Window) {
    && w.openedAt < s.time
    && (w.last.Some? ==>
          && w.last.value < |s.operations| && s.operations[w.last.value].ended.Some?
          && s.operations[w.last.value].ended.value < w.openedAt)
    && (forall i | 0 <= i < |s.operations| :: s.operations[i].started != w.openedAt)
    && ((exists i | 0 <= i < |s.operations| :: s.operations[i].started > w.openedAt) ==>
          s.current.Some? || EndedSince(s, w))
    && (w.current.None? ==> forall i | 0 <= i < |s.operations| && UnseenAt(s, w, i) :: OverwrittenBefore(s, w, i))
  }

  ghost predicate EndedSince(s: State, w: Window) {
    exists i | 0 <= i < |s.operations| :: s.operations[i].ended.Some? && s.operations[i].ended.value >= w.openedAt
  }

  /** Running when the window began. */
  ghost predicate UnseenAt(s: State, w: Window, i: nat)
    requires i < |s.operations|
  {
    s.operations[i].started < w.openedAt && (s.operations[i].ended.None? || s.operations[i].ended.value >= w.openedAt)
  }

  ghost predicate OverwrittenBefore(s: State, w: Window, i: nat) {
    exists j | i < j < |s.operations| :: s.operations[j].ended.Some? && s.operations[j].ended.value < w.openedAt
  }

  /** Where an operation can lie around a window whose two histories agree. */
  predicate Uncrossed(o: Operation, w: Window, closedAt: nat) {
    || (o.ended.Some? && o.ended.value < w.openedAt)
    || (o.kill && (o.started > closedAt || Spans(o, w, closedAt)))
  }

  /** Running all through the window. */
  predicate Spans(o: Operation, w: Window, closedAt: nat) {
    o.started < w.openedAt && (o.ended.None? || o.ended.value > closedAt)
  }

  ghost predicate AllUncrossed(s: State, w: Window, closedAt: nat) {
    && w.openedAt < closedAt < s.time && w.current.None?
    && forall i | 0 <= i < |s.operations| :: Uncrossed(s.operations[i], w, closedAt)
  }

  predicate Trying(watch: Watch) {
    watch.Tried? || watch.SeenRoom? || watch.Compared? || watch.Decided?
  }

  /** The room reported no operation of its own, and the same status at both ends of the window. */
  predicate RoomIdle(watch: Watch)
    requires watch.Compared? || watch.Decided?
  {
    watch.before.operation.None? && watch.after == watch.before
  }

  ghost predicate SignalsOk(s: State) {
    && (s.watch.HasRevision? ==> s.watch.signals <= s.signals && s.watch.revision == s.watch.signals % WRAP)
    && (HasWindow(s.watch) ==> s.watch.w.signals <= s.signals && s.watch.w.revision == s.watch.w.signals % WRAP)
    && (s.watch.Decided? ==> s.watch.w.signals <= s.watch.heard && (!s.watch.busy ==> s.watch.kept))
    && (s.watch.Decided? && s.watch.kept ==> s.watch.w.revision == s.watch.heard % WRAP)
  }

  ghost predicate TickOk(s: State) {
    && (HasWindow(s.watch) ==> Detects(s, s.watch.w))
    && (s.holder.Tick? <==> Trying(s.watch) && s.watch.owned)
    && (s.watch.Compared? && s.watch.equal ==>
          s.watch.owned && AllUncrossed(s, s.watch.w, s.watch.closedAt) && RoomIdle(s.watch))
    && (s.watch.Decided? && s.watch.kept ==>
          s.watch.owned && AllUncrossed(s, s.watch.w, s.watch.closedAt) && RoomIdle(s.watch))
  }

  ghost predicate Inv(s: State) {
    OperationsOk(s) && HistoryOk(s) && SeenOrOverwritten(s) && SignalsOk(s) && TickOk(s)
  }

  // ----- Steps that leave the history alone

  /** The time passes and nothing else that the invariant speaks of changes. */
  lemma Passes(s: State, t: State)
    requires OperationsOk(s) && HistoryOk(s) && SeenOrOverwritten(s)
    requires t.time == s.time + 1 && t.operations == s.operations && t.current == s.current && t.last == s.last
    requires s.holder.Client? && t.holder != s.holder ==>
               t.holder.Nobody? && s.holder.id < |s.operations| && s.operations[s.holder.id].ended.Some?
    requires t.holder.Client? ==> t.holder == s.holder
    ensures OperationsOk(t) && HistoryOk(t) && SeenOrOverwritten(t)
  {
    forall i | 0 <= i < |t.operations| && t.operations[i].ended.None?
      ensures (t.current.Some? && i <= t.current.value) || Overwritten(t, i)
    {
      if Overwritten(s, i) {
        var j :| i < j < |s.operations| && s.operations[j].ended.Some?;
        assert t.operations[j].ended.Some?;
      }
    }
  }

  lemma DetectsPasses(s: State, t: State, w: Window)
    requires Detects(s, w)
    requires t.time > s.time && t.operations == s.operations && t.current == s.current
    ensures Detects(t, w)
  {
    if EndedSince(s, w) {
      var i :| 0 <= i < |s.operations| && s.operations[i].ended.Some? && s.operations[i].ended.value >= w.openedAt;
      assert t.operations[i].ended.Some?;
    }
    if w.current.None? {
      forall i | 0 <= i < |t.operations| && UnseenAt(t, w, i) ensures OverwrittenBefore(t, w, i) {
        assert UnseenAt(s, w, i);
        var j :| i < j < |s.operations| && s.operations[j].ended.Some? && s.operations[j].ended.value < w.openedAt;
        assert t.operations[j].ended.Some?;
      }
    }
  }

  predicate LeavesHistory(step: Step) {
    !step.Record? && !step.RecordKill? && !step.Finish?
  }

  predicate OfTick(step: Step) {
    || step.ReadRevision? || step.ReadHistory? || step.ReadRoom? || step.ChooseInputs? || step.TryPermit?
    || step.ReadRoomAgain? || step.CompareHistory? || step.CompareRevision? || step.HandOver?
  }

  lemma OthersKeep(s: State, step: Step)
    requires Inv(s) && Enabled(s, step) && LeavesHistory(step) && !OfTick(step)
    ensures Inv(Do(s, step))
  {
    var t := Do(s, step);
    Passes(s, t);
    if HasWindow(s.watch) {
      DetectsPasses(s, t, s.watch.w);
    }
  }

  /** The window begins with what the history then says. */
  lemma Opens(s: State, t: State, w: Window)
    requires OperationsOk(s) && HistoryOk(s) && SeenOrOverwritten(s)
    requires w.current == s.current && w.last == s.last && w.openedAt == s.time
    requires t.time == s.time + 1 && t.operations == s.operations && t.current == s.current
    ensures Detects(t, w)
  {
    if w.current.None? {
      forall i | 0 <= i < |t.operations| && UnseenAt(t, w, i) ensures OverwrittenBefore(t, w, i) {
        assert Overwritten(s, i);
        var j :| i < j < |s.operations| && s.operations[j].ended.Some?;
        assert t.operations[j].ended.value < w.openedAt;
      }
    }
  }

  lemma ReadHistoryKeeps(s: State)
    requires Inv(s) && Enabled(s, ReadHistory)
    ensures Inv(Do(s, ReadHistory))
  {
    var t := Do(s, ReadHistory);
    Passes(s, t);
    Opens(s, t, t.watch.w);
  }

  /** With the permit in the tick's hands and equal histories, nothing but a kill can have run in the window. */
  lemma EqualMeansUncrossed(s: State, w: Window)
    requires OperationsOk(s) && HistoryOk(s) && Detects(s, w)
    requires s.holder.Tick? && w.current.None? && s.current.None? && s.last == w.last
    ensures !EndedSince(s, w)
    ensures forall i | 0 <= i < |s.operations| :: Uncrossed(s.operations[i], w, s.time)
  {
    assert !EndedSince(s, w);
    forall i | 0 <= i < |s.operations| ensures Uncrossed(s.operations[i], w, s.time) {
      assert s.operations[i].started < w.openedAt;
    }
  }

  lemma CompareHistoryKeeps(s: State)
    requires Inv(s) && Enabled(s, CompareHistory)
    ensures Inv(Do(s, CompareHistory))
  {
    var t := Do(s, CompareHistory);
    Passes(s, t);
    DetectsPasses(s, t, s.watch.w);
    if t.watch.equal {
      EqualMeansUncrossed(s, s.watch.w);
    }
  }

  lemma TickKeeps(s: State, step: Step)
    requires Inv(s) && Enabled(s, step) && OfTick(step) && !step.ReadHistory? && !step.CompareHistory?
    ensures Inv(Do(s, step))
  {
    var t := Do(s, step);
    Passes(s, t);
    if HasWindow(s.watch) {
      DetectsPasses(s, t, s.watch.w);
    }
  }

  // ----- Steps that change the history

  lemma RecordedKeeps(s: State, kill: bool, t: State)
    requires OperationsOk(s) && HistoryOk(s) && SeenOrOverwritten(s)
    requires !kill ==> s.holder.Entering?
    requires t == Recorded(s, kill).(time := s.time + 1, holder := if kill then s.holder else Client(|s.operations|))
    ensures OperationsOk(t) && HistoryOk(t) && SeenOrOverwritten(t)
  {
    var n := |s.operations|;
    assert forall i | 0 <= i < n :: t.operations[i] == s.operations[i];
    assert t.operations[n] == Operation(kill, s.time, None);
  }

  lemma DetectsRecorded(s: State, kill: bool, t: State, w: Window)
    requires Detects(s, w)
    requires t.time == s.time + 1 && t.operations == s.operations + [Operation(kill, s.time, None)] && t.current.Some?
    ensures Detects(t, w)
  {
    var n := |s.operations|;
    assert forall i | 0 <= i < n :: t.operations[i] == s.operations[i];
    if w.current.None? {
      forall i | 0 <= i < |t.operations| && UnseenAt(t, w, i) ensures OverwrittenBefore(t, w, i) {
        assert i < n && UnseenAt(s, w, i);
        var j :| i < j < n && s.operations[j].ended.Some? && s.operations[j].ended.value < w.openedAt;
        assert t.operations[j].ended.Some?;
      }
    }
  }

  lemma RecordKeeps(s: State, step: Step)
    requires Inv(s) && Enabled(s, step) && (step.Record? || step.RecordKill?)
    ensures Inv(Do(s, step))
  {
    var t := Do(s, step);
    RecordedKeeps(s, step.RecordKill?, t);
    if HasWindow(s.watch) {
      DetectsRecorded(s, step.RecordKill?, t, s.watch.w);
    }
    assert forall i | 0 <= i < |s.operations| :: t.operations[i] == s.operations[i];
  }

  lemma FinishedKeeps(s: State, id: nat, t: State)
    requires OperationsOk(s) && HistoryOk(s) && SeenOrOverwritten(s) && Enabled(s, Finish(id))
    requires t == Finished(s, id).(time := s.time + 1)
    ensures OperationsOk(t) && HistoryOk(t) && SeenOrOverwritten(t)
  {
    forall i | 0 <= i < |t.operations| && t.operations[i].ended.None?
      ensures (t.current.Some? && i <= t.current.value) || Overwritten(t, i)
    {
      if Overwritten(s, i) {
        var j :| i < j < |s.operations| && s.operations[j].ended.Some?;
        assert t.operations[j].ended.Some?;
      } else if s.current == Some(id) {
        assert i < id && t.operations[id].ended.Some?;
      }
    }
  }

  lemma DetectsFinished(s: State, id: nat, t: State, w: Window)
    requires OperationsOk(s) && Detects(s, w) && Enabled(s, Finish(id)) && t == Finished(s, id).(time := s.time + 1)
    ensures Detects(t, w)
  {
    assert t.operations[id].ended == Some(s.time);
    assert EndedSince(t, w);
    if w.current.None? {
      forall i | 0 <= i < |t.operations| && UnseenAt(t, w, i) ensures OverwrittenBefore(t, w, i) {
        assert UnseenAt(s, w, i);
        var j :| i < j < |s.operations| && s.operations[j].ended.Some? && s.operations[j].ended.value < w.openedAt;
        assert t.operations[j] == s.operations[j];
      }
    }
  }

  lemma FinishKeeps(s: State, id: nat)
    requires Inv(s) && Enabled(s, Finish(id))
    ensures Inv(Do(s, Finish(id)))
  {
    var t := Do(s, Finish(id));
    FinishedKeeps(s, id, t);
    if HasWindow(s.watch) {
      DetectsFinished(s, id, t, s.watch.w);
    }
  }

  lemma StepKeeps(s: State, step: Step)
    requires Inv(s)
    ensures Inv(Do(s, step))
  {
    if Enabled(s, step) {
      match step
      case Record => RecordKeeps(s, step);
      case RecordKill => RecordKeeps(s, step);
      case Finish(id) => FinishKeeps(s, id);
      case ReadHistory => ReadHistoryKeeps(s);
      case CompareHistory => CompareHistoryKeeps(s);
      case _ =>
        if OfTick(step) {
          TickKeeps(s, step);
        } else {
          OthersKeep(s, step);
        }
    }
  }

  lemma {:induction false} RunKeeps(steps: seq<Step>)
    ensures Inv(Run(Start, steps))
    decreases |steps|
  {
    if steps != [] {
      RunKeeps(steps[..|steps| - 1]);
      StepKeeps(Run(Start, steps[..|steps| - 1]), steps[|steps| - 1]);
    }
  }

  // ----- The main results

  /** In every run, if the tick keeps its observation then no client mutation has been carried out at any
      moment from the snapshot of the history until now, while the tick still has the permit to plan with. */
  lemma KeptMeansUncrossed(steps: seq<Step>)
    ensures var s := Run(Start, steps);
            s.watch.Decided? && !s.watch.busy ==>
              && s.watch.kept && s.holder.Tick?
              && forall i | 0 <= i < |s.operations| && !s.operations[i].kill ::
                   !Overlaps(s.operations[i], s.watch.w.openedAt, s.time)
  {
    RunKeeps(steps);
  }

  /** A kill needs no permit. One that began or ended inside the window is always noticed; the one way to miss
      a kill is that it ran all through the window, while the room reported no operation at either end of it,
      and then a later operation had taken its place in the history and ended before the window began. */
  lemma MissedKillsSpan(steps: seq<Step>, i: nat)
    ensures var s := Run(Start, steps);
            s.watch.Decided? && s.watch.kept && i < |s.operations| ==>
              var o, w := s.operations[i], s.watch.w;
              && (Overlaps(o, w.openedAt, s.watch.closedAt) <==> o.kill && Spans(o, w, s.watch.closedAt))
              && (Overlaps(o, w.openedAt, s.watch.closedAt) ==> OverwrittenBefore(s, w, i))
              && RoomIdle(s.watch)
  {
    RunKeeps(steps);
    var s := Run(Start, steps);
    if s.watch.Decided? && s.watch.kept && i < |s.operations| {
      assert Uncrossed(s.operations[i], s.watch.w, s.watch.closedAt);
      if Overlaps(s.operations[i], s.watch.w.openedAt, s.watch.closedAt) {
        assert UnseenAt(s, s.watch.w, i);
      }
    }
  }

  /** No kill or scheduled closing was signalled in the window either, short of a full turn of the counter. */
  lemma KeptMeansUnsignalled(steps: seq<Step>)
    ensures var s := Run(Start, steps);
            s.watch.Decided? && s.watch.kept ==>
              && s.watch.w.signals <= s.watch.heard
              && (s.watch.heard - s.watch.w.signals < WRAP ==> s.watch.heard == s.watch.w.signals)
  {
    RunKeeps(steps);
    var s := Run(Start, steps);
    if s.watch.Decided? && s.watch.kept && s.watch.heard - s.watch.w.signals < WRAP {
      SameRemainder(s.watch.w.signals, s.watch.heard);
    }
  }

  lemma SameRemainder(a: nat, b: nat)
    requires a <= b < a + WRAP && a % WRAP == b % WRAP
    ensures a == b
  {}

  /** What a caller could check at the snapshot: if no kill that runs then has been overwritten in the history by an
      operation that has ended, a kept observation overlaps no client operation at all. */
  lemma NoneMissedWithoutOverwriting(steps: seq<Step>)
    ensures var s := Run(Start, steps);
            && s.watch.Decided? && s.watch.kept
            && (forall i | 0 <= i < |s.operations| && s.operations[i].kill && UnseenAt(s, s.watch.w, i) ::
                  !OverwrittenBefore(s, s.watch.w, i)) ==>
              forall i | 0 <= i < |s.operations| ::
                !Overlaps(s.operations[i], s.watch.w.openedAt, s.watch.closedAt)
  {
    var s := Run(Start, steps);
    if s.watch.Decided? && s.watch.kept {
      forall i | 0 <= i < |s.operations| && Overlaps(s.operations[i], s.watch.w.openedAt, s.watch.closedAt)
        ensures s.operations[i].kill && UnseenAt(s, s.watch.w, i) && OverwrittenBefore(s, s.watch.w, i)
      {
        MissedKillsSpan(steps, i);
      }
    }
  }

  // ----- Policy actions

  /** Policy actions hold the permit one after the other. */
  ghost predicate ActionsOk(s: State) {
    && (forall i | 0 <= i < |s.actions| ::
          && s.actions[i].taken < s.time
          && (s.actions[i].dropped.Some? ==> s.actions[i].taken < s.actions[i].dropped.value < s.time)
          && (s.actions[i].dropped.None? ==> i == |s.actions| - 1 && s.holder.PolicyAction?))
    && (s.holder.PolicyAction? ==> s.actions != [] && s.actions[|s.actions| - 1].dropped.None?)
  }

  predicate Chosen(watch: Watch) {
    watch.Observed? || Trying(watch)
  }

  /** No action had the permit when the inputs were chosen, and none has it since the tick took it. */
  ghost predicate ActionsSeen(s: State) {
    && (Chosen(s.watch) ==> s.watch.w.openedAt < s.chosenAt < s.time)
    && (Chosen(s.watch) && !s.watch.busy ==>
          forall i | 0 <= i < |s.actions| :: Before(s.actions[i], s.chosenAt) || s.actions[i].taken > s.chosenAt)
    && (Trying(s.watch) && s.watch.owned ==>
          && s.chosenAt < s.triedAt < s.time
          && forall i | 0 <= i < |s.actions| :: Before(s.actions[i], s.triedAt))
  }

  predicate Before(a: Holding, time: nat) {
    a.dropped.Some? && a.dropped.value < time
  }

  predicate OfPolicy(step: Step) {
    step.TakeForPolicy? || step.DropByPolicy? || (step.HandOver? && step.action)
  }

  lemma TakenOk(s: State)
    requires ActionsOk(s) && !s.holder.PolicyAction?
    ensures ActionsOk(Taken(s).(time := s.time + 1))
  {
    assert forall i | 0 <= i < |s.actions| :: Taken(s).actions[i] == s.actions[i];
  }

  lemma DroppedOk(s: State)
    requires ActionsOk(s) && s.holder.PolicyAction?
    ensures ActionsOk(Do(s, DropByPolicy))
  {
    assert forall i | 0 <= i < |s.actions| - 1 :: Dropped(s.actions, s.time)[i] == s.actions[i];
  }

  lemma ActionStep(s: State, step: Step)
    requires Inv(s) && ActionsOk(s) && Enabled(s, step)
    ensures ActionsOk(Do(s, step))
  {
    match step
    case TakeForPolicy => TakenOk(s);
    case DropByPolicy => DroppedOk(s);
    case HandOver(action) =>
      if action && s.watch.owned {
        TakenOk(s.(watch := Resting));
      }
    case _ => assert Do(s, step).actions == s.actions;
  }

  /** The permit passes from one action to the next while the tick observes. */
  lemma PassedOn(s: State, step: Step)
    requires Inv(s) && ActionsOk(s) && ActionsSeen(s) && Enabled(s, step) && OfPolicy(step)
    ensures ActionsSeen(Do(s, step))
  {
    var t := Do(s, step);
    if step.TakeForPolicy? {
      assert forall i | 0 <= i < |s.actions| :: t.actions[i] == s.actions[i];
    } else if step.DropByPolicy? {
      assert forall i | 0 <= i < |s.actions| - 1 :: t.actions[i] == s.actions[i];
    }
  }

  /** The moments at which the tick looks at the permit. */
  lemma Looked(s: State, step: Step)
    requires Inv(s) && ActionsOk(s) && ActionsSeen(s) && Enabled(s, step) && (step.ChooseInputs? || step.TryPermit?)
    ensures ActionsSeen(Do(s, step))
  {
    assert Do(s, step).actions == s.actions;
  }

  lemma SeenStep(s: State, step: Step)
    requires Inv(s) && ActionsOk(s) && ActionsSeen(s) && Enabled(s, step)
    ensures ActionsSeen(Do(s, step))
  {
    if OfPolicy(step) {
      PassedOn(s, step);
    } else if step.ChooseInputs? || step.TryPermit? {
      Looked(s, step);
    } else if OfTick(step) {
      TickUnmoved(s, step);
    } else {
      Unmoved(s, step);
    }
  }

  lemma TickUnmoved(s: State, step: Step)
    requires Inv(s) && ActionsSeen(s) && Enabled(s, step) && OfTick(step) && !OfPolicy(step)
    requires !step.ChooseInputs? && !step.TryPermit?
    ensures ActionsSeen(Do(s, step))
  {
    assert Do(s, step).actions == s.actions;
  }

  lemma Unmoved(s: State, step: Step)
    requires ActionsSeen(s) && Enabled(s, step) && !OfTick(step) && !OfPolicy(step)
    ensures ActionsSeen(Do(s, step))
  {
    assert Do(s, step).actions == s.actions && Do(s, step).watch == s.watch;
  }

  lemma {:induction false} RunActions(steps: seq<Step>)
    ensures ActionsOk(Run(Start, steps)) && ActionsSeen(Run(Start, steps))
    decreases |steps|
  {
    if steps != [] {
      var s, step := Run(Start, steps[..|steps| - 1]), steps[|steps| - 1];
      RunActions(steps[..|steps| - 1]);
      RunKeeps(steps[..|steps| - 1]);
      if Enabled(s, step) {
        ActionStep(s, step);
        SeenStep(s, step);
      }
    }
  }

  /** A policy action that overlaps the window of non-busy inputs had dropped the permit before the inputs were chosen,
      or it took and dropped the permit between that moment and the tick's own taking it. */
  lemma PolicyActionsOutside(steps: seq<Step>, i: nat)
    ensures var s := Run(Start, steps);
            s.watch.Decided? && !s.watch.busy && i < |s.actions| ==>
              && s.watch.w.openedAt < s.chosenAt < s.triedAt < s.time
              && (|| Before(s.actions[i], s.chosenAt)
                  || (s.chosenAt < s.actions[i].taken && Before(s.actions[i], s.triedAt)))
  {
    RunActions(steps);
    RunKeeps(steps);
  }

  /** Two runs, one after the other. */
  lemma {:induction false} RunSplit(s: State, a: seq<Step>, b: seq<Step>)
    ensures Run(s, a + b) == Run(Run(s, a), b)
    decreases |b|
  {
    if b == [] {
      assert a + b == a;
    } else {
      var k := |b| - 1;
      assert (a + b)[..|a + b| - 1] == a + b[..k];
      RunSplit(s, a, b[..k]);
    }
  }

  lemma RunTwo(s: State, first: Step, second: Step)
    ensures Run(s, [first, second]) == Do(Do(s, first), second)
  {
    assert [first, second][..1] == [first] && [first][..0] == [];
    assert Run(s, [first]) == Do(Run(s, []), first);
  }

  /** A kill is entered in the history, and a mutation takes its place there and ends. */
  const Kill := [Signal, RecordKill]
  const Overwrite := [Enter, Record] + [Finish(1), Release]

  /** The tick then sees nothing. */
  const Snapshot := [ReadRevision, ReadHistory] + [ReadRoom, ChooseInputs]
  const Comparison := [TryPermit, ReadRoomAgain] + [CompareHistory, CompareRevision]
  const MissedKill := Kill + Overwrite + Snapshot + Comparison

  function AfterKill(): State {
    State(2, [Operation(true, 1, None)], Some(0), None, Nobody, 1, RoomStatus(None, 0), Resting, [], 0, 0)
  }

  function AfterOverwrite(): State {
    State(6, [Operation(true, 1, None), Operation(false, 3, Some(4))], None, Some(1), Nobody, 1, RoomStatus(None, 0),
          Resting, [], 0, 0)
  }

  function AfterSnapshot(): State {
    AfterOverwrite().(time := 10, chosenAt := 9,
                      watch := Observed(Window(1, 1, None, Some(1), 7), RoomStatus(None, 0), false))
  }

  lemma OverwriteRuns()
    ensures Run(AfterKill(), Overwrite) == AfterOverwrite()
  {
    RunSplit(AfterKill(), [Enter, Record], [Finish(1), Release]);
    RunTwo(AfterKill(), Enter, Record);
    var s := State(4, [Operation(true, 1, None), Operation(false, 3, None)], Some(1), None, Client(1), 1,
                   RoomStatus(None, 0), Resting, [], 0, 0);
    assert Do(Do(AfterKill(), Enter), Record) == s;
    RunTwo(s, Finish(1), Release);
  }

  lemma SnapshotRuns()
    ensures Run(AfterOverwrite(), Snapshot) == AfterSnapshot()
  {
    RunSplit(AfterOverwrite(), [ReadRevision, ReadHistory], [ReadRoom, ChooseInputs]);
    RunTwo(AfterOverwrite(), ReadRevision, ReadHistory);
    var s := AfterOverwrite().(time := 8, watch := HasHistory(Window(1, 1, None, Some(1), 7)));
    assert Do(Do(AfterOverwrite(), ReadRevision), ReadHistory) == s;
    RunTwo(s, ReadRoom, ChooseInputs);
  }

  lemma ComparisonRuns()
    ensures Run(AfterSnapshot(), Comparison)
            == AfterOverwrite().(time := 14, holder := Tick, chosenAt := 9, triedAt := 10,
                                 watch := Decided(Window(1, 1, None, Some(1), 7), RoomStatus(None, 0),
                                                  RoomStatus(None, 0), true, true, false, 12, 1))
  {
    RunSplit(AfterSnapshot(), [TryPermit, ReadRoomAgain], [CompareHistory, CompareRevision]);
    RunTwo(AfterSnapshot(), TryPermit, ReadRoomAgain);
    var watch := SeenRoom(Window(1, 1, None, Some(1), 7), RoomStatus(None, 0), false, true, RoomStatus(None, 0));
    var s := AfterOverwrite().(time := 12, holder := Tick, watch := watch, chosenAt := 9, triedAt := 10);
    assert Do(Do(AfterSnapshot(), TryPermit), ReadRoomAgain) == s;
    RunTwo(s, CompareHistory, CompareRevision);
  }

  lemma AKillCanBeMissed()
    ensures var s := Run(Start, MissedKill);
            && s.watch.Decided? && s.watch.kept && !s.watch.busy
            && |s.operations| == 2 && s.operations[0].kill
            && Overlaps(s.operations[0], s.watch.w.openedAt, s.watch.closedAt)
  {
    RunTwo(Start, Signal, RecordKill);
    assert Run(Start, Kill) == AfterKill();
    RunSplit(Start, Kill, Overwrite);
    OverwriteRuns();
    RunSplit(Start, Kill + Overwrite, Snapshot);
    SnapshotRuns();
    RunSplit(Start, Kill + Overwrite + Snapshot, Comparison);
    ComparisonRuns();
  }

  /** An action slips in between, and the observation is kept. */
  const SlippedIn := Snapshot + [TakeForPolicy, DropByPolicy] + Comparison

  function Watching(): State {
    Start.(time := 4, chosenAt := 3, watch := Observed(Window(0, 0, None, None, 1), RoomStatus(None, 0), false))
  }

  lemma WatchingRuns()
    ensures Run(Start, Snapshot) == Watching()
  {
    RunSplit(Start, [ReadRevision, ReadHistory], [ReadRoom, ChooseInputs]);
    RunTwo(Start, ReadRevision, ReadHistory);
    var s := Start.(time := 2, watch := HasHistory(Window(0, 0, None, None, 1)));
    assert Do(Do(Start, ReadRevision), ReadHistory) == s;
    RunTwo(s, ReadRoom, ChooseInputs);
  }

  function SlippedBy(): State {
    Watching().(time := 6, actions := [Holding(4, Some(5))])
  }

  function ReadAgain(): State {
    SlippedBy().(time := 8, holder := Tick, triedAt := 6,
                 watch := SeenRoom(Window(0, 0, None, None, 1), RoomStatus(None, 0), false, true, RoomStatus(None, 0)))
  }

  lemma ReadAgainRuns()
    ensures Run(SlippedBy(), [TryPermit, ReadRoomAgain]) == ReadAgain()
  {
    RunTwo(SlippedBy(), TryPermit, ReadRoomAgain);
  }

  lemma KeptRuns()
    ensures var t := Run(SlippedBy(), Comparison);
            && t.watch.Decided? && !t.watch.busy
            && t.chosenAt == 3 && t.triedAt == 6 && t.actions == [Holding(4, Some(5))]
  {
    RunSplit(SlippedBy(), [TryPermit, ReadRoomAgain], [CompareHistory, CompareRevision]);
    ReadAgainRuns();
    RunTwo(ReadAgain(), CompareHistory, CompareRevision);
  }

  lemma AnActionCanSlipIn()
    ensures var s := Run(Start, SlippedIn);
            && s.watch.Decided? && !s.watch.busy && |s.actions| == 1
            && s.chosenAt < s.actions[0].taken && Before(s.actions[0], s.triedAt)
  {
    WatchingRuns();
    RunSplit(Start, Snapshot, [TakeForPolicy, DropByPolicy]);
    RunTwo(Watching(), TakeForPolicy, DropByPolicy);
    assert Run(Start, Snapshot + [TakeForPolicy, DropByPolicy]) == SlippedBy();
    RunSplit(Start, Snapshot + [TakeForPolicy, DropByPolicy], Comparison);
    KeptRuns();
  }
}
