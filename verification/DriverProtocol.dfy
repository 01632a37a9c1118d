/** The driver and the game together, in every interleaving of workers, pump, stop and game.

    A worker runs `execute`: it takes the native-command lock, installs its record, writes the frame,
    waits for its channel or its deadline, and goes round again only after an unaccepted Busy. */
module DriverProtocol {
  import opened Options
  import opened DriverShared
  import opened NativeGame

  datatype Phase = Installing | Sending | Wrote | Listening | Sleeping

  datatype Holder =
    | Free
    | Worker(id: RequestId, operation: Method, generation: nat, phase: Phase, channel: Channel)
    | Stopper

  datatype Request = Request(operation: Method, generation: nat)

  /** `wrote` says whether the frame of the request in the slot has been written; `seen` are the
      frames whose acceptance the driver has read. Both are history. */
  datatype System = System(
    shared: Shared, game: Game, queued: map<RequestId, Request>, holder: Holder,
    answers: map<RequestId, Outcome>, wrote: bool, seen: set<nat>)

  const Start := System(Fresh, Booted, map[], Free, map[], false, {})

  datatype Step =
    | Submit(id: RequestId, request: Request)
    | DispatchTimeout(id: RequestId)
    | Acquire(id: RequestId)
    | TryInstall
    | WriteFrame
    | SendFails(arrived: bool)
    | NoteWritten
    | Receive
    | GiveUp
    | Wake
    | SleepTimeout
    | RequestStop
    | AcquireForStop
    | WriteShutdown
    | AbandonStop
    | GameMoves(act: Act)
    | PumpReply
    | PumpOther(event: Event)

  predicate InPhase(s: System, phase: Phase) {
    s.holder.Worker? && s.holder.phase == phase
  }

  predicate Known(s: System, id: RequestId) {
    id in s.queued || id in s.answers || (s.holder.Worker? && s.holder.id == id)
  }

  /** Lines that the pump handles besides the reply stream, in any order relative to it. */
  predicate SideEvent(event: Event) {
    || event.BootstrapLine? || event.ControlLine? || event.LifecycleLine? || event.TelemetryFrame?
    || event.Fail? || event.PumpEnd?
  }

  predicate Enabled(s: System, step: Step) {
    match step
    case Submit(id, _) => !Known(s, id)
    case DispatchTimeout(id) => id in s.queued
    case Acquire(id) => id in s.queued && s.holder.Free?
    case TryInstall => InPhase(s, Installing)
    case WriteFrame => InPhase(s, Sending) && PipeEmpty(s.game)
    case SendFails(arrived) => InPhase(s, Sending) && (arrived ==> PipeEmpty(s.game))
    case NoteWritten => InPhase(s, Wrote)
    case Receive => InPhase(s, Listening) && s.holder.channel in s.shared.slot.mail
    case GiveUp => InPhase(s, Listening)
    case Wake => InPhase(s, Sleeping)
    case SleepTimeout => InPhase(s, Sleeping)
    case RequestStop => true
    case AcquireForStop => s.holder.Free? && s.shared.status.stopRequested
    case WriteShutdown => s.holder.Stopper? && PipeEmpty(s.game)
    case AbandonStop => s.holder.Stopper?
    case GameMoves(act) => CanAct(s.game, act)
    case PumpReply => s.shared.status.running && s.game.replies != []
    case PumpOther(event) => s.shared.status.running && SideEvent(event)
  }

  function Answered(s: System, outcome: Outcome): System
    requires s.holder.Worker?
  {
    s.(answers := s.answers[s.holder.id := outcome], holder := Free)
  }

  function Expired(s: System): System
    requires s.holder.Worker?
  {
    Answered(s, ExpireAnswer(s.shared, s.holder.id)).(shared := ExpireStep(s.shared, s.holder.id))
  }

  function Sent(s: System): System
    requires s.holder.Worker?
  {
    s.(game := Write(s.game, Command(s.holder.id, s.holder.generation)), wrote := true,
       holder := s.holder.(phase := Wrote))
  }

  /** `execute` goes round again on Busy without acceptance and returns every other answer. */
  predicate Retries(outcome: Outcome) {
    outcome.Failure? && outcome.error.code == Busy && !outcome.error.accepted
  }

  function ReplyEvent(reply: Reply): Event {
    match reply
    case Tagged(_, response) => RpcLine(response)
    case Marker(_, busy) => Barrier(busy)
  }

  function Do(s: System, step: Step): System
    requires Shaped(s.game) && Enabled(s, step)
  {
    match step
    case Submit(id, request) => s.(queued := s.queued[id := request])
    case DispatchTimeout(id) =>
      s.(queued := s.queued - {id}, answers := s.answers[id := PlainError(Timeout)])
    case Acquire(id) =>
      s.(queued := s.queued - {id},
         holder := Worker(id, s.queued[id].operation, s.queued[id].generation, Installing, 0))
    case TryInstall =>
      if !CanInstall(s.shared, s.holder.generation) then Answered(s, PlainError(NotReady))
      else s.(shared := InstallStep(s.shared, s.holder.id, s.holder.operation, s.holder.generation),
              holder := s.holder.(phase := Sending, channel := s.shared.slot.channels), wrote := false)
    case WriteFrame => Sent(s)
    case SendFails(arrived) => Expired(if arrived then Sent(s) else s)
    case NoteWritten => s.(shared := MarkWrittenStep(s.shared), holder := s.holder.(phase := Listening))
    case Receive =>
      var outcome := s.shared.slot.mail[s.holder.channel];
      if Retries(outcome) then s.(holder := s.holder.(phase := Sleeping)) else Answered(s, outcome)
    case GiveUp => Expired(s)
    case Wake => s.(holder := s.holder.(phase := Installing))
    case SleepTimeout => Answered(s, PlainError(Timeout))
    case RequestStop => s.(shared := StopStep(s.shared))
    case AcquireForStop => s.(holder := Stopper)
    case WriteShutdown => s.(game := Write(s.game, Shutdown), holder := Free)
    case AbandonStop => s.(holder := Free)
    case GameMoves(act) => s.(game := Act1(s.game, act))
    case PumpReply =>
      s.(shared := Apply(s.shared, ReplyEvent(s.game.replies[0])),
         game := Consume(s.game), seen := SeenAfter(s.game, s.seen))
    case PumpOther(event) => s.(shared := Apply(s.shared, event))
  }

  // ----- Facts about one request

  ghost predicate Is(g: Game, n: int, id: RequestId) {
    0 <= n < |g.log| && g.log[n].Command? && g.log[n].id == id
  }

  /** Every frame of this request was refused with Busy. */
  ghost predicate AllBusied(g: Game, id: RequestId)
    requires Shaped(g)
  {
    forall n | Is(g, n, id) :: g.fate[n] == Busied
  }

  ghost predicate OthersBusied(g: Game, id: RequestId, last: int)
    requires Shaped(g)
  {
    forall n | Is(g, n, id) && n != last :: g.fate[n] == Busied
  }

  /** At most one frame of this request escaped Busy, hence at most one was executed. */
  ghost predicate Once(g: Game, id: RequestId)
    requires Shaped(g)
  {
    forall m, n | Is(g, m, id) && Is(g, n, id) && m != n :: g.fate[m] == Busied || g.fate[n] == Busied
  }

  predicate Certain(outcome: Outcome) {
    outcome.Success? || outcome.error.code != Unknown
  }

  /** A certain answer means that no frame of the request can still be executed; a certain refusal
      without acceptance means that none ever was; data come from a result with this id. */
  ghost predicate Sound(g: Game, id: RequestId, outcome: Outcome)
    requires Shaped(g)
  {
    && (Certain(outcome) ==> forall n | Is(g, n, id) :: g.fate[n] != Waiting)
    && (Certain(outcome) && outcome.Failure? && !outcome.error.accepted ==>
          forall n | Is(g, n, id) :: g.fate[n] != Executed)
    && (outcome.Success? ==> (id, outcome.data) in g.produced)
  }

  // ----- The invariant

  ghost predicate Stopped(s: System) {
    Shutdown in s.game.log
  }

  ghost predicate SlotOk(s: System, p: Pending)
    requires Shaped(s.game)
  {
    var g, last := s.game, |s.game.log| - 1;
    && (s.wrote ==>
          && 0 <= last && g.log[last] == Command(p.record.id, p.record.generation)
          && OthersBusied(g, p.record.id, last)
          && (last in s.seen ==> p.record.accepted))
    && (!s.wrote ==> AllBusied(g, p.record.id))
    && (p.synchronized ==> if s.wrote then OnlyLast(g) else Quiet(g))
    && (p.result.Some? ==> s.wrote && !Retries(p.result.value) && Sound(g, p.record.id, p.result.value))
  }

  /** While the game runs and no shutdown was sent, a free slot means that nothing is in flight, and a
      synchronized request means that nothing but its own frame is. */
  ghost predicate Correlated(s: System)
    requires Shaped(s.game)
  {
    s.shared.status.running && !Stopped(s) ==>
      if s.shared.slot.active.None? then Quiet(s.game) else SlotOk(s, s.shared.slot.active.value)
  }

  ghost predicate MailSound(s: System)
    requires Shaped(s.game) && s.holder.Worker?
  {
    s.holder.channel in s.shared.slot.mail ==>
      var outcome := s.shared.slot.mail[s.holder.channel];
      if Retries(outcome) then AllBusied(s.game, s.holder.id) else Sound(s.game, s.holder.id, outcome)
  }

  ghost predicate Dispatched(s: System) {
    s.holder.Worker? && (s.holder.phase.Sending? || s.holder.phase.Wrote? || s.holder.phase.Listening?)
  }

  ghost predicate HolderOk(s: System)
    requires Shaped(s.game)
  {
    s.holder.Worker? ==>
      && s.holder.id !in s.queued && s.holder.id !in s.answers
      && (s.holder.phase.Installing? || s.holder.phase.Sleeping? || s.holder.phase.Sending? ==>
            AllBusied(s.game, s.holder.id))
      && (Dispatched(s) ==>
            && !Stopped(s) && Once(s.game, s.holder.id) && MailSound(s)
            && s.holder.channel < s.shared.slot.channels)
      && (s.holder.phase.Sending? ==>
            && !s.wrote
            && (s.holder.channel in s.shared.slot.mail ==> !Certain(s.shared.slot.mail[s.holder.channel]))
            && (s.shared.status.running ==>
                  && s.shared.slot.active.Some?
                  && s.shared.slot.active.value.record.id == s.holder.id
                  && s.shared.slot.active.value.record.generation == s.holder.generation))
  }

  /** The unused sender in the slot belongs to the worker that holds the lock. */
  ghost predicate SenderOk(s: System) {
    s.shared.slot.active.Some? && s.shared.slot.active.value.response.Some? ==>
      && Dispatched(s) && s.holder.id == s.shared.slot.active.value.record.id
      && s.holder.channel == s.shared.slot.active.value.response.value
  }

  ghost predicate Accounted(s: System)
    requires Shaped(s.game)
  {
    && (forall n, id | Is(s.game, n, id) :: id in s.answers || (s.holder.Worker? && s.holder.id == id))
    && (forall id | id in s.answers :: id !in s.queued && Once(s.game, id) && Sound(s.game, id, s.answers[id]))
  }

  ghost predicate SharedOk(s: Shared) {
    && ReadyInvariant(s.status) && MailInvariant(s.slot)
    && (!s.status.running ==> s.slot.active.None?)
  }

  ghost predicate Inv(s: System) {
    && GameOk(s.game) && AnnouncedFirst(s.game, s.seen)
    && SharedOk(s.shared)
    && (Stopped(s) || s.holder.Stopper? ==> s.shared.status.stopRequested)
    && Correlated(s) && HolderOk(s) && SenderOk(s) && Accounted(s)
  }

  // ----- What happens to a request's facts when the game's history grows

  ghost predicate NoNewFrame(g: Game, h: Game, id: RequestId) {
    forall n | |g.log| <= n :: !Is(h, n, id)
  }

  lemma FactsKept(g: Game, h: Game, id: RequestId)
    requires Shaped(g) && Shaped(h) && Extends(g, h) && NoNewFrame(g, h, id)
    ensures AllBusied(g, id) ==> AllBusied(h, id)
    ensures Once(g, id) ==> Once(h, id)
    ensures forall last | OthersBusied(g, id, last) :: OthersBusied(h, id, last)
    ensures forall outcome | Sound(g, id, outcome) :: Sound(h, id, outcome)
  {
    forall n | Is(h, n, id) ensures Is(g, n, id) {}
  }

  // ----- Every step keeps the invariant

  lemma SharedKept(s: Shared, event: Event)
    requires SharedOk(s)
    ensures SharedOk(Apply(s, event)) && MailKept(s.slot, Apply(s, event).slot)
    ensures s.status.stopRequested ==> Apply(s, event).status.stopRequested
  {
    EventProgress(s, event);
    MailStep(s, event);
    EndedStep(s, event);
  }

  lemma QueueKeeps(s: System, step: Step)
    requires Inv(s) && Enabled(s, step)
    requires step.Submit? || step.DispatchTimeout? || step.Acquire?
    ensures Inv(Do(s, step))
  {}

  lemma RefusedKeeps(s: System)
    requires Inv(s) && Enabled(s, TryInstall) && !CanInstall(s.shared, s.holder.generation)
    ensures Inv(Answered(s, PlainError(NotReady)))
  {}

  lemma InstalledKeeps(s: System)
    requires Inv(s) && Enabled(s, TryInstall) && CanInstall(s.shared, s.holder.generation)
    ensures Inv(Do(s, TryInstall))
  {
    SharedKept(s.shared, Install(s.holder.id, s.holder.operation, s.holder.generation));
  }

  lemma InstallKeeps(s: System)
    requires Inv(s) && Enabled(s, TryInstall)
    ensures Inv(Do(s, TryInstall))
  {
    if CanInstall(s.shared, s.holder.generation) {
      InstalledKeeps(s);
    } else {
      RefusedKeeps(s);
    }
  }

  lemma WriteKeeps(s: System)
    requires Inv(s) && InPhase(s, Sending) && PipeEmpty(s.game)
    ensures Inv(Sent(s))
  {
    var frame := Command(s.holder.id, s.holder.generation);
    WriteOk(s.game, frame);
    WriteAnnounced(s.game, frame, s.seen);
    var g, h := s.game, Write(s.game, frame);
    forall id | id in s.answers ensures Once(h, id) && Sound(h, id, s.answers[id]) {
      FactsKept(g, h, id);
    }
    forall n, id | Is(h, n, id) ensures id in s.answers || s.holder.id == id {
      if n < |g.log| {
        assert Is(g, n, id);
      }
    }
  }

  /** A request that is no longer in the slot ends with an unknown outcome. */
  lemma AbsentKeeps(s: System)
    requires Inv(s) && Dispatched(s) && !Holds(s.shared.slot, s.holder.id)
    ensures Inv(Answered(s, PlainError(Unknown)))
  {}

  lemma SettledKeeps(s: System, p: Pending)
    requires Inv(s) && Dispatched(s) && s.shared.slot.active == Some(p) && p.record.id == s.holder.id
    requires SharedOk(s.shared.(slot := Answer(s.shared.slot, p, Settled(p))))
    ensures Inv(Answered(s.(shared := s.shared.(slot := Answer(s.shared.slot, p, Settled(p)))), Settled(p)))
  {}

  lemma ExpireKeeps(s: System)
    requires Inv(s) && Dispatched(s)
    ensures Inv(Expired(s))
  {
    SharedKept(s.shared, Expire(s.holder.id));
    if Holds(s.shared.slot, s.holder.id) {
      SettledKeeps(s, s.shared.slot.active.value);
    } else {
      AbsentKeeps(s);
    }
  }

  lemma SendFailsKeeps(s: System, arrived: bool)
    requires Inv(s) && Enabled(s, SendFails(arrived))
    ensures Inv(Do(s, SendFails(arrived)))
  {
    if arrived {
      WriteKeeps(s);
      ExpireKeeps(Sent(s));
    } else {
      ExpireKeeps(s);
    }
  }

  lemma NoteKeeps(s: System)
    requires Inv(s) && Enabled(s, NoteWritten)
    ensures Inv(Do(s, NoteWritten))
  {
    SharedKept(s.shared, MarkWritten);
  }

  lemma ReceiveKeeps(s: System)
    requires Inv(s) && Enabled(s, Receive)
    ensures Inv(Do(s, Receive))
  {
    // A channel with mail is not the one in the slot, so the slot's sender is spent.
    assert s.shared.slot.active.Some? ==> s.shared.slot.active.value.response.None?;
    if Retries(s.shared.slot.mail[s.holder.channel]) {
      assert AllBusied(s.game, s.holder.id);
    }
  }

  lemma SleepKeeps(s: System, step: Step)
    requires Inv(s) && Enabled(s, step)
    requires step.Wake? || step.SleepTimeout?
    ensures Inv(Do(s, step))
  {}

  lemma StopKeeps(s: System)
    requires Inv(s)
    ensures Inv(Do(s, RequestStop))
  {
    SharedKept(s.shared, Stop);
  }

  lemma StopLockKeeps(s: System, step: Step)
    requires Inv(s) && Enabled(s, step) && (step.AcquireForStop? || step.AbandonStop?)
    ensures Inv(Do(s, step))
  {}

  lemma ShutdownKeeps(s: System)
    requires Inv(s) && Enabled(s, WriteShutdown)
    ensures Inv(Do(s, WriteShutdown))
  {
    WriteOk(s.game, Shutdown);
    WriteAnnounced(s.game, Shutdown, s.seen);
    var g, h := s.game, Write(s.game, Shutdown);
    forall id | id in s.answers ensures Once(h, id) && Sound(h, id, s.answers[id]) {
      FactsKept(g, h, id);
    }
    forall n, id | Is(h, n, id) ensures id in s.answers {
      assert Is(g, n, id);
    }
  }

  lemma GameFacts(g: Game, h: Game)
    requires Shaped(g) && Shaped(h) && Extends(g, h) && g.log == h.log
    ensures forall id | AllBusied(g, id) :: AllBusied(h, id)
    ensures forall id | Once(g, id) :: Once(h, id)
    ensures forall id, last | OthersBusied(g, id, last) :: OthersBusied(h, id, last)
    ensures forall id, outcome | Sound(g, id, outcome) :: Sound(h, id, outcome)
    ensures forall n, id :: Is(h, n, id) == Is(g, n, id)
  {
    forall id
      ensures AllBusied(g, id) ==> AllBusied(h, id)
      ensures Once(g, id) ==> Once(h, id)
      ensures forall last | OthersBusied(g, id, last) :: OthersBusied(h, id, last)
      ensures forall outcome | Sound(g, id, outcome) :: Sound(h, id, outcome)
    {
      FactsKept(g, h, id);
    }
  }

  lemma GameKeeps(s: System, act: Act)
    requires Inv(s) && CanAct(s.game, act)
    ensures Inv(Do(s, GameMoves(act)))
  {
    ActOk(s.game, act);
    ActAnnounced(s.game, act, s.seen);
    ActQuiet(s.game, act);
    GameFacts(s.game, Act1(s.game, act));
    GameReplaced(s, Act1(s.game, act));
  }

  /** The invariant in terms of what a move of the game leaves alone. */
  lemma GameReplaced(s: System, h: Game)
    requires Inv(s) && GameOk(h) && AnnouncedFirst(h, s.seen) && h.log == s.game.log
    requires Quiet(s.game) ==> Quiet(h)
    requires OnlyLast(s.game) ==> OnlyLast(h)
    requires forall id | AllBusied(s.game, id) :: AllBusied(h, id)
    requires forall id | Once(s.game, id) :: Once(h, id)
    requires forall id, last | OthersBusied(s.game, id, last) :: OthersBusied(h, id, last)
    requires forall id, outcome | Sound(s.game, id, outcome) :: Sound(h, id, outcome)
    requires forall n, id :: Is(h, n, id) == Is(s.game, n, id)
    ensures Inv(s.(game := h))
  {}

  /** The pump's other lines leave the slot alone, answer its request with Unknown, or end the run. */
  lemma SideEffect(s: Shared, event: Event)
    requires SideEvent(event) && !event.PumpEnd?
    ensures Apply(s, event).slot == s.slot || Apply(s, event).slot == AnswerUnknown(s.slot)
    ensures Apply(s, event).status.running == s.status.running
  {}

  lemma SideKeeps(s: System, event: Event)
    requires Inv(s) && Enabled(s, PumpOther(event)) && !event.PumpEnd?
    ensures Inv(Do(s, PumpOther(event)))
  {
    SharedKept(s.shared, event);
    SideEffect(s.shared, event);
    SlotAnswered(s, Apply(s.shared, event));
  }

  /** Replacing the shared state by one whose slot is unchanged or answered with Unknown. */
  lemma SlotAnswered(s: System, t: Shared)
    requires Inv(s) && SharedOk(t) && t.status.running == s.shared.status.running
    requires s.shared.status.stopRequested ==> t.status.stopRequested
    requires t.slot == s.shared.slot || t.slot == AnswerUnknown(s.shared.slot)
    ensures Inv(s.(shared := t))
  {}

  lemma EndKeeps(s: System, problem: Option<string>)
    requires Inv(s) && Enabled(s, PumpOther(PumpEnd(problem)))
    ensures Inv(Do(s, PumpOther(PumpEnd(problem))))
  {
    SharedKept(s.shared, PumpEnd(problem));
  }

  // ----- Reading a reply

  /** Reading a line that leaves the slot alone. */
  lemma SkipKeeps(s: System, t: Shared)
    requires Inv(s) && s.game.replies != [] && s.shared.status.running
    requires t.status == s.shared.status && t.slot == s.shared.slot
    requires s.game.replies[0].Marker? || !Holds(s.shared.slot, s.game.log[s.game.replies[0].serial].id)
    ensures Inv(s.(shared := t, game := Consume(s.game), seen := SeenAfter(s.game, s.seen)))
  {
    ReadKeeps(s);
  }

  /** The facts about requests do not depend on the replies still in flight. */
  lemma ReadKeeps(s: System)
    requires Inv(s) && s.game.replies != []
    ensures var h := Consume(s.game);
            && GameOk(h) && AnnouncedFirst(h, SeenAfter(s.game, s.seen))
            && h.log == s.game.log && h.fate == s.game.fate && h.produced == s.game.produced
            && (OnlyLast(s.game) ==> OnlyLast(h))
            && ReplyOk(s.game, s.game.replies[0])
            && (forall id :: AllBusied(s.game, id) == AllBusied(h, id) && Once(s.game, id) == Once(h, id))
            && (forall id, last :: OthersBusied(s.game, id, last) == OthersBusied(h, id, last))
            && (forall id, outcome :: Sound(s.game, id, outcome) == Sound(h, id, outcome))
            && (forall n, id :: Is(s.game, n, id) == Is(h, n, id))
  {
    ConsumeOk(s.game);
    ConsumeAnnounced(s.game, s.seen);
    var g, h := s.game, Consume(s.game);
    assert forall n, id :: Is(g, n, id) == Is(h, n, id);
  }

  lemma MarkerKeeps(s: System)
    requires Inv(s) && Enabled(s, PumpReply) && s.game.replies[0].Marker?
    ensures Inv(Do(s, PumpReply))
  {
    var busy := s.game.replies[0].busy;
    var t := Apply(s.shared, Barrier(busy));
    SharedKept(s.shared, Barrier(busy));
    if t.slot == s.shared.slot {
      SkipKeeps(s, t);
    } else {
      ReadKeeps(s);
      ReleaseKeeps(s, s.shared.slot.active.value, busy);
    }
  }

  /** A marker that frees the slot belongs to the frame of the request in it. */
  lemma ReleaseKeeps(s: System, p: Pending, busy: bool)
    requires Inv(s) && Enabled(s, PumpReply) && s.game.replies[0] == Marker(s.game.replies[0].serial, busy)
    requires s.shared.slot.active == Some(p) && p.synchronized
    requires Apply(s.shared, Barrier(busy)).slot.active.None?
    ensures Inv(Do(s, PumpReply))
  {
    SharedKept(s.shared, Barrier(busy));
    ReadKeeps(s);
    var outcome := if busy then ErrorOf(p.record, Busy) else Settled(p);
    if !Stopped(s) {
      MarkerIsMine(s, p, busy);
    }
    Released(s, Consume(s.game), Apply(s.shared, Barrier(busy)), p, outcome);
  }

  lemma MarkerIsMine(s: System, p: Pending, busy: bool)
    requires Inv(s) && Enabled(s, PumpReply) && s.game.replies[0] == Marker(s.game.replies[0].serial, busy)
    requires s.shared.slot.active == Some(p) && p.synchronized && !Stopped(s)
    ensures Quiet(Consume(s.game)) && s.wrote
    ensures busy ==> AllBusied(s.game, p.record.id)
    ensures !busy ==> !Retries(Settled(p)) && Sound(s.game, p.record.id, Settled(p))
  {
    assert ReplyOk(s.game, s.game.replies[0]);
    ConsumedLast(s.game);
  }

  /** Freeing the slot with an answer that is right for its request. */
  lemma Released(s: System, h: Game, t: Shared, p: Pending, outcome: Outcome)
    requires Inv(s) && s.shared.slot.active == Some(p) && SharedOk(t)
    requires t.status == s.shared.status && t.slot == Release(s.shared.slot, p, outcome)
    requires s.game.replies != [] && h == Consume(s.game)
    requires GameOk(h) && AnnouncedFirst(h, SeenAfter(s.game, s.seen))
    requires !Stopped(s) ==> Quiet(h) && s.wrote
    requires !Stopped(s) ==>
               if Retries(outcome) then AllBusied(s.game, p.record.id) else Sound(s.game, p.record.id, outcome)
    requires forall id :: AllBusied(s.game, id) == AllBusied(h, id) && Once(s.game, id) == Once(h, id)
    requires forall id, outcome :: Sound(s.game, id, outcome) == Sound(h, id, outcome)
    requires forall n, id :: Is(s.game, n, id) == Is(h, n, id)
    ensures Inv(s.(shared := t, game := h, seen := SeenAfter(s.game, s.seen)))
  {}

  /** A tagged reply for the request in the slot comes from its last frame, the newest in the log. */
  lemma TaggedIsLast(s: System)
    requires Inv(s) && Enabled(s, PumpReply) && s.game.replies[0].Tagged? && !Stopped(s)
    requires Holds(s.shared.slot, s.game.log[s.game.replies[0].serial].id)
    ensures s.wrote && s.game.replies[0].serial == |s.game.log| - 1
    ensures OnlyLast(Consume(s.game))
  {
    var reply := s.game.replies[0];
    assert ReplyOk(s.game, reply);
    assert Is(s.game, reply.serial, s.shared.slot.active.value.record.id);
    ConsumedLast(s.game);
  }

  /** What one response does to the record it matches. */
  lemma ResponseFacts(p: Pending, response: RpcResponse, current: bool)
    ensures var (q, ok) := AfterResponse(p, response, current);
            && (p.record.accepted ==> q.record.accepted)
            && (Announces(response) && response.generation == Some(p.record.generation) ==> q.record.accepted)
            && (q.result != p.result ==>
                  && p.result.None? && q.result.Some? && !Retries(q.result.value)
                  && (q.result.value.Success? ==>
                        Yields(response) && response.result.value.data == Some(q.result.value.data))
                  && (q.result.value.Failure? && !q.result.value.error.accepted ==>
                        LooksRejected(response) && !p.record.accepted))
  {}

  /** The request in the slot after a response with its id, still without the failure path. */
  lemma MatchedSlot(s: System, p: Pending)
    requires Inv(s) && Enabled(s, PumpReply) && s.game.replies[0].Tagged? && !Stopped(s)
    requires s.shared.slot.active == Some(p)
    requires p.record.id == s.game.log[s.game.replies[0].serial].id
    ensures SlotOk(s.(game := Consume(s.game), seen := SeenAfter(s.game, s.seen)),
                   AfterResponse(p, s.game.replies[0].response, Current(s.shared.status, p)).0)
  {
    var g, h, response := s.game, Consume(s.game), s.game.replies[0].response;
    var last := |g.log| - 1;
    TaggedIsLast(s);
    ReadKeeps(s);
    AfterResponseKeeps(p, response, Current(s.shared.status, p));
    ResponseFacts(p, response, Current(s.shared.status, p));
    assert ReplyOk(g, g.replies[0]);
    var q := AfterResponse(p, response, Current(s.shared.status, p)).0;
    if last in SeenAfter(g, s.seen) && last !in s.seen {
      assert g.fate[last] == Executed;
    }
    if q.result != p.result {
      MatchedResult(s, p);
    }
  }

  lemma MatchedResult(s: System, p: Pending)
    requires Inv(s) && Enabled(s, PumpReply) && s.game.replies[0].Tagged? && !Stopped(s)
    requires s.shared.slot.active == Some(p)
    requires p.record.id == s.game.log[s.game.replies[0].serial].id
    requires AfterResponse(p, s.game.replies[0].response, Current(s.shared.status, p)).0.result != p.result
    ensures var q := AfterResponse(p, s.game.replies[0].response, Current(s.shared.status, p)).0;
            q.result.Some? && Sound(s.game, p.record.id, q.result.value)
  {
    var g, response, last := s.game, s.game.replies[0].response, |s.game.log| - 1;
    TaggedIsLast(s);
    ResponseFacts(p, response, Current(s.shared.status, p));
    assert ReplyOk(g, g.replies[0]);
    assert LooksRejected(response) && g.fate[last] == Executed ==> Announced(g, s.seen, last, 0);
  }

  lemma TaggedKeeps(s: System)
    requires Inv(s) && Enabled(s, PumpReply) && s.game.replies[0].Tagged?
    ensures Inv(Do(s, PumpReply))
  {
    var response := s.game.replies[0].response;
    assert ReplyOk(s.game, s.game.replies[0]);
    SharedKept(s.shared, RpcLine(response));
    ReadKeeps(s);
    if response.generation.None? {
      FailKeeps(s);
    } else if !Holds(s.shared.slot, response.id.value) {
      SkipKeeps(s, Apply(s.shared, RpcLine(response)));
    } else {
      MatchKeeps(s, s.shared.slot.active.value);
    }
  }

  lemma MalformedRead(s: System)
    requires Inv(s) && Enabled(s, PumpReply) && s.game.replies[0].Tagged? && s.game.replies[0].response.generation.None?
    ensures Inv(s.(game := Consume(s.game), seen := SeenAfter(s.game, s.seen)))
  {
    assert ReplyOk(s.game, s.game.replies[0]);
    if Holds(s.shared.slot, s.game.log[s.game.replies[0].serial].id) {
      RefusedRead(s);
    } else {
      SkipKeeps(s, s.shared);
    }
  }

  /** A reply without a generation comes from a rejected frame and announces nothing. */
  lemma RefusedRead(s: System)
    requires Inv(s) && Enabled(s, PumpReply) && s.game.replies[0].Tagged? && s.game.replies[0].response.generation.None?
    requires Holds(s.shared.slot, s.game.log[s.game.replies[0].serial].id)
    ensures Inv(s.(game := Consume(s.game), seen := SeenAfter(s.game, s.seen)))
  {
    ReadKeeps(s);
    if !Stopped(s) {
      TaggedIsLast(s);
    }
  }

  /** A reply with a malformed header makes the pump fail the driver. */
  lemma FailKeeps(s: System)
    requires Inv(s) && Enabled(s, PumpReply) && s.game.replies[0].Tagged? && s.game.replies[0].response.generation.None?
    ensures Inv(Do(s, PumpReply))
  {
    var response := s.game.replies[0].response;
    SharedKept(s.shared, RpcLine(response));
    MalformedRead(s);
    SlotAnswered(s.(game := Consume(s.game), seen := SeenAfter(s.game, s.seen)), FailStep(s.shared, "rpc header"));
  }

  function Matched(s: System, q: Pending): System
    requires s.game.replies != []
  {
    s.(shared := s.shared.(slot := s.shared.slot.(active := Some(q))),
       game := Consume(s.game), seen := SeenAfter(s.game, s.seen))
  }

  lemma MatchedOthers(s: System, p: Pending)
    requires Inv(s) && Enabled(s, PumpReply) && s.game.replies[0].Tagged?
    requires s.shared.slot.active == Some(p)
    ensures var m := Matched(s, AfterResponse(p, s.game.replies[0].response, Current(s.shared.status, p)).0);
            GameOk(m.game) && AnnouncedFirst(m.game, m.seen) && HolderOk(m) && SenderOk(m)
  {
    ReadKeeps(s);
    AfterResponseKeeps(p, s.game.replies[0].response, Current(s.shared.status, p));
  }

  lemma MatchedAccounted(s: System, q: Pending)
    requires Inv(s) && Enabled(s, PumpReply)
    ensures GameOk(Matched(s, q).game) && Accounted(Matched(s, q))
  {
    ReadKeeps(s);
  }

  lemma MatchedInv(s: System, p: Pending)
    requires Inv(s) && Enabled(s, PumpReply) && s.game.replies[0].Tagged?
    requires s.shared.slot.active == Some(p)
    requires p.record.id == s.game.log[s.game.replies[0].serial].id
    ensures Inv(Matched(s, AfterResponse(p, s.game.replies[0].response, Current(s.shared.status, p)).0))
  {
    MatchedOthers(s, p);
    MatchedAccounted(s, AfterResponse(p, s.game.replies[0].response, Current(s.shared.status, p)).0);
    AfterResponseKeeps(p, s.game.replies[0].response, Current(s.shared.status, p));
    if !Stopped(s) {
      MatchedSlot(s, p);
    }
  }

  lemma MatchKeeps(s: System, p: Pending)
    requires Inv(s) && Enabled(s, PumpReply) && s.game.replies[0].Tagged?
    requires s.game.replies[0].response.generation.Some?
    requires s.shared.slot.active == Some(p)
    requires p.record.id == s.game.log[s.game.replies[0].serial].id
    ensures Inv(Do(s, PumpReply))
  {
    var response := s.game.replies[0].response;
    var (q, ok) := AfterResponse(p, response, Current(s.shared.status, p));
    assert ReplyOk(s.game, s.game.replies[0]);
    MatchedInv(s, p);
    SharedKept(s.shared, RpcLine(response));
    MatchedSlots(s.shared, p, response);
    MatchShown(Matched(s, q), Apply(s.shared, RpcLine(response)), q, ok);
  }

  lemma MatchedSlots(s: Shared, p: Pending, response: RpcResponse)
    requires s.slot.active == Some(p) && response.generation.Some? && response.id == Some(p.record.id)
    ensures var (q, ok), t := AfterResponse(p, response, Current(s.status, p)), Apply(s, RpcLine(response));
            var slot := s.slot.(active := Some(q));
            && t.status.running == s.status.running && t.status.stopRequested == s.status.stopRequested
            && t.slot == if ok then slot.(recent := Some(q.record)) else AnswerUnknown(slot)
  {}

  /** The slot after a matched response: shown to readers, or settled as unknown. */
  lemma MatchShown(m: System, t: Shared, q: Pending, ok: bool)
    requires Inv(m) && SharedOk(t)
    requires t.status.running == m.shared.status.running && t.status.stopRequested == m.shared.status.stopRequested
    requires t.slot == if ok then m.shared.slot.(recent := Some(q.record)) else AnswerUnknown(m.shared.slot)
    ensures Inv(m.(shared := t))
  {
    if ok {
      RecordShown(m, t, q);
    } else {
      SlotAnswered(m, t);
    }
  }

  /** The record shown to readers and a change of health do not matter to the protocol. */
  lemma RecordShown(s: System, t: Shared, q: Pending)
    requires Inv(s) && SharedOk(t)
    requires t.status.running == s.shared.status.running && t.status.stopRequested == s.shared.status.stopRequested
    requires t.slot == s.shared.slot.(recent := Some(q.record))
    ensures Inv(s.(shared := t))
  {}

  predicate OfCaller(step: Step) {
    || step.Submit? || step.DispatchTimeout? || step.Acquire? || step.TryInstall? || step.WriteFrame?
    || step.SendFails? || step.NoteWritten? || step.Receive? || step.GiveUp? || step.Wake? || step.SleepTimeout?
  }

  lemma CallerKeeps(s: System, step: Step)
    requires Inv(s) && Enabled(s, step) && OfCaller(step)
    ensures Inv(Do(s, step))
  {
    match step
    case Submit(_, _) => QueueKeeps(s, step);
    case DispatchTimeout(_) => QueueKeeps(s, step);
    case Acquire(_) => QueueKeeps(s, step);
    case TryInstall => InstallKeeps(s);
    case WriteFrame => WriteKeeps(s);
    case SendFails(arrived) => SendFailsKeeps(s, arrived);
    case NoteWritten => NoteKeeps(s);
    case Receive => ReceiveKeeps(s);
    case GiveUp => ExpireKeeps(s);
    case Wake => SleepKeeps(s, step);
    case SleepTimeout => SleepKeeps(s, step);
  }

  lemma ReplyKeeps(s: System)
    requires Inv(s) && Enabled(s, PumpReply)
    ensures Inv(Do(s, PumpReply))
  {
    if s.game.replies[0].Marker? {
      MarkerKeeps(s);
    } else {
      TaggedKeeps(s);
    }
  }

  lemma LineKeeps(s: System, event: Event)
    requires Inv(s) && Enabled(s, PumpOther(event))
    ensures Inv(Do(s, PumpOther(event)))
  {
    if event.PumpEnd? {
      EndKeeps(s, event.problem);
    } else {
      SideKeeps(s, event);
    }
  }

  predicate OfStop(step: Step) {
    step.RequestStop? || step.AcquireForStop? || step.WriteShutdown? || step.AbandonStop?
  }

  lemma StopperKeeps(s: System, step: Step)
    requires Inv(s) && Enabled(s, step) && OfStop(step)
    ensures Inv(Do(s, step))
  {
    match step
    case RequestStop => StopKeeps(s);
    case WriteShutdown => ShutdownKeeps(s);
    case AcquireForStop => StopLockKeeps(s, step);
    case AbandonStop => StopLockKeeps(s, step);
  }

  lemma StepKeeps(s: System, step: Step)
    requires Inv(s) && Enabled(s, step)
    ensures Inv(Do(s, step))
  {
    if OfCaller(step) {
      CallerKeeps(s, step);
    } else if OfStop(step) {
      StopperKeeps(s, step);
    } else {
      match step
      case GameMoves(act) => GameKeeps(s, act);
      case PumpReply => ReplyKeeps(s);
      case PumpOther(event) => LineKeeps(s, event);
    }
  }

  // ----- Every run

  ghost predicate Reaches(s: System, steps: seq<Step>, t: System)
    decreases |steps|
  {
    if steps == [] then s == t
    else Shaped(s.game) && Enabled(s, steps[0]) && Reaches(Do(s, steps[0]), steps[1..], t)
  }

  lemma {:induction false} RunKeeps(s: System, steps: seq<Step>, t: System)
    requires Inv(s) && Reaches(s, steps, t)
    ensures Inv(t)
    decreases |steps|
  {
    if steps != [] {
      StepKeeps(s, steps[0]);
      RunKeeps(Do(s, steps[0]), steps[1..], t);
    }
  }

  /** At most once: whatever is lost, refused, expired, retried or reloaded, the game never executes
      two frames of one request. */
  lemma AtMostOnce(steps: seq<Step>, t: System, id: RequestId, m: nat, n: nat)
    requires Reaches(Start, steps, t)
    requires Is(t.game, m, id) && Is(t.game, n, id) && m != n
    ensures |t.game.fate| == |t.game.log|
    ensures !(t.game.fate[m] == Executed && t.game.fate[n] == Executed)
  {
    RunKeeps(Start, steps, t);
    assert id in t.answers || (t.holder.Worker? && t.holder.id == id);
    assert Once(t.game, id);
  }

  /** The answers that callers get are sound in every run. */
  lemma AnswersAreSound(steps: seq<Step>, t: System, id: RequestId)
    requires Reaches(Start, steps, t) && id in t.answers
    ensures Shaped(t.game) && Sound(t.game, id, t.answers[id])
    ensures t.answers[id].Success? ==> (id, t.answers[id].data) in t.game.produced
    ensures t.answers[id].Failure? && t.answers[id].error.code in {Timeout, NotReady, Busy, InvalidRequest}
            && !t.answers[id].error.accepted ==>
              forall n | Is(t.game, n, id) :: t.game.fate[n] != Executed && t.game.fate[n] != Waiting
  {
    RunKeeps(Start, steps, t);
  }

  lemma AnswerStays(s: System, step: Step, id: RequestId)
    requires Shaped(s.game) && Enabled(s, step)
    requires id in s.answers && id !in s.queued && !(s.holder.Worker? && s.holder.id == id)
    ensures id in Do(s, step).answers && Do(s, step).answers[id] == s.answers[id]
  {}

  lemma {:induction false} AnswersAreFinal(s: System, steps: seq<Step>, t: System, id: RequestId)
    requires Inv(s) && Reaches(s, steps, t) && id in s.answers
    ensures id in t.answers && t.answers[id] == s.answers[id]
    decreases |steps|
  {
    if steps != [] {
      StepKeeps(s, steps[0]);
      AnswerStays(s, steps[0], id);
      AnswersAreFinal(Do(s, steps[0]), steps[1..], t, id);
    }
  }

  /** An answer never changes, and it stays true in every continuation: after Timeout, or NotReady
      without acceptance, the game never executes the command. */
  lemma AnswersHoldForever(before: seq<Step>, s: System, after: seq<Step>, t: System, id: RequestId)
    requires Reaches(Start, before, s) && Reaches(s, after, t) && id in s.answers
    ensures id in t.answers && t.answers[id] == s.answers[id]
    ensures Shaped(t.game) && Sound(t.game, id, s.answers[id])
  {
    RunKeeps(Start, before, s);
    RunKeeps(s, after, t);
    AnswersAreFinal(s, after, t, id);
  }
}
