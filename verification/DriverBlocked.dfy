/** The limit of the driver's recovery: a pending response without a generation lets no later request be served. */
module DriverBlocked {
  import opened Options
  import opened DriverShared
  import opened NativeGame
  import opened DriverProtocol
  import opened DriverRecovery

  // ----- What a blocked driver's slot looks like

  /** The request in the slot waits on a channel created at or after number `k`. */
  ghost predicate Late(slot: Slot, k: Channel) {
    slot.active.Some? && slot.active.value.response.Some? && k <= slot.active.value.response.value
  }

  /** No such channel has been sent data, and its request has no result to send. */
  ghost predicate NoneServed(slot: Slot, k: Channel) {
    && (forall c | c in slot.mail && k <= c :: slot.mail[c].Failure?)
    && (Late(slot, k) ==> slot.active.value.result.None?)
  }

  ghost predicate Spent(slot: Slot) {
    slot.active.Some? ==> slot.active.value.response.None?
  }

  lemma AnsweredNone(slot: Slot, p: Pending, outcome: Outcome, k: Channel)
    requires NoneServed(slot, k) && slot.active == Some(p) && (outcome.Failure? || outcome == Settled(p))
    ensures NoneServed(Answer(slot, p, outcome), k) && NoneServed(Release(slot, p, outcome), k)
  {}

  lemma UnknownNone(slot: Slot, k: Channel)
    requires NoneServed(slot, k)
    ensures NoneServed(AnswerUnknown(slot), k) && Spent(AnswerUnknown(slot))
  {
    if slot.active.Some? {
      AnsweredNone(slot, slot.active.value, ErrorOf(slot.active.value.record, Unknown), k);
    }
  }

  /** A response for another request, without a generation, or for a request on an earlier channel. */
  ghost predicate Misses(slot: Slot, response: RpcResponse, k: Channel) {
    response.generation.None? || response.id.None? || !Holds(slot, response.id.value) || !Late(slot, k)
  }

  lemma RpcNone(s: Shared, response: RpcResponse, k: Channel)
    requires NoneServed(s.slot, k) && Misses(s.slot, response, k)
    ensures NoneServed(RpcStep(s, response).slot, k)
  {
    UnknownNone(s.slot, k);
    if response.generation.Some? && response.id.Some? && Holds(s.slot, response.id.value) {
      var p := s.slot.active.value;
      var q := AfterResponse(p, response, Current(s.status, p)).0;
      AfterResponseKeeps(p, response, Current(s.status, p));
      UnknownNone(s.slot.(active := Some(q)), k);
    }
  }

  lemma AnsweringNone(s: Shared, event: Event, k: Channel)
    requires NoneServed(s.slot, k) && (event.Expire? || event.Barrier? || event.PumpEnd?)
    ensures NoneServed(Apply(s, event).slot, k)
  {
    if s.slot.active.Some? {
      var p := s.slot.active.value;
      AnsweredNone(s.slot, p, Settled(p), k);
      AnsweredNone(s.slot, p, ErrorOf(p.record, Busy), k);
    }
  }

  lemma EventNone(s: Shared, event: Event, k: Channel)
    requires NoneServed(s.slot, k) && (event.RpcLine? ==> Misses(s.slot, event.response, k))
    ensures NoneServed(Apply(s, event).slot, k)
  {
    match event
    case RpcLine(response) => RpcNone(s, response, k);
    case Expire(_) => AnsweringNone(s, event, k);
    case Barrier(_) => AnsweringNone(s, event, k);
    case PumpEnd(_) => AnsweringNone(s, event, k);
    case BootstrapLine(_) => LineNone(s, event, k);
    case ControlLine(_) => LineNone(s, event, k);
    case LifecycleLine(_) => LineNone(s, event, k);
    case TelemetryFrame(_) => LineNone(s, event, k);
    case Fail(_) => LineNone(s, event, k);
    case _ =>
  }

  lemma LineNone(s: Shared, event: Event, k: Channel)
    requires NoneServed(s.slot, k) && SideEvent(event) && !event.PumpEnd?
    ensures NoneServed(Apply(s, event).slot, k)
  {
    UnknownNone(s.slot, k);
    SideEffect(s, event);
  }

  /** A failure answers the request in the slot, and no event puts another one there. */
  lemma FailedSpends(s: Shared, event: Event)
    requires ReadyInvariant(s.status) && (s.status.failure.Some? ==> Spent(s.slot))
    ensures Apply(s, event).status.failure.Some? ==> Spent(Apply(s, event).slot)
  {
    match event
    case RpcLine(response) => RpcSpends(s, response);
    case _ =>
  }

  lemma RpcSpends(s: Shared, response: RpcResponse)
    requires s.status.failure.Some? ==> Spent(s.slot)
    ensures RpcStep(s, response).status.failure.Some? ==> Spent(RpcStep(s, response).slot)
  {
    if response.generation.Some? && response.id.Some? && Holds(s.slot, response.id.value) {
      AfterResponseKeeps(s.slot.active.value, response, Current(s.status, s.slot.active.value));
    }
  }

  /** Only an installation makes a request wait on a new channel. */
  lemma LateBefore(s: Shared, event: Event, k: Channel)
    requires !event.Install? && Late(Apply(s, event).slot, k)
    ensures Late(s.slot, k)
  {
    match event
    case RpcLine(response) =>
      if response.generation.Some? && response.id.Some? && Holds(s.slot, response.id.value) {
        AfterResponseKeeps(s.slot.active.value, response, Current(s.status, s.slot.active.value));
      }
    case _ =>
  }

  // ----- What keeps a driver blocked

  ghost predicate Malformed(reply: Reply) {
    reply.Tagged? && reply.response.generation.None?
  }

  /** A malformed reply that will be read before any reply to a request on a later channel. */
  ghost predicate Blocks(s: System, reply: Reply, k: Channel) {
    && Malformed(reply) && reply.serial < |s.game.log|
    && (Late(s.shared.slot, k) && s.wrote ==> reply.serial < |s.game.log| - 1)
  }

  ghost predicate Blocked(s: System, k: Channel) {
    exists j :: 0 <= j < |s.game.replies| && Blocks(s, s.game.replies[j], k)
  }

  ghost predicate Barren(s: System, k: Channel) {
    && k <= s.shared.slot.channels && NoneServed(s.shared.slot, k)
    && if s.shared.status.failure.Some? then Spent(s.shared.slot) else Blocked(s, k)
  }

  /** Nothing that matters to the block changes, or the game's log and replies grow. */
  lemma BlockGrows(s: System, t: System, k: Channel)
    requires Barren(s, k) && t.shared == s.shared
    requires |s.game.log| <= |t.game.log|
    requires |s.game.replies| <= |t.game.replies| && s.game.replies == t.game.replies[..|s.game.replies|]
    requires t.wrote == s.wrote || |s.game.log| < |t.game.log|
    ensures Barren(t, k)
  {
    if s.shared.status.failure.None? {
      var j :| 0 <= j < |s.game.replies| && Blocks(s, s.game.replies[j], k);
      assert t.game.replies[j] == s.game.replies[j];
      assert Blocks(t, t.game.replies[j], k);
    }
  }

  lemma EventBarren(s: System, event: Event, k: Channel)
    requires Barren(s, k) && SharedOk(s.shared) && !event.RpcLine? && !event.Install?
    ensures Barren(s.(shared := Apply(s.shared, event)), k)
  {
    var t := s.(shared := Apply(s.shared, event));
    EventNone(s.shared, event, k);
    FailedSpends(s.shared, event);
    SharedKept(s.shared, event);
    EventProgress(s.shared, event);
    if t.shared.status.failure.None? {
      var j :| 0 <= j < |s.game.replies| && Blocks(s, s.game.replies[j], k);
      if Late(t.shared.slot, k) {
        LateBefore(s.shared, event, k);
      }
      assert Blocks(t, t.game.replies[j], k);
    }
  }

  lemma InstallBarren(s: System, k: Channel)
    requires Inv(s) && Barren(s, k) && Enabled(s, TryInstall)
    ensures Barren(Do(s, TryInstall), k)
  {
    var t := Do(s, TryInstall);
    if CanInstall(s.shared, s.holder.generation) {
      var j :| 0 <= j < |s.game.replies| && Blocks(s, s.game.replies[j], k);
      assert Blocks(t, t.game.replies[j], k);
    } else {
      BlockGrows(s, t, k);
    }
  }

  // ----- Reading a reply

  lemma FrontFirst(g: Game, j: nat)
    requires GameOk(g) && j < |g.replies|
    ensures g.replies[0].serial <= g.replies[j].serial
  {
    assert Ordered(g.replies);
  }

  /** While a malformed reply is pending, the reply in front of it is not for a request on a later channel. */
  lemma FrontMisses(s: System, k: Channel)
    requires Inv(s) && Barren(s, k) && Enabled(s, PumpReply) && s.game.replies[0].Tagged?
    ensures Misses(s.shared.slot, s.game.replies[0].response, k)
  {
    var front := s.game.replies[0];
    assert ReplyOk(s.game, front);
    if Late(s.shared.slot, k) && Holds(s.shared.slot, s.game.log[front.serial].id) {
      var j :| 0 <= j < |s.game.replies| && Blocks(s, s.game.replies[j], k);
      FrontFirst(s.game, j);
      TaggedIsLast(s);
    }
  }

  lemma ReadBlocked(s: System, k: Channel)
    requires Barren(s, k) && Shaped(s.game) && Enabled(s, PumpReply)
    requires Do(s, PumpReply).shared.status.failure.None?
    ensures Blocked(Do(s, PumpReply), k)
  {
    var t, event := Do(s, PumpReply), ReplyEvent(s.game.replies[0]);
    EventProgress(s.shared, event);
    var j :| 0 <= j < |s.game.replies| && Blocks(s, s.game.replies[j], k);
    assert j > 0;
    if Late(t.shared.slot, k) {
      LateBefore(s.shared, event, k);
    }
    assert t.game.replies[j - 1] == s.game.replies[j];
    assert Blocks(t, t.game.replies[j - 1], k);
  }

  lemma ReadBarren(s: System, k: Channel)
    requires Inv(s) && Barren(s, k) && Enabled(s, PumpReply)
    ensures Barren(Do(s, PumpReply), k)
  {
    var event := ReplyEvent(s.game.replies[0]);
    if s.game.replies[0].Tagged? {
      FrontMisses(s, k);
    }
    EventNone(s.shared, event, k);
    FailedSpends(s.shared, event);
    SharedKept(s.shared, event);
    if Do(s, PumpReply).shared.status.failure.None? {
      ReadBlocked(s, k);
    }
  }

  // ----- Every step

  lemma SendFailsBarren(s: System, arrived: bool, k: Channel)
    requires Inv(s) && Barren(s, k) && Enabled(s, SendFails(arrived))
    ensures Barren(Do(s, SendFails(arrived)), k)
  {
    var m := if arrived then Sent(s) else s;
    BlockGrows(s, m, k);
    EventBarren(m, Expire(s.holder.id), k);
  }

  /** The steps that touch neither the shared state nor the game's replies. */
  predicate Elsewhere(step: Step) {
    || step.Submit? || step.DispatchTimeout? || step.Acquire? || step.WriteFrame? || step.Receive? || step.Wake?
    || step.SleepTimeout? || step.AcquireForStop? || step.WriteShutdown? || step.AbandonStop?
  }

  lemma ElsewhereBarren(s: System, step: Step, k: Channel)
    requires Barren(s, k) && Shaped(s.game) && Enabled(s, step) && (Elsewhere(step) || step.GameMoves?)
    ensures Barren(Do(s, step), k)
  {
    BlockGrows(s, Do(s, step), k);
  }

  lemma StepBarren(s: System, step: Step, k: Channel)
    requires Inv(s) && Barren(s, k) && Enabled(s, step)
    ensures Barren(Do(s, step), k)
  {
    if Elsewhere(step) || step.GameMoves? {
      ElsewhereBarren(s, step, k);
    } else if step.TryInstall? {
      InstallBarren(s, k);
    } else if step.SendFails? {
      SendFailsBarren(s, step.arrived, k);
    } else if step.PumpReply? {
      ReadBarren(s, k);
    } else {
      SharedBarren(s, step, k);
    }
  }

  lemma SharedBarren(s: System, step: Step, k: Channel)
    requires Barren(s, k) && SharedOk(s.shared) && Shaped(s.game) && Enabled(s, step)
    requires step.NoteWritten? || step.GiveUp? || step.RequestStop? || step.PumpOther?
    ensures Barren(Do(s, step), k)
  {
    match step
    case NoteWritten => EventBarren(s, MarkWritten, k);
    case GiveUp => EventBarren(s, Expire(s.holder.id), k);
    case RequestStop => EventBarren(s, Stop, k);
    case PumpOther(event) => EventBarren(s, event, k);
  }

  lemma {:induction false} RunBarren(s: System, steps: seq<Step>, t: System, k: Channel)
    requires Inv(s) && Barren(s, k) && Reaches(s, steps, t)
    ensures Barren(t, k)
    decreases |steps|
  {
    if steps != [] {
      StepBarren(s, steps[0], k);
      StepKeeps(s, steps[0]);
      RunBarren(Do(s, steps[0]), steps[1..], t, k);
    }
  }

  // ----- Main results

  /** A pending response without a generation: no request that is installed from now on is ever sent data. */
  lemma NeverServed(s: System, t: System, c: Channel)
    requires Live(s) && s.shared.status.ready && !Readable(s.game) && Leads(s, t)
    requires s.shared.slot.channels <= c && c in t.shared.slot.mail
    ensures t.shared.slot.mail[c].Failure?
  {
    LiveInv(s);
    var j :| 0 <= j < |s.game.replies| && Malformed(s.game.replies[j]);
    assert ReplyOk(s.game, s.game.replies[j]);
    assert Blocks(s, s.game.replies[j], s.shared.slot.channels);
    var steps :| Reaches(s, steps, t);
    RunBarren(s, steps, t, s.shared.slot.channels);
  }

  /** A ready shard can still serve a new request exactly when every pending response names a generation. */
  lemma RecoversExactly(steps: seq<Step>, s: System, id: RequestId, data: Payload)
    requires Reaches(Start, steps, s) && s.shared.status.ready && !Known(s, id)
    ensures Readable(s.game) <==> exists t, c :: Leads(s, t) && s.shared.slot.channels <= c && Served(t, c, id, data)
  {
    if Readable(s.game) {
      Recovers(steps, s, id, data);
    } else {
      LiveInv(s);
      forall t, c | Leads(s, t) && s.shared.slot.channels <= c ensures !Served(t, c, id, data) {
        if Served(t, c, id, data) {
          NeverServed(s, t, c);
          assert false;
        }
      }
    }
  }

  // ----- The condition can fail

  /** A shard that has just become ready. */
  lemma BecomesReady() returns (s: System)
    ensures Live(s) && s.shared.status.ready && s.shared.status.generation == Some(0)
    ensures s.holder.Free? && s.game == Booted && s.queued == map[] && s.answers == map[]
  {
    LeadsNowhere(Start);
    var line, report := LifecycleLine(MasterReady), BootstrapLine(HealthReport(Payload(0, Some(0), 3, true), true));
    var a := Do(Start, PumpOther(line));
    OneStep(Start, PumpOther(line));
    s := Do(a, PumpOther(report));
    OneStep(a, PumpOther(report));
    LeadsOn(Start, a, s);
  }

  const Unheaded := RpcResponse(Some(0), None, false, Some(ErrResult(None)))

  /** A refusal printed without a generation leaves a ready shard that can serve nobody any more. */
  lemma RecoveryCanFail()
    ensures exists s :: Live(s) && s.shared.status.ready && !Readable(s.game)
  {
    var r := BecomesReady();
    var a := Dispatches(r, 0, 0);
    var b := Plays(a, ReadPipe);
    var c := Plays(b, Begin(false));
    var s := Plays(c, Emit(Unheaded));
    assert Malformed(s.game.replies[0]);
  }
}
