/** The driver's locked state as an object: every handler updates the fields in the order of the code, and the object
    remembers which events it has handled, so that the laws over all runs are laws of every driver. */
module DriverObject {
  import opened Options
  import opened DriverShared

  class Driver {
    var generation: Option<nat>
    var generationChanges: nat
    var nativeReady: bool
    var ready: bool
    var running: bool
    var stopping: bool
    var stopRequested: bool
    var health: Option<Payload>
    var failure: Option<string>
    var telemetrySequence: nat
    var telemetryGaps: nat
    var invalidTelemetry: nat
    var staleTelemetry: nat
    var active: Option<Pending>
    var recent: Option<Record>
    var channels: nat
    var mail: map<Channel, Outcome>
    var unmatched: nat

    function ViewStatus(): Status
      reads this
    {
      Status(generation, generationChanges, nativeReady, ready, running, stopping, stopRequested, health, failure)
    }

    function View(): Shared
      reads this
    {
      Shared(ViewStatus(), Counters(telemetrySequence, telemetryGaps, invalidTelemetry, staleTelemetry),
             Slot(active, recent, channels, mail), unmatched)
    }

    /** The events handled so far; the fields are what they lead to. */
    ghost var history: seq<Event>

    ghost predicate Valid()
      reads this
    {
      View() == Run(Fresh, history)
    }

    /** One event more has been handled: all laws hold, and nothing permanent of the state before was undone. */
    ghost predicate Handled(before: seq<Event>, was: Shared, event: Event)
      reads this
    {
      Valid() && history == before + [event] && Lawful(history) && Kept(was, View())
    }

    constructor ()
      ensures Valid() && history == [] && View() == Fresh
    {
      generation, generationChanges := None, 0;
      nativeReady, ready, running, stopping, stopRequested := false, false, true, false, false;
      health, failure := None, None;
      telemetrySequence, telemetryGaps, invalidTelemetry, staleTelemetry := 0, 0, 0, 0;
      active, recent, channels, mail, unmatched := None, None, 0, map[], 0;
      history := [];
    }

    /** Enter an event; the fields are about to be updated for it. */
    ghost method Enter(event: Event)
      requires Valid()
      modifies this`history
      ensures history == old(history) + [event]
      ensures Run(Fresh, history) == Apply(View(), event) && Lawful(history) && Kept(View(), Apply(View(), event))
    {
      OneMore(history, event);
      history := history + [event];
    }

    /** Complete `p`, recording the outcome and using its sender if it still has one. */
    method Deliver(p: Pending, outcome: Outcome) returns (q: Pending)
      modifies this`mail
      ensures q == Delivered(p, outcome) && mail == Posted(old(mail), p, outcome)
    {
      q := p.(record := p.record.(completed := true));
      match outcome {
        case Success(data) => q := q.(record := q.record.(result := Some(data), error := None));
        case Failure(error) => q := q.(record := q.record.(error := Some(error)));
      }
      if q.response.Some? {
        mail := mail[q.response.value := outcome];
        q := q.(response := None);
      }
    }

    /** Answer the request in the slot, if any, with an unknown outcome. */
    method DeliverUnknown()
      modifies this`active, this`recent, this`mail
      ensures Slot(active, recent, channels, mail) == AnswerUnknown(old(Slot(active, recent, channels, mail)))
    {
      if active.Some? {
        var p := Deliver(active.value, ErrorOf(active.value.record, Unknown));
        active := Some(p);
        recent := Some(p.record);
      }
    }

    /** Record the first failure, give up readiness and answer the request in the slot. */
    method GiveUp(message: string)
      modifies this`failure, this`ready, this`active, this`recent, this`mail
      ensures View() == FailStep(old(View()), message)
    {
      if failure.None? {
        failure := Some(message);
      }
      ready := false;
      DeliverUnknown();
    }

    method Fail(message: string)
      requires Valid()
      modifies this
      ensures Handled(old(history), old(View()), Event.Fail(message))
      ensures failure.Some? && Finished(history)
    {
      Enter(Event.Fail(message));
      GiveUp(message);
      DoomedForever(history);
    }

    /** The critical section of `execute`: refuse, or take the slot with a new channel. */
    method Install(id: RequestId, operation: Method, epoch: nat) returns (channel: Option<Channel>)
      requires Valid()
      modifies this
      ensures Handled(old(history), old(View()), Event.Install(id, operation, epoch))
      ensures channel.Some? <==> CanInstall(old(View()), epoch)
      ensures channel.Some? ==> channel.value == old(channels) && channel.value !in mail && Holds(View().slot, id)
    {
      Enter(Event.Install(id, operation, epoch));
      channel := TakeSlot(id, operation, epoch);
    }

    method TakeSlot(id: RequestId, operation: Method, epoch: nat) returns (channel: Option<Channel>)
      modifies this`active, this`recent, this`channels
      ensures View() == InstallStep(old(View()), id, operation, epoch)
      ensures channel == if CanInstall(old(View()), epoch) then Some(old(channels)) else None
    {
      if !ready || stopping || generation != Some(epoch) {
        return None;
      }
      if active.Some? && !active.value.record.completed {
        return None;
      }
      var synchronized := active.None?;
      var record := NewRecord(id, operation, epoch);
      recent := Some(record);
      channel := Some(channels);
      active := Some(Pending(record, None, channel, synchronized));
      channels := channels + 1;
    }

    method NoteWritten()
      requires Valid()
      modifies this
      ensures Handled(old(history), old(View()), MarkWritten)
    {
      Enter(MarkWritten);
      if active.Some? {
        active := Some(active.value.(record := active.value.record.(written := true)));
        recent := Some(active.value.record);
      }
    }

    /** The caller gets what its channel gets, unless it was answered before. */
    method Expire(id: RequestId) returns (outcome: Outcome)
      requires Valid()
      modifies this
      ensures Handled(old(history), old(View()), Event.Expire(id))
      ensures outcome == ExpireAnswer(old(View()), id)
      ensures Holds(old(View()).slot, id) && old(active).value.response.Some? ==>
                old(active).value.response.value in mail && mail[old(active).value.response.value] == outcome
    {
      Enter(Event.Expire(id));
      outcome := Abandon(id);
    }

    method Abandon(id: RequestId) returns (outcome: Outcome)
      modifies this`active, this`recent, this`mail
      ensures View() == ExpireStep(old(View()), id)
      ensures outcome == ExpireAnswer(old(View()), id)
    {
      if active.None? || active.value.record.id != id {
        return PlainError(Unknown);
      }
      outcome := if active.value.result.Some? then active.value.result.value
                 else ErrorOf(active.value.record, Unknown);
      var p := Deliver(active.value, outcome);
      active := Some(p);
      recent := Some(p.record);
    }

    /** From now on the shard is never ready, whatever reloads follow. */
    method RequestStop()
      requires Valid()
      modifies this
      ensures Handled(old(history), old(View()), Stop)
      ensures Finished(history)
    {
      Enter(Stop);
      stopRequested := true;
      stopping := true;
      ready := false;
      DoomedForever(history);
    }

    /** Forget what belonged to the previous world generation. */
    method Reload(epoch: nat)
      modifies this`generation, this`generationChanges, this`stopping, this`ready, this`health, this`telemetrySequence
      ensures ViewStatus() == Reloaded(old(ViewStatus()), epoch) && telemetrySequence == 0
    {
      if generation.Some? {
        generationChanges := generationChanges + 1;
      }
      generation := Some(epoch);
      stopping := stopRequested;
      ready := false;
      health := None;
      telemetrySequence := 0;
    }

    method AdvanceGeneration(epoch: nat) returns (current: bool)
      modifies this`generation, this`generationChanges, this`stopping, this`ready, this`health, this`telemetrySequence,
               this`active, this`recent, this`mail
      ensures View() == AdvanceStep(old(View()), epoch)
      ensures current == !Outdated(old(View()).status, epoch)
    {
      if generation.Some? && generation.value > epoch {
        return false;
      }
      if generation == Some(epoch) {
        return true;
      }
      Reload(epoch);
      if active.Some? && active.value.record.generation != epoch {
        DeliverUnknown();
      }
      return true;
    }

    method RecomputeReady()
      modifies this`ready
      ensures ready == Healthy(old(View()).status)
    {
      ready := running && !stopping && failure.None? && nativeReady
               && health.Some? && health.value.generation == generation
               && health.value.protocol == 3 && health.value.playersActive;
    }

    /** The pump's arm for such a line: a problem that the handler reports fails the driver. */
    method Bootstrap(report: DriverShared.Bootstrap)
      requires Valid()
      modifies this
      ensures Handled(old(history), old(View()), BootstrapLine(report))
    {
      Enter(BootstrapLine(report));
      var problem := ReadBootstrap(report);
      if problem.Some? {
        GiveUp(problem.value);
      }
    }

    method ReadBootstrap(report: DriverShared.Bootstrap) returns (problem: Option<string>)
      modifies this
      ensures history == old(history)
      ensures problem.None? ==> View() == BootstrapStep(old(View()), report)
      ensures problem.Some? ==> FailStep(View(), problem.value) == BootstrapStep(old(View()), report)
    {
      match report {
        case BadBootstrap => return Some("bootstrap");
        case BootError(epoch) =>
          if epoch.Some? && generation.Some? && epoch.value < generation.value {
            return None;
          }
          return Some("bootstrap");
        case _ =>
      }
      var epoch := if report.HealthReport? then report.health.generation else report.generation;
      if epoch.None? {
        return Some("bootstrap");
      }
      if report.HealthReport? && (report.health.protocol != 3 || !report.wellFormed) {
        return Some("bootstrap");
      }
      var current := AdvanceGeneration(epoch.value);
      if current {
        if report.HealthReport? {
          health := Some(report.health);
        }
        RecomputeReady();
      }
      return None;
    }

    /** The result line of the active request `p`; the flag is false on a protocol error. */
    method TakeResult(p: Pending, result: RpcResult, rejected: bool) returns (q: Pending, ok: bool)
      modifies this`health, this`ready
      ensures (q, ok) == AfterResult(p, result, rejected, generation == Some(p.record.generation))
      ensures ViewStatus() ==
                if ok && result.OkResult? && p.record.operation.Health? && generation == Some(p.record.generation)
                then Recompute(old(ViewStatus()).(health := result.data)) else old(ViewStatus())
    {
      q := p;
      if q.result.Some? {
        return q, false;
      }
      match result {
        case OkResult(Some(data), observed) =>
          q := q.(record := q.record.(accepted := true));
          if q.record.operation.Presence? && generation == Some(q.record.generation) && !observed {
            return q, false;
          }
          if q.record.operation.Health? && generation == Some(q.record.generation) {
            health := Some(data);
            RecomputeReady();
          }
          q := q.(result := Some(Success(data)));
        case ErrResult(Some(error)) =>
          if !rejected {
            q := q.(record := q.record.(accepted := true));
          }
          if error.UnrecognizedName? {
            return q, false;
          }
          q := q.(result := Some(ErrorOf(q.record, CodeOf(error))));
        case _ => return q, false;
      }
      return q, true;
    }

    /** The pump's arm for such a line: a problem that the handler reports fails the driver. */
    method Rpc(response: RpcResponse)
      requires Valid()
      modifies this
      ensures Handled(old(history), old(View()), RpcLine(response))
    {
      Enter(RpcLine(response));
      var problem := ReadRpc(response);
      if problem.Some? {
        GiveUp(problem.value);
      }
    }

    method ReadRpc(response: RpcResponse) returns (problem: Option<string>)
      modifies this
      ensures history == old(history)
      ensures problem.None? ==> View() == RpcStep(old(View()), response)
      ensures problem.Some? ==> FailStep(View(), problem.value) == RpcStep(old(View()), response)
    {
      if response.generation.None? || response.id.None? {
        return Some("rpc header");
      }
      if active.None? || active.value.record.id != response.id.value {
        unmatched := unmatched + 1;
        return None;
      }
      var p, ok := TakeResponse(active.value, response);
      active := Some(p);
      if !ok {
        return Some("rpc");
      }
      recent := Some(p.record);
      return None;
    }

    /** A response line with the id of the active request `p`. */
    method TakeResponse(p: Pending, response: RpcResponse) returns (q: Pending, ok: bool)
      modifies this`health, this`ready
      ensures (q, ok) == AfterResponse(p, response, generation == Some(p.record.generation))
      ensures ViewStatus() == if ok && NewHealth(old(ViewStatus()), p, response)
                              then Recompute(old(ViewStatus()).(health := response.result.value.data))
                              else old(ViewStatus())
    {
      var rejected := Rejection(p.record, response);
      if response.generation != Some(p.record.generation) && !rejected {
        return p, false;
      }
      q := p.(record := p.record.(written := true), synchronized := true);
      if response.accepted && response.result.None? {
        return q.(record := q.record.(accepted := true)), true;
      } else if response.result.Some? {
        q, ok := TakeResult(q, response.result.value, rejected);
      } else {
        ok := false;
      }
    }

    /** A marker is ignored, or it answers and frees the slot. */
    method NativeBarrier(busy: bool)
      requires Valid()
      modifies this
      ensures Handled(old(history), old(View()), Barrier(busy))
      ensures active == old(active) || (active.None? && old(active).value.synchronized)
      ensures old(active).Some? && active.None? && old(active).value.response.Some? ==>
                old(active).value.response.value in mail
    {
      Enter(Barrier(busy));
      ReadBarrier(busy);
    }

    method ReadBarrier(busy: bool)
      modifies this`active, this`recent, this`mail, this`unmatched
      ensures View() == BarrierStep(old(View()), busy)
    {
      if active.None? {
        unmatched := unmatched + 1;
        return;
      }
      var p := active.value;
      if !p.synchronized {
        unmatched := unmatched + 1;
        return;
      }
      if busy {
        if p.record.accepted || p.result.Some? {
          unmatched := unmatched + 1;
          return;
        }
        p := Deliver(p, ErrorOf(p.record, Busy));
      } else {
        p := Deliver(p, if p.result.Some? then p.result.value else ErrorOf(p.record, Unknown));
      }
      active := None;
      recent := Some(p.record);
    }

    /** The pump's arm for such a line: a problem that the handler reports fails the driver. */
    method Control(epoch: Option<nat>)
      requires Valid()
      modifies this
      ensures Handled(old(history), old(View()), ControlLine(epoch))
    {
      Enter(ControlLine(epoch));
      var problem := ReadControl(epoch);
      if problem.Some? {
        GiveUp(problem.value);
      }
    }

    method ReadControl(epoch: Option<nat>) returns (problem: Option<string>)
      modifies this
      ensures history == old(history)
      ensures problem.None? ==> View() == ControlStep(old(View()), epoch)
      ensures problem.Some? ==> FailStep(View(), problem.value) == ControlStep(old(View()), epoch)
    {
      if epoch.None? {
        return Some("control");
      }
      var _ := AdvanceGeneration(epoch.value);
      return None;
    }

    /** The pump's arm for such a line: a problem that the handler reports fails the driver. */
    method Lifecycle(line: DriverShared.Lifecycle)
      requires Valid()
      modifies this
      ensures Handled(old(history), old(View()), LifecycleLine(line))
    {
      Enter(LifecycleLine(line));
      var problem := ReadLifecycle(line);
      if problem.Some? {
        GiveUp(problem.value);
      }
    }

    method ReadLifecycle(line: DriverShared.Lifecycle) returns (problem: Option<string>)
      modifies this
      ensures history == old(history)
      ensures problem.None? ==> View() == LifecycleStep(old(View()), line)
      ensures problem.Some? ==> FailStep(View(), problem.value) == LifecycleStep(old(View()), line)
    {
      match line {
        case MasterReady =>
          nativeReady := true;
          RecomputeReady();
        case SessionIdentity(valid) =>
          if !valid {
            return Some("session");
          }
          nativeReady := true;
          RecomputeReady();
        case StoppingLine =>
          stopping := true;
          ready := false;
        case OtherLine =>
      }
      return None;
    }

    method Telemetry(line: TelemetryLine) returns (accepted: bool)
      requires Valid()
      modifies this
      ensures Handled(old(history), old(View()), TelemetryFrame(line))
      ensures accepted == Accepts(old(View()), line)
      ensures accepted ==> telemetrySequence > old(telemetrySequence)
    {
      Enter(TelemetryFrame(line));
      accepted := Count(line);
    }

    method Count(line: TelemetryLine) returns (accepted: bool)
      modifies this`telemetrySequence, this`telemetryGaps, this`invalidTelemetry, this`staleTelemetry
      ensures View() == TelemetryStep(old(View()), line)
      ensures accepted == Accepts(old(View()), line)
    {
      if line.BadTelemetry? {
        invalidTelemetry := invalidTelemetry + 1;
        return false;
      }
      if !line.nonceMatches {
        invalidTelemetry := invalidTelemetry + 1;
        return false;
      }
      if generation != Some(line.generation) || line.sequence <= telemetrySequence {
        staleTelemetry := staleTelemetry + 1;
        return false;
      }
      telemetryGaps := telemetryGaps + (line.sequence - telemetrySequence - 1);
      telemetrySequence := line.sequence;
      return true;
    }

    /** The end of the pump: no request is left without an answer, and the shard is never ready again. */
    method FinishPump(problem: Option<string>)
      requires Valid()
      modifies this
      ensures Handled(old(history), old(View()), PumpEnd(problem))
      ensures Finished(history) && forall c: Channel | c < channels :: c in mail
    {
      Enter(PumpEnd(problem));
      End(problem);
      DoomedForever(history);
    }

    method End(problem: Option<string>)
      modifies this`running, this`ready, this`failure, this`active, this`recent, this`mail
      ensures View() == PumpEndStep(old(View()), problem)
    {
      running := false;
      ready := false;
      if failure.None? {
        failure := problem;
      }
      SettleActive();
    }

    /** The last request gets the result it already has, or an unknown outcome, and leaves the slot. */
    method SettleActive()
      modifies this`active, this`recent, this`mail
      ensures Slot(active, recent, channels, mail)
              == if old(active).None? then old(Slot(active, recent, channels, mail))
                 else Release(old(Slot(active, recent, channels, mail)), old(active).value, Settled(old(active).value))
    {
      if active.Some? {
        var p := active.value;
        active := None;
        p := Deliver(p, if p.result.Some? then p.result.value else ErrorOf(p.record, Unknown));
        recent := Some(p.record);
      }
    }
  }
}
