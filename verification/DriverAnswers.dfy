/** What each installed request is answered, and which lines change the shard's state, said without the handlers. */
module DriverAnswers {
  import opened Options
  import opened DriverShared

  // ----- What a response reports

  /** The codes of the errors that Lua names. */
  ghost predicate Means(name: RpcError, code: ErrorCode) {
    match name
    case InvalidRequestName => code == InvalidRequest
    case RejectedName => code == InvalidRequest
    case NotReadyName => code == NotReady
    case StaleGenerationName => code == NotReady
    case UnsupportedName => code == Unsupported
    case NotFoundName => code == NotFound
    case StaleReferenceName => code == StaleReference
    case IndeterminateName => code == Unknown
    case LuaName => code == Lua
    case UnrecognizedName => false
  }

  /** Lua names these errors before it accepts a request. */
  predicate Early(name: RpcError) {
    name in {InvalidRequestName, NotReadyName, StaleGenerationName}
  }

  /** The outcome that a result gives the request: its data, or the error that its name means, with the request's id;
      the frame was written, and it was accepted unless Lua refused it before that. */
  ghost predicate Reports(record: Record, response: RpcResponse, o: Outcome) {
    && response.result.Some?
    && match response.result.value
       case OkResult(Some(data), _) => o == Success(data)
       case ErrResult(Some(name)) =>
         && o.Failure? && Means(name, o.error.code)
         && o.error.request == response.id && o.error.written
         && o.error.accepted == (record.accepted || !Early(name))
       case _ => false
  }

  /** The response is for this request's generation, or refuses it before acceptance. */
  predicate ForGeneration(record: Record, response: RpcResponse) {
    || response.generation == Some(record.generation)
    || (response.generation.Some? && !record.accepted
        && response.result.Some? && response.result.value.ErrResult?
        && response.result.value.error.Some? && Early(response.result.value.error.value))
  }

  /** The request in the slot takes this response as its result. */
  predicate TakesResult(s: Shared, p: Pending, response: RpcResponse) {
    && response.id == Some(p.record.id) && ForGeneration(p.record, response) && p.result.None? && response.result.Some?
    && match response.result.value
       case OkResult(data, observed) =>
         && data.Some?
         && (p.record.operation.Presence? && s.status.generation == Some(p.record.generation) ==> observed)
       case ErrResult(name) => name.Some? && !name.value.UnrecognizedName?
       case NoVerdict => false
  }

  /** The request in the slot takes this response as the announcement that it was accepted. */
  predicate TakesAnnouncement(p: Pending, response: RpcResponse) {
    && response.id == Some(p.record.id) && response.generation == Some(p.record.generation)
    && response.accepted && response.result.None?
  }

  // ----- The request that waits in the slot

  ghost predicate Waits(slot: Slot, id: RequestId, c: Channel) {
    slot.active.Some? && slot.active.value.record.id == id && slot.active.value.response == Some(c)
  }

  /** It waits, and this outcome has been read for it. */
  ghost predicate HasResult(slot: Slot, id: RequestId, c: Channel, o: Outcome) {
    Waits(slot, id, c) && slot.active.value.result == Some(o) && slot.active.value.synchronized
  }

  function UnknownOf(record: Record): Outcome {
    Failure(DriverError(Unknown, Some(record.id), record.written, record.accepted))
  }

  /** Its request is over: the game is done with it, its caller gives up, or the game has ended. */
  predicate Ends(p: Pending, event: Event) {
    (event == Barrier(false) && p.synchronized) || event == Expire(p.record.id) || event.PumpEnd?
  }

  /** The game refused its frame. */
  predicate Refused(p: Pending, event: Event) {
    event == Barrier(true) && p.synchronized && !p.record.accepted && p.result.None?
  }

  // ----- Lines that fail the driver or move it to a generation

  /** The game has moved on from this generation. */
  predicate Older(s: Shared, generation: nat) {
    s.status.generation.Some? && generation < s.status.generation.value
  }

  predicate FailsOn(s: Shared, event: Event) {
    match event
    case Fail(_) => true
    case BootstrapLine(BadBootstrap) => true
    case BootstrapLine(BootError(generation)) => generation.None? || !Older(s, generation.value)
    case BootstrapLine(Announcement(generation)) => generation.None?
    case BootstrapLine(HealthReport(health, wellFormed)) =>
      health.generation.None? || !wellFormed || health.protocol != 3
    case ControlLine(generation) => generation.None?
    case LifecycleLine(SessionIdentity(valid)) => !valid
    case RpcLine(response) =>
      || response.generation.None? || response.id.None?
      || (s.slot.active.Some? && s.slot.active.value.record.id == response.id.value
          && !TakesResult(s, s.slot.active.value, response) && !TakesAnnouncement(s.slot.active.value, response))
    case _ => false
  }

  /** The generation that a line names, if it is newer than the current one. */
  function Newer(s: Shared, event: Event): Option<nat> {
    if FailsOn(s, event) then None
    else
      var named := match event
        case BootstrapLine(Announcement(generation)) => generation
        case BootstrapLine(HealthReport(health, _)) => health.generation
        case ControlLine(generation) => generation
        case _ => None;
      if named.Some? && (s.status.generation.None? || named.value > s.status.generation.value) then named else None
  }

  /** A newer generation replaces the one of the request. */
  predicate Reloads(s: Shared, p: Pending, event: Event) {
    Newer(s, event).Some? && Newer(s, event) != Some(p.record.generation)
  }

  /** The record that a failing response leaves behind: what it said of acceptance stays. */
  function RecordAt(p: Pending, event: Event): Record {
    if event.RpcLine? && event.response.generation.Some? && event.response.id == Some(p.record.id)
       && ForGeneration(p.record, event.response)
    then p.record.(written := true, accepted := p.record.accepted || AcceptedBy(p, event.response)) else p.record
  }

  /** A first result shows that the request was accepted, unless it is an early refusal or no result at all. */
  predicate AcceptedBy(p: Pending, response: RpcResponse) {
    && p.result.None? && response.result.Some?
    && match response.result.value
       case OkResult(data, _) => data.Some?
       case ErrResult(name) => name.Some? && !Early(name.value)
       case NoVerdict => false
  }

  // ----- One event

  /** A waiting request is answered exactly by its end, a refusal, a failure or a reload, and with what. */
  ghost predicate AnsweredRight(s: Shared, event: Event, p: Pending, c: Channel) {
    var t := Apply(s, event).slot;
    && (c in t.mail <==> Ends(p, event) || Refused(p, event) || FailsOn(s, event) || Reloads(s, p, event))
    && (Ends(p, event) ==> t.mail[c] == if p.result.Some? then p.result.value else UnknownOf(p.record))
    && (Refused(p, event) ==> t.mail[c] == Failure(DriverError(Busy, Some(p.record.id), p.record.written, false)))
    && (FailsOn(s, event) || Reloads(s, p, event) ==> t.mail[c] == UnknownOf(RecordAt(p, event)))
    && (c !in t.mail ==> Waits(t, p.record.id, c))
  }

  lemma RpcAnswers(s: Shared, response: RpcResponse, p: Pending, c: Channel)
    requires s.slot.active == Some(p) && p.response == Some(c) && c !in s.slot.mail
    ensures AnsweredRight(s, RpcLine(response), p, c)
  {
    if response.generation.Some? && response.id == Some(p.record.id) {
      ResponseExactly(s, p, response);
      if TakesResult(s, p, response) || TakesAnnouncement(p, response) {
        TakenAnswers(s, response, p, c);
      } else {
        BadAnswers(s, response, p, c);
      }
    } else {
      OtherAnswers(s, response, p, c);
    }
  }

  /** A response with the request's id is either taken or fails the driver. */
  lemma ResponseExactly(s: Shared, p: Pending, response: RpcResponse)
    requires response.generation.Some? && response.id == Some(p.record.id)
    ensures var (q, ok) := AfterResponse(p, response, Current(s.status, p));
            && (ok <==> TakesResult(s, p, response) || TakesAnnouncement(p, response))
            && q.response == p.response && q.record.id == p.record.id
            && (!ok ==>
                  q.record.written == RecordAt(p, RpcLine(response)).written
                  && q.record.accepted == RecordAt(p, RpcLine(response)).accepted)
  {}

  lemma TakenAnswers(s: Shared, response: RpcResponse, p: Pending, c: Channel)
    requires s.slot.active == Some(p) && p.response == Some(c) && c !in s.slot.mail
    requires response.id == Some(p.record.id) && AfterResponse(p, response, Current(s.status, p)).1
    requires TakesResult(s, p, response) || TakesAnnouncement(p, response)
    ensures AnsweredRight(s, RpcLine(response), p, c)
  {
    AfterResponseKeeps(p, response, Current(s.status, p));
  }

  lemma BadAnswers(s: Shared, response: RpcResponse, p: Pending, c: Channel)
    requires s.slot.active == Some(p) && p.response == Some(c) && c !in s.slot.mail
    requires response.generation.Some? && response.id == Some(p.record.id)
    requires !TakesResult(s, p, response) && !TakesAnnouncement(p, response)
    ensures AnsweredRight(s, RpcLine(response), p, c)
  {
    ResponseExactly(s, p, response);
    var q := AfterResponse(p, response, Current(s.status, p)).0;
    assert RpcStep(s, response).slot.mail == s.slot.mail[c := UnknownOf(q.record)];
  }

  lemma OtherAnswers(s: Shared, response: RpcResponse, p: Pending, c: Channel)
    requires s.slot.active == Some(p) && p.response == Some(c) && c !in s.slot.mail
    requires response.generation.None? || response.id != Some(p.record.id)
    ensures AnsweredRight(s, RpcLine(response), p, c)
  {}

  lemma BootstrapAnswers(s: Shared, report: Bootstrap, p: Pending, c: Channel)
    requires s.slot.active == Some(p) && p.response == Some(c) && c !in s.slot.mail
    ensures AnsweredRight(s, BootstrapLine(report), p, c)
  {}

  lemma ControlAnswers(s: Shared, event: Event, p: Pending, c: Channel)
    requires s.slot.active == Some(p) && p.response == Some(c) && c !in s.slot.mail
    requires event.ControlLine? || event.LifecycleLine?
    ensures AnsweredRight(s, event, p, c)
  {}

  lemma EventAnswers(s: Shared, event: Event, p: Pending, c: Channel)
    requires s.slot.active == Some(p) && p.response == Some(c) && c !in s.slot.mail && MailInvariant(s.slot)
    ensures AnsweredRight(s, event, p, c)
  {
    match event
    case RpcLine(response) => RpcAnswers(s, response, p, c);
    case BootstrapLine(report) => BootstrapAnswers(s, report, p, c);
    case ControlLine(_) => ControlAnswers(s, event, p, c);
    case LifecycleLine(_) => ControlAnswers(s, event, p, c);
    case _ =>
  }

  /** A result that is taken is what the request then has. */
  lemma ResultTaken(s: Shared, response: RpcResponse, p: Pending, c: Channel)
    requires s.slot.active == Some(p) && p.response == Some(c) && TakesResult(s, p, response)
    ensures var t := Apply(s, RpcLine(response)).slot;
            && t.active.Some? && t.active.value.result.Some? && Reports(p.record, response, t.active.value.result.value)
            && HasResult(t, p.record.id, c, t.active.value.result.value)
  {}

  /** Nothing changes a result that has been read. */
  lemma ResultKept(s: Shared, event: Event, p: Pending, c: Channel)
    requires s.slot.active == Some(p) && p.response == Some(c) && c !in s.slot.mail && MailInvariant(s.slot)
    requires p.result.Some? && p.synchronized && c !in Apply(s, event).slot.mail
    ensures HasResult(Apply(s, event).slot, p.record.id, c, p.result.value)
  {
    match event
    case RpcLine(response) => RpcKept(s, response, p, c);
    case _ => EventAnswers(s, event, p, c);
  }

  lemma RpcKept(s: Shared, response: RpcResponse, p: Pending, c: Channel)
    requires s.slot.active == Some(p) && p.response == Some(c) && c !in s.slot.mail
    requires p.result.Some? && p.synchronized && c !in RpcStep(s, response).slot.mail
    ensures HasResult(RpcStep(s, response).slot, p.record.id, c, p.result.value)
  {}

  // ----- Over runs

  lemma {:induction false} ResultLasts(s: Shared, events: seq<Event>, id: RequestId, c: Channel, o: Outcome)
    requires HasResult(s.slot, id, c, o) && MailInvariant(s.slot) && ReadyInvariant(s.status)
    requires !s.status.running ==> s.slot.active.None?
    requires c !in Run(s, events).slot.mail
    ensures HasResult(Run(s, events).slot, id, c, o)
    decreases |events|
  {
    if events != [] {
      var t := Apply(s, events[0]);
      MailStep(s, events[0]);
      EventProgress(s, events[0]);
      EndedStep(s, events[0]);
      RunMail(t, events[1..]);
      ResultKept(s, events[0], s.slot.active.value, c);
      ResultLasts(t, events[1..], id, c, o);
    }
  }

  /** In every run: once a result has been taken for the request in the slot, and as long as nothing else has answered
      it, the next Done, the end of its time or the end of the game sends exactly that result to its caller. */
  lemma ResultReachesCaller(before: seq<Event>, response: RpcResponse, between: seq<Event>, last: Event, c: Channel)
    requires var s := Run(Fresh, before);
             && s.slot.active.Some? && s.slot.active.value.response == Some(c)
             && TakesResult(s, s.slot.active.value, response)
             && (last == Barrier(false) || last == Expire(s.slot.active.value.record.id) || last.PumpEnd?)
    requires c !in Run(Apply(Run(Fresh, before), RpcLine(response)), between).slot.mail
    ensures var s, t := Run(Fresh, before), Run(Apply(Run(Fresh, before), RpcLine(response)), between);
            var record, u := s.slot.active.value.record, Apply(t, last);
            && c in u.slot.mail && Reports(record, response, u.slot.mail[c])
            && ExpireAnswer(t, record.id) == u.slot.mail[c]
            && u.slot.recent.Some? && Shows(u.slot.recent.value, record.id, u.slot.mail[c])
  {
    var s := Run(Fresh, before);
    var p, taken := s.slot.active.value, Apply(s, RpcLine(response));
    RunMail(Fresh, before);
    RunProgress(Fresh, before);
    ResultTaken(s, response, p, c);
    MailStep(s, RpcLine(response));
    EventProgress(s, RpcLine(response));
    EndedStep(s, RpcLine(response));
    ResultLasts(taken, between, p.record.id, c, taken.slot.active.value.result.value);
    RunMail(taken, between);
    EndSends(Run(taken, between), last, c);
  }

  /** The finished record that readers see. */
  predicate Shows(record: Record, id: RequestId, o: Outcome) {
    && record.id == id && record.completed
    && match o
       case Success(data) => record.result == Some(data) && record.error.None?
       case Failure(error) => record.error == Some(error)
  }

  lemma EndSends(t: Shared, last: Event, c: Channel)
    requires MailInvariant(t.slot) && t.slot.active.Some? && t.slot.active.value.response == Some(c)
    requires t.slot.active.value.result.Some? && Ends(t.slot.active.value, last)
    ensures var p, u := t.slot.active.value, Apply(t, last).slot;
            && c in u.mail && u.mail[c] == p.result.value && ExpireAnswer(t, p.record.id) == p.result.value
            && u.recent.Some? && Shows(u.recent.value, p.record.id, u.mail[c])
  {}

  /** In every run a waiting request is answered exactly by its end, a refusal, a failure or a reload, and with the
      answer that belongs to it. */
  lemma AnswersExactly(before: seq<Event>, event: Event, c: Channel)
    requires var slot := Run(Fresh, before).slot; slot.active.Some? && slot.active.value.response == Some(c)
    ensures AnsweredRight(Run(Fresh, before), event, Run(Fresh, before).slot.active.value, c)
  {
    var s := Run(Fresh, before);
    RunMail(Fresh, before);
    EventAnswers(s, event, s.slot.active.value, c);
  }

  // ----- What the lines do to the shard

  /** A line fails the driver exactly if it is malformed or reports a failure. The first failure is kept, and the end of
      the game may bring the only one. */
  lemma FailsExactly(s: Shared, event: Event)
    ensures s.status.failure.Some? ==> Apply(s, event).status.failure == s.status.failure
    ensures s.status.failure.None? && !event.PumpEnd? ==> (Apply(s, event).status.failure.Some? <==> FailsOn(s, event))
    ensures s.status.failure.None? && event.PumpEnd? ==> Apply(s, event).status.failure == event.problem
  {
    EventProgress(s, event);
    match event
    case RpcLine(response) => RpcFails(s, response);
    case _ =>
  }

  lemma RpcFails(s: Shared, response: RpcResponse)
    ensures s.status.failure.None? ==> (RpcStep(s, response).status.failure.Some? <==> FailsOn(s, RpcLine(response)))
  {
    if s.slot.active.Some? && response.generation.Some? && response.id == Some(s.slot.active.value.record.id) {
      ResponseExactly(s, s.slot.active.value, response);
    }
  }

  /** The shard moves to a generation exactly when a line names a newer one; then it is not ready, its health and its
      telemetry sequence start again, it stops only if that was requested, and the change is counted. */
  lemma ReloadExactly(s: Shared, event: Event)
    ensures var t := Apply(s, event);
            && t.status.generation == (if Newer(s, event).Some? then Newer(s, event) else s.status.generation)
            && t.status.generationChanges
               == s.status.generationChanges + (if Newer(s, event).Some? && s.status.generation.Some? then 1 else 0)
            && (Newer(s, event).Some? ==> t.telemetry.sequence == 0 && t.status.stopping == s.status.stopRequested)
  {
    match event
    case BootstrapLine(report) => BootstrapReloads(s, report);
    case RpcLine(response) => RpcReloads(s, response);
    case _ =>
  }

  lemma BootstrapReloads(s: Shared, report: Bootstrap)
    ensures var t, event := BootstrapStep(s, report), BootstrapLine(report);
            && t.status.generation == (if Newer(s, event).Some? then Newer(s, event) else s.status.generation)
            && t.status.generationChanges
               == s.status.generationChanges + (if Newer(s, event).Some? && s.status.generation.Some? then 1 else 0)
            && (Newer(s, event).Some? ==> t.telemetry.sequence == 0 && t.status.stopping == s.status.stopRequested)
  {}

  lemma RpcReloads(s: Shared, response: RpcResponse)
    ensures RpcStep(s, response).status.generation == s.status.generation
    ensures RpcStep(s, response).status.generationChanges == s.status.generationChanges
  {}

  /** What the shard's health is after a line: what a well-formed report or a health request's data say of the current
      generation, nothing after a reload, and else what it was. */
  lemma HealthExactly(s: Shared, event: Event)
    ensures Apply(s, event).status.health == HealthAfter(s, event)
  {
    match event
    case RpcLine(response) => RpcHealth(s, response);
    case _ =>
  }

  function HealthAfter(s: Shared, event: Event): Option<Payload> {
    if FailsOn(s, event) then s.status.health
    else match event
      case BootstrapLine(HealthReport(health, _)) =>
        if Older(s, health.generation.value) then s.status.health else Some(health)
      case RpcLine(response) => if ReportsHealth(s, response) then response.result.value.data else s.status.health
      case _ => if Newer(s, event).Some? then None else s.status.health
  }

  /** A health request of the current generation has got its data. */
  predicate ReportsHealth(s: Shared, response: RpcResponse) {
    && s.slot.active.Some? && TakesResult(s, s.slot.active.value, response) && response.result.value.OkResult?
    && s.slot.active.value.record.operation.Health?
    && s.status.generation == Some(s.slot.active.value.record.generation)
  }

  lemma RpcHealth(s: Shared, response: RpcResponse)
    ensures RpcStep(s, response).status.health == HealthAfter(s, RpcLine(response))
  {}

  /** In every run the shard is ready exactly if its game runs and is not stopping, nothing has failed, the game has
      said that it is up, and the current generation has reported protocol 3 with active players. */
  lemma ReadyExactly(events: seq<Event>)
    ensures var s := Run(Fresh, events).status;
            s.ready <==>
              && s.running && !s.stopping && s.failure.None? && s.nativeReady
              && s.health.Some? && s.health.value.generation == s.generation && s.health.value.protocol == 3
              && s.health.value.playersActive
  {
    RunProgress(Fresh, events);
  }

  /** What moves the other flags of the shard. */
  lemma FlagsExactly(s: Shared, event: Event)
    ensures var t := Apply(s, event).status;
            && (t.running <==> s.status.running && !event.PumpEnd?)
            && (t.stopRequested <==> s.status.stopRequested || event.Stop?)
            && (t.nativeReady <==>
                  || s.status.nativeReady
                  || event == LifecycleLine(MasterReady) || event == LifecycleLine(SessionIdentity(true)))
            && (Newer(s, event).None? ==>
                  (t.stopping <==> s.status.stopping || event.Stop? || event == LifecycleLine(StoppingLine)))
  {
    match event
    case RpcLine(response) => RpcFlags(s, response);
    case BootstrapLine(report) => BootstrapFlags(s, report);
    case _ =>
  }

  lemma RpcFlags(s: Shared, response: RpcResponse)
    ensures var t := RpcStep(s, response).status;
            && t.running == s.status.running && t.stopRequested == s.status.stopRequested
            && t.nativeReady == s.status.nativeReady && t.stopping == s.status.stopping
  {}

  lemma BootstrapFlags(s: Shared, report: Bootstrap)
    ensures var t := BootstrapStep(s, report).status;
            && t.running == s.status.running && t.stopRequested == s.status.stopRequested
            && t.nativeReady == s.status.nativeReady
            && (Newer(s, BootstrapLine(report)).None? ==> t.stopping == s.status.stopping)
  {}

  /** A reply that fits no request is counted: a response with another id, and a marker that ends nothing. */
  lemma UnmatchedExactly(s: Shared, event: Event)
    ensures Apply(s, event).unmatched == s.unmatched + (if Unmatched(s, event) then 1 else 0)
  {
    match event
    case RpcLine(response) => RpcUnmatched(s, response);
    case _ =>
  }

  predicate Unmatched(s: Shared, event: Event) {
    match event
    case RpcLine(response) =>
      && response.generation.Some? && response.id.Some?
      && (s.slot.active.None? || s.slot.active.value.record.id != response.id.value)
    case Barrier(busy) =>
      || s.slot.active.None?
      || !(Ends(s.slot.active.value, event) || Refused(s.slot.active.value, event))
    case _ => false
  }

  lemma RpcUnmatched(s: Shared, response: RpcResponse)
    ensures RpcStep(s, response).unmatched == s.unmatched + (if Unmatched(s, RpcLine(response)) then 1 else 0)
  {}

  // ----- The request in the slot

  /** A response for the request in the slot, as far as its header says. */
  predicate ForRequest(p: Pending, event: Event) {
    && event.RpcLine? && event.response.generation.Some? && event.response.id == Some(p.record.id)
    && ForGeneration(p.record, event.response)
  }

  /** A request leaves the slot by a marker that ends or refuses it or with the end of the game, and until then only
      another installation displaces it. Its record says what has been seen of it. */
  ghost predicate SlotRight(s: Shared, event: Event, p: Pending) {
    var t := Apply(s, event).slot;
    && (t.active.None? <==> event.PumpEnd? || (event.Barrier? && (Ends(p, event) || Refused(p, event))))
    && (t.active.Some? ==>
          var q := t.active.value;
          && q.record.id == p.record.id && q.record.operation == p.record.operation
          && q.record.generation == p.record.generation
          && (q.synchronized <==> p.synchronized || ForRequest(p, event))
          && (q.record.written <==> p.record.written || event.MarkWritten? || ForRequest(p, event))
          && (q.record.accepted <==>
                || p.record.accepted
                || (event.RpcLine? && TakesAnnouncement(p, event.response))
                || (ForRequest(p, event) && AcceptedBy(p, event.response))))
  }

  lemma SlotExactly(s: Shared, event: Event, p: Pending)
    requires s.slot.active == Some(p) && !event.Install?
    ensures SlotRight(s, event, p)
  {
    match event
    case RpcLine(response) => RpcSlot(s, response, p);
    case BootstrapLine(report) => BootstrapSlot(s, report, p);
    case _ =>
  }

  lemma RpcSlot(s: Shared, response: RpcResponse, p: Pending)
    requires s.slot.active == Some(p)
    ensures SlotRight(s, RpcLine(response), p)
  {
    if response.generation.Some? && response.id == Some(p.record.id) {
      var q := AfterResponse(p, response, Current(s.status, p)).0;
      ResponseSeen(p, response, Current(s.status, p));
      MatchedSlot(s, response, p, q);
    }
  }

  /** What a response says of the request itself. */
  ghost predicate Seen(p: Pending, response: RpcResponse, q: Pending) {
    && q.record.id == p.record.id && q.record.operation == p.record.operation
    && q.record.generation == p.record.generation
    && (q.synchronized <==> p.synchronized || ForGeneration(p.record, response))
    && (q.record.written <==> p.record.written || ForGeneration(p.record, response))
    && (q.record.accepted <==>
          || p.record.accepted || TakesAnnouncement(p, response)
          || (ForGeneration(p.record, response) && AcceptedBy(p, response)))
  }

  lemma ResponseSeen(p: Pending, response: RpcResponse, current: bool)
    requires response.generation.Some? && response.id == Some(p.record.id)
    ensures Seen(p, response, AfterResponse(p, response, current).0)
  {}

  lemma MatchedSlot(s: Shared, response: RpcResponse, p: Pending, q: Pending)
    requires s.slot.active == Some(p) && response.generation.Some? && response.id == Some(p.record.id)
    requires q == AfterResponse(p, response, Current(s.status, p)).0 && Seen(p, response, q)
    ensures SlotRight(s, RpcLine(response), p)
  {
    var t := RpcStep(s, response).slot.active;
    assert t == Some(q) || t == Some(Delivered(q, ErrorOf(q.record, Unknown)));
  }

  lemma BootstrapSlot(s: Shared, report: Bootstrap, p: Pending)
    requires s.slot.active == Some(p)
    ensures SlotRight(s, BootstrapLine(report), p)
  {}

  // ----- The record that readers see

  /** The last record shown is that of the request in the slot. */
  ghost predicate Shown(slot: Slot) {
    slot.active.Some? ==> slot.recent == Some(slot.active.value.record)
  }

  lemma ShownStep(s: Shared, event: Event)
    requires Shown(s.slot)
    ensures Shown(Apply(s, event).slot)
  {
    match event
    case RpcLine(response) => RpcShown(s, response);
    case _ =>
  }

  lemma RpcShown(s: Shared, response: RpcResponse)
    requires Shown(s.slot)
    ensures Shown(RpcStep(s, response).slot)
  {}

  lemma {:induction false} RunShown(s: Shared, events: seq<Event>)
    requires Shown(s.slot)
    ensures Shown(Run(s, events).slot)
    decreases |events|
  {
    if events != [] {
      ShownStep(s, events[0]);
      RunShown(Apply(s, events[0]), events[1..]);
    }
  }

  /** In every run readers see the record of the request in the slot as it stands. */
  lemma AlwaysShown(events: seq<Event>)
    ensures Shown(Run(Fresh, events).slot)
  {
    RunShown(Fresh, events);
  }
}
