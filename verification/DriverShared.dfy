/** The state that one shard driver keeps behind its lock, and what every handler does to it.

    Each handler is given twice: as a function on the value of the state, over which the laws are
    stated, and (module DriverObject) as a method that updates the fields in the order of the code and
    is proved to agree with the function. */
module DriverShared {
  import opened Options

  type RequestId = nat

  /** A oneshot channel; channels are numbered in the order of their creation. */
  type Channel = nat

  /** A JSON value, seen through the three fields that readiness looks at. */
  datatype Payload = Payload(content: int, generation: Option<nat>, protocol: int, playersActive: bool)

  datatype ErrorCode =
    | InvalidRequest | NotReady | Busy | Unsupported | NotFound | StaleReference
    | Lua | Unknown | Timeout

  datatype DriverError = DriverError(code: ErrorCode, request: Option<RequestId>, written: bool, accepted: bool)

  datatype Outcome = Success(data: Payload) | Failure(error: DriverError)

  datatype Method = Health | Presence | OtherMethod

  datatype Record = Record(
    id: RequestId, operation: Method, generation: nat,
    written: bool, accepted: bool, completed: bool,
    result: Option<Payload>, error: Option<DriverError>)

  /** The request in the single slot for a native command. `response` is the unused sender. */
  datatype Pending = Pending(record: Record, result: Option<Outcome>, response: Option<Channel>, synchronized: bool)

  datatype Status = Status(
    generation: Option<nat>, generationChanges: nat,
    nativeReady: bool, ready: bool, running: bool, stopping: bool, stopRequested: bool,
    health: Option<Payload>, failure: Option<string>)

  datatype Counters = Counters(sequence: nat, gaps: nat, invalid: nat, stale: nat)

  /** The active request, the last record shown to readers, and what has been sent on each channel. */
  datatype Slot = Slot(active: Option<Pending>, recent: Option<Record>, channels: nat, mail: map<Channel, Outcome>)

  datatype Shared = Shared(status: Status, telemetry: Counters, slot: Slot, unmatched: nat)

  const Fresh := Shared(
    Status(None, 0, false, false, true, false, false, None, None),
    Counters(0, 0, 0, 0), Slot(None, None, 0, map[]), 0)

  function NewRecord(id: RequestId, operation: Method, generation: nat): Record {
    Record(id, operation, generation, false, false, false, None, None)
  }

  function PlainError(code: ErrorCode): Outcome {
    Failure(DriverError(code, None, false, false))
  }

  function ErrorOf(record: Record, code: ErrorCode): Outcome {
    Failure(DriverError(code, Some(record.id), record.written, record.accepted))
  }

  // ----- Delivering an answer

  function Delivered(p: Pending, outcome: Outcome): Pending {
    var done := p.record.(completed := true);
    p.(response := None,
       record := match outcome
                 case Success(data) => done.(result := Some(data), error := None)
                 case Failure(error) => done.(error := Some(error)))
  }

  function Posted(mail: map<Channel, Outcome>, p: Pending, outcome: Outcome): map<Channel, Outcome> {
    if p.response.Some? then mail[p.response.value := outcome] else mail
  }

  /** Deliver to the active request `p` and keep it in its slot. */
  function Answer(slot: Slot, p: Pending, outcome: Outcome): Slot {
    slot.(active := Some(Delivered(p, outcome)),
          recent := Some(Delivered(p, outcome).record),
          mail := Posted(slot.mail, p, outcome))
  }

  /** Deliver to the active request `p` and free its slot. */
  function Release(slot: Slot, p: Pending, outcome: Outcome): Slot {
    slot.(active := None,
          recent := Some(Delivered(p, outcome).record),
          mail := Posted(slot.mail, p, outcome))
  }

  /** The answer of a request that ends now: its result if it has one, else an unknown outcome. */
  function Settled(p: Pending): Outcome {
    p.result.GetOr(ErrorOf(p.record, Unknown))
  }

  function AnswerUnknown(slot: Slot): Slot {
    if slot.active.None? then slot
    else Answer(slot, slot.active.value, ErrorOf(slot.active.value.record, Unknown))
  }

  // ----- Readiness and generations

  predicate Healthy(s: Status) {
    && s.running && !s.stopping && s.failure.None? && s.nativeReady
    && s.health.Some? && s.health.value.generation == s.generation
    && s.health.value.protocol == 3 && s.health.value.playersActive
  }

  function Recompute(s: Status): Status {
    s.(ready := Healthy(s))
  }

  predicate Outdated(s: Status, generation: nat) {
    s.generation.Some? && s.generation.value > generation
  }

  function Reloaded(s: Status, generation: nat): Status {
    s.(generationChanges := if s.generation.Some? then s.generationChanges + 1 else s.generationChanges,
       generation := Some(generation), stopping := s.stopRequested, ready := false, health := None)
  }

  function AdvanceStep(s: Shared, generation: nat): Shared {
    if Outdated(s.status, generation) || s.status.generation == Some(generation) then s
    else s.(status := Reloaded(s.status, generation),
            telemetry := s.telemetry.(sequence := 0),
            slot := if s.slot.active.Some? && s.slot.active.value.record.generation != generation
                    then AnswerUnknown(s.slot) else s.slot)
  }

  // ----- Handlers

  function FailStep(s: Shared, message: string): Shared {
    s.(status := s.status.(failure := Some(s.status.failure.GetOr(message)), ready := false),
       slot := AnswerUnknown(s.slot))
  }

  /** The guard of `execute`'s critical section. */
  predicate CanInstall(s: Shared, generation: nat) {
    && s.status.ready && !s.status.stopping && s.status.generation == Some(generation)
    && (s.slot.active.Some? ==> s.slot.active.value.record.completed)
  }

  function InstallStep(s: Shared, id: RequestId, operation: Method, generation: nat): Shared {
    if !CanInstall(s, generation) then s
    else
      var record := NewRecord(id, operation, generation);
      s.(slot := s.slot.(recent := Some(record),
                         active := Some(Pending(record, None, Some(s.slot.channels), s.slot.active.None?)),
                         channels := s.slot.channels + 1))
  }

  function MarkWrittenStep(s: Shared): Shared {
    if s.slot.active.None? then s
    else
      var p := s.slot.active.value;
      var record := p.record.(written := true);
      s.(slot := s.slot.(active := Some(p.(record := record)), recent := Some(record)))
  }

  predicate Holds(slot: Slot, id: RequestId) {
    slot.active.Some? && slot.active.value.record.id == id
  }

  function ExpireStep(s: Shared, id: RequestId): Shared {
    if !Holds(s.slot, id) then s
    else s.(slot := Answer(s.slot, s.slot.active.value, Settled(s.slot.active.value)))
  }

  function ExpireAnswer(s: Shared, id: RequestId): Outcome {
    if !Holds(s.slot, id) then PlainError(Unknown) else Settled(s.slot.active.value)
  }

  function StopStep(s: Shared): Shared {
    s.(status := s.status.(stopRequested := true, stopping := true, ready := false))
  }

  datatype Bootstrap =
    | BadBootstrap
    | BootError(generation: Option<nat>)
    | Announcement(generation: Option<nat>)
    | HealthReport(health: Payload, wellFormed: bool)

  predicate BootstrapFails(s: Status, report: Bootstrap) {
    match report
    case BadBootstrap => true
    case BootError(generation) => !(generation.Some? && Outdated(s, generation.value))
    case Announcement(generation) => generation.None?
    case HealthReport(health, wellFormed) => health.generation.None? || !wellFormed || health.protocol != 3
  }

  /** An accepted bootstrap record moves to its generation and updates the health. */
  function ReportStep(s: Shared, generation: nat, health: Option<Payload>): Shared {
    if Outdated(s.status, generation) then s
    else
      var moved := AdvanceStep(s, generation);
      moved.(status := Recompute(if health.Some? then moved.status.(health := health) else moved.status))
  }

  function BootstrapStep(s: Shared, report: Bootstrap): Shared {
    if BootstrapFails(s.status, report) then FailStep(s, "bootstrap")
    else match report
      case Announcement(generation) => ReportStep(s, generation.value, None)
      case HealthReport(health, _) => ReportStep(s, health.generation.value, Some(health))
      case _ => s
  }

  datatype RpcError =
    | InvalidRequestName | RejectedName | NotReadyName | StaleGenerationName | UnsupportedName
    | NotFoundName | StaleReferenceName | IndeterminateName | LuaName | UnrecognizedName

  /** `observed` says that the data are an object with the observation epoch that a presence result must have. */
  datatype RpcResult =
    | OkResult(data: Option<Payload>, observed: bool)
    | ErrResult(error: Option<RpcError>)
    | NoVerdict

  datatype RpcResponse = RpcResponse(
    id: Option<RequestId>, generation: Option<nat>, accepted: bool, result: Option<RpcResult>)

  /** The errors that Lua reports without having accepted the request. */
  predicate BeforeAcceptance(error: RpcError) {
    error.InvalidRequestName? || error.NotReadyName? || error.StaleGenerationName?
  }

  function CodeOf(error: RpcError): ErrorCode {
    match error
    case InvalidRequestName => InvalidRequest
    case RejectedName => InvalidRequest
    case NotReadyName => NotReady
    case StaleGenerationName => NotReady
    case UnsupportedName => Unsupported
    case NotFoundName => NotFound
    case StaleReferenceName => StaleReference
    case IndeterminateName => Unknown
    case LuaName => Lua
    case UnrecognizedName => Unknown
  }

  predicate Rejection(record: Record, response: RpcResponse) {
    && !record.accepted
    && response.result.Some? && response.result.value.ErrResult?
    && response.result.value.error.Some? && BeforeAcceptance(response.result.value.error.value)
  }

  /** The request belongs to the generation that the game is in. */
  predicate Current(s: Status, p: Pending) {
    s.generation == Some(p.record.generation)
  }

  /** What a result does to the matching request; the flag is false on a protocol error. */
  function AfterResult(p: Pending, result: RpcResult, rejected: bool, current: bool): (Pending, bool) {
    if p.result.Some? then (p, false)
    else match result
      case OkResult(Some(data), observed) =>
        var q := p.(record := p.record.(accepted := true));
        if p.record.operation.Presence? && current && !observed then (q, false)
        else (q.(result := Some(Success(data))), true)
      case ErrResult(Some(error)) =>
        var record := p.record.(accepted := p.record.accepted || !rejected);
        if error.UnrecognizedName? then (p.(record := record), false)
        else (p.(record := record, result := Some(ErrorOf(record, CodeOf(error)))), true)
      case _ => (p, false)
  }

  /** What a response line with this request's id does to it. */
  function AfterResponse(p: Pending, response: RpcResponse, current: bool): (Pending, bool) {
    var rejected := Rejection(p.record, response);
    if response.generation != Some(p.record.generation) && !rejected then (p, false)
    else
      var seen := p.(record := p.record.(written := true), synchronized := true);
      if response.accepted && response.result.None?
      then (seen.(record := seen.record.(accepted := true)), true)
      else if response.result.Some? then AfterResult(seen, response.result.value, rejected, current)
      else (seen, false)
  }

  predicate NewHealth(s: Status, p: Pending, response: RpcResponse) {
    && p.record.operation.Health? && Current(s, p)
    && response.result.Some? && response.result.value.OkResult? && response.result.value.data.Some?
  }

  function RpcStep(s: Shared, response: RpcResponse): Shared {
    if response.generation.None? || response.id.None? then FailStep(s, "rpc header")
    else if !Holds(s.slot, response.id.value) then s.(unmatched := s.unmatched + 1)
    else
      var p := s.slot.active.value;
      var (q, ok) := AfterResponse(p, response, Current(s.status, p));
      if !ok then FailStep(s.(slot := s.slot.(active := Some(q))), "rpc")
      else s.(slot := s.slot.(active := Some(q), recent := Some(q.record)),
              status := if NewHealth(s.status, p, response)
                        then Recompute(s.status.(health := response.result.value.data)) else s.status)
  }

  /** An uncorrelated Busy or Done marker. */
  function BarrierStep(s: Shared, busy: bool): Shared {
    var active := s.slot.active;
    if || active.None? || !active.value.synchronized
       || (busy && (active.value.record.accepted || active.value.result.Some?))
    then s.(unmatched := s.unmatched + 1)
    else
      var p := active.value;
      s.(slot := Release(s.slot, p, if busy then ErrorOf(p.record, Busy) else Settled(p)))
  }

  function ControlStep(s: Shared, generation: Option<nat>): Shared {
    if generation.None? then FailStep(s, "control") else AdvanceStep(s, generation.value)
  }

  datatype Lifecycle = MasterReady | SessionIdentity(valid: bool) | StoppingLine | OtherLine

  function LifecycleStep(s: Shared, line: Lifecycle): Shared {
    match line
    case MasterReady => s.(status := Recompute(s.status.(nativeReady := true)))
    case SessionIdentity(valid) =>
      if valid then s.(status := Recompute(s.status.(nativeReady := true))) else FailStep(s, "session")
    case StoppingLine => s.(status := s.status.(stopping := true, ready := false))
    case OtherLine => s
  }

  datatype TelemetryLine = BadTelemetry | Telemetry(nonceMatches: bool, generation: nat, sequence: nat)

  predicate Accepts(s: Shared, line: TelemetryLine) {
    && line.Telemetry? && line.nonceMatches
    && s.status.generation == Some(line.generation) && line.sequence > s.telemetry.sequence
  }

  function TelemetryStep(s: Shared, line: TelemetryLine): Shared {
    var c := s.telemetry;
    if line.BadTelemetry? || !line.nonceMatches then s.(telemetry := c.(invalid := c.invalid + 1))
    else if s.status.generation != Some(line.generation) || line.sequence <= c.sequence
    then s.(telemetry := c.(stale := c.stale + 1))
    else s.(telemetry := c.(gaps := c.gaps + (line.sequence - c.sequence - 1), sequence := line.sequence))
  }

  /** The game has exited and its output has drained. */
  function PumpEndStep(s: Shared, problem: Option<string>): Shared {
    s.(status := s.status.(running := false, ready := false,
                           failure := if s.status.failure.Some? then s.status.failure else problem),
       slot := if s.slot.active.None? then s.slot
               else Release(s.slot, s.slot.active.value, Settled(s.slot.active.value)))
  }

  // ----- Events

  datatype Event =
    | Install(id: RequestId, operation: Method, epoch: nat)
    | MarkWritten
    | Expire(id: RequestId)
    | Stop
    | BootstrapLine(report: Bootstrap)
    | RpcLine(response: RpcResponse)
    | Barrier(busy: bool)
    | ControlLine(generation: Option<nat>)
    | LifecycleLine(line: Lifecycle)
    | TelemetryFrame(frame: TelemetryLine)
    | Fail(message: string)
    | PumpEnd(problem: Option<string>)

  function Apply(s: Shared, event: Event): Shared {
    match event
    case Install(id, operation, epoch) => InstallStep(s, id, operation, epoch)
    case MarkWritten => MarkWrittenStep(s)
    case Expire(id) => ExpireStep(s, id)
    case Stop => StopStep(s)
    case BootstrapLine(report) => BootstrapStep(s, report)
    case RpcLine(response) => RpcStep(s, response)
    case Barrier(busy) => BarrierStep(s, busy)
    case ControlLine(generation) => ControlStep(s, generation)
    case LifecycleLine(line) => LifecycleStep(s, line)
    case TelemetryFrame(frame) => TelemetryStep(s, frame)
    case Fail(message) => FailStep(s, message)
    case PumpEnd(problem) => PumpEndStep(s, problem)
  }

  function Run(s: Shared, events: seq<Event>): Shared
    decreases |events|
  {
    if events == [] then s else Run(Apply(s, events[0]), events[1..])
  }

  lemma {:induction false} RunSplit(s: Shared, before: seq<Event>, after: seq<Event>)
    ensures Run(s, before + after) == Run(Run(s, before), after)
    decreases |before|
  {
    if before == [] {
      assert before + after == after;
    } else {
      assert (before + after)[1..] == before[1..] + after;
      RunSplit(Apply(s, before[0]), before[1..], after);
    }
  }

  // ----- Readiness over whole runs

  ghost predicate ReadyInvariant(s: Status) {
    && (s.ready <==> Healthy(s))
    && (s.stopRequested ==> s.stopping)
    && (s.health.Some? ==> s.generation.Some?)
  }

  /** What no event undoes: a requested stop, the first failure, the end of the process, the order of
      generations, and the truth of `ready`. */
  ghost predicate Progress(s: Status, t: Status) {
    && (s.stopRequested ==> t.stopRequested)
    && (s.failure.Some? ==> t.failure == s.failure)
    && (!s.running ==> !t.running)
    && (s.generation.Some? ==> t.generation.Some? && s.generation.value <= t.generation.value)
    && (ReadyInvariant(s) ==> ReadyInvariant(t))
  }

  lemma ReportProgress(s: Shared, generation: nat, health: Option<Payload>)
    ensures Progress(s.status, ReportStep(s, generation, health).status)
  {}

  lemma RpcProgress(s: Shared, response: RpcResponse)
    ensures Progress(s.status, RpcStep(s, response).status)
  {}

  lemma BootstrapProgress(s: Shared, report: Bootstrap)
    ensures Progress(s.status, BootstrapStep(s, report).status)
  {
    match report
    case Announcement(generation) => if generation.Some? { ReportProgress(s, generation.value, None); }
    case HealthReport(health, _) =>
      if health.generation.Some? { ReportProgress(s, health.generation.value, Some(health)); }
    case _ =>
  }

  lemma ControlProgress(s: Shared, generation: Option<nat>)
    ensures Progress(s.status, ControlStep(s, generation).status)
  {}

  lemma LifecycleProgress(s: Shared, line: Lifecycle)
    ensures Progress(s.status, LifecycleStep(s, line).status)
  {}

  lemma EventProgress(s: Shared, event: Event)
    ensures Progress(s.status, Apply(s, event).status)
  {
    match event
    case BootstrapLine(report) => BootstrapProgress(s, report);
    case ControlLine(generation) => ControlProgress(s, generation);
    case LifecycleLine(line) => LifecycleProgress(s, line);
    case RpcLine(response) => RpcProgress(s, response);
    case _ =>
  }

  lemma {:induction false} RunProgress(s: Shared, events: seq<Event>)
    ensures Progress(s.status, Run(s, events).status)
    decreases |events|
  {
    if events != [] {
      EventProgress(s, events[0]);
      RunProgress(Apply(s, events[0]), events[1..]);
    }
  }

  /** In every run of a driver, `ready` means running, not stopping, never failed, natively ready, and
      protocol-3 health with active players for the current generation. */
  lemma ReadyMeansHealthy(events: seq<Event>)
    ensures Run(Fresh, events).status.ready ==> Healthy(Run(Fresh, events).status)
  {
    RunProgress(Fresh, events);
  }

  ghost predicate Doomed(s: Status) {
    s.stopRequested || s.failure.Some? || !s.running
  }

  /** After a requested stop, a recorded failure or the end of the pump the shard is never ready
      again, whatever reloads follow; the first failure is the one kept; generations never go back. */
  lemma NeverReadyAgain(before: seq<Event>, after: seq<Event>)
    ensures var s, t := Run(Fresh, before).status, Run(Fresh, before + after).status;
            && (Doomed(s) ==> !t.ready)
            && (s.failure.Some? ==> t.failure == s.failure)
            && (s.generation.Some? ==> t.generation.Some? && s.generation.value <= t.generation.value)
  {
    RunProgress(Fresh, before);
    RunSplit(Fresh, before, after);
    RunProgress(Run(Fresh, before), after);
  }

  // ----- One answer for every installed request

  /** The channel without mail is exactly the one whose sender still sits in the active slot. */
  ghost predicate MailInvariant(slot: Slot) {
    && (forall c: Channel | c < slot.channels ::
          (c in slot.mail) != (slot.active.Some? && slot.active.value.response == Some(c)))
    && (forall c | c in slot.mail :: c < slot.channels)
    && (slot.active.Some? ==>
          && slot.active.value.record.completed == slot.active.value.response.None?
          && (slot.active.value.response.Some? ==> slot.active.value.response.value < slot.channels))
  }

  ghost predicate MailKept(s: Slot, t: Slot) {
    && s.channels <= t.channels
    && (forall c | c in s.mail :: c in t.mail && t.mail[c] == s.mail[c])
    // A request that has not been answered is never displaced from the slot by another one.
    && (s.active.Some? && !s.active.value.record.completed && t.active.Some? ==>
          t.active.value.record.id == s.active.value.record.id)
  }

  lemma AfterResponseKeeps(p: Pending, response: RpcResponse, current: bool)
    ensures var q := AfterResponse(p, response, current).0;
            && q.response == p.response && q.record.completed == p.record.completed
            && q.record.id == p.record.id && q.record.generation == p.record.generation
  {}

  lemma AnswerMail(slot: Slot, p: Pending, outcome: Outcome)
    requires MailInvariant(slot) && slot.active == Some(p)
    ensures MailInvariant(Answer(slot, p, outcome)) && MailKept(slot, Answer(slot, p, outcome))
    ensures MailInvariant(Release(slot, p, outcome)) && MailKept(slot, Release(slot, p, outcome))
  {}

  lemma UnknownMail(slot: Slot)
    requires MailInvariant(slot)
    ensures MailInvariant(AnswerUnknown(slot)) && MailKept(slot, AnswerUnknown(slot))
  {
    if slot.active.Some? {
      AnswerMail(slot, slot.active.value, ErrorOf(slot.active.value.record, Unknown));
    }
  }

  lemma RpcMail(s: Shared, response: RpcResponse)
    requires MailInvariant(s.slot)
    ensures MailInvariant(RpcStep(s, response).slot) && MailKept(s.slot, RpcStep(s, response).slot)
  {
    UnknownMail(s.slot);
    if response.id.Some? && Holds(s.slot, response.id.value) {
      var p := s.slot.active.value;
      AfterResponseKeeps(p, response, Current(s.status, p));
      var slot := s.slot.(active := Some(AfterResponse(p, response, Current(s.status, p)).0));
      assert MailInvariant(slot);
      UnknownMail(slot);
    }
  }

  /** The steps that only answer: with the settled result, with Busy, or with Unknown. */
  lemma AnsweringMail(s: Shared, event: Event)
    requires MailInvariant(s.slot)
    requires event.Expire? || event.Barrier? || event.PumpEnd?
    ensures MailInvariant(Apply(s, event).slot) && MailKept(s.slot, Apply(s, event).slot)
  {
    if s.slot.active.Some? {
      var p := s.slot.active.value;
      AnswerMail(s.slot, p, Settled(p));
      AnswerMail(s.slot, p, ErrorOf(p.record, Busy));
    }
  }

  /** A line that may name a new generation leaves the slot alone or answers its request with Unknown. */
  lemma ReloadMail(s: Shared, event: Event)
    requires MailInvariant(s.slot)
    requires event.BootstrapLine? || event.ControlLine? || event.LifecycleLine?
    ensures MailInvariant(Apply(s, event).slot) && MailKept(s.slot, Apply(s, event).slot)
  {
    UnknownMail(s.slot);
    assert Apply(s, event).slot == s.slot || Apply(s, event).slot == AnswerUnknown(s.slot);
  }

  lemma MailStep(s: Shared, event: Event)
    requires MailInvariant(s.slot)
    ensures MailInvariant(Apply(s, event).slot) && MailKept(s.slot, Apply(s, event).slot)
  {
    match event
    case RpcLine(response) => RpcMail(s, response);
    case BootstrapLine(_) => ReloadMail(s, event);
    case ControlLine(_) => ReloadMail(s, event);
    case LifecycleLine(_) => ReloadMail(s, event);
    case Fail(_) => UnknownMail(s.slot);
    case Expire(_) => AnsweringMail(s, event);
    case Barrier(_) => AnsweringMail(s, event);
    case PumpEnd(_) => AnsweringMail(s, event);
    case _ =>
  }

  /** Once the process has ended the slot stays empty. */
  lemma EndedStep(s: Shared, event: Event)
    requires ReadyInvariant(s.status) && (!s.status.running ==> s.slot.active.None?)
    ensures !Apply(s, event).status.running ==> Apply(s, event).slot.active.None?
  {}

  lemma {:induction false} RunMail(s: Shared, events: seq<Event>)
    requires MailInvariant(s.slot) && ReadyInvariant(s.status) && (!s.status.running ==> s.slot.active.None?)
    ensures MailInvariant(Run(s, events).slot)
    ensures forall c | c in s.slot.mail ::
              c in Run(s, events).slot.mail && Run(s, events).slot.mail[c] == s.slot.mail[c]
    ensures !Run(s, events).status.running ==> Run(s, events).slot.active.None?
    decreases |events|
  {
    if events != [] {
      MailStep(s, events[0]);
      EndedStep(s, events[0]);
      EventProgress(s, events[0]);
      RunMail(Apply(s, events[0]), events[1..]);
    }
  }

  /** Over every run each installed request gets exactly one answer: an answer is never sent twice or
      altered, only the request in the slot can be without one, and after the pump has ended none is. */
  lemma OneAnswerEach(before: seq<Event>, after: seq<Event>)
    ensures var s, t := Run(Fresh, before), Run(Fresh, before + after);
            && MailInvariant(s.slot)
            && (forall c | c in s.slot.mail :: c in t.slot.mail && t.slot.mail[c] == s.slot.mail[c])
            && (!s.status.running ==> forall c: Channel | c < s.slot.channels :: c in s.slot.mail)
  {
    RunSplit(Fresh, before, after);
    RunProgress(Fresh, before);
    RunMail(Fresh, before);
    RunMail(Run(Fresh, before), after);
  }

  // ----- Telemetry accounting

  function AcceptedIn(s: Shared, events: seq<Event>): nat
    decreases |events|
  {
    if events == [] then 0
    else (if events[0].TelemetryFrame? && Accepts(s, events[0].frame) then 1 else 0)
         + AcceptedIn(Apply(s, events[0]), events[1..])
  }

  function LinesIn(events: seq<Event>): nat {
    if events == [] then 0 else (if events[0].TelemetryFrame? then 1 else 0) + LinesIn(events[1..])
  }

  /** The sum of the last sequence numbers of the generations that the run leaves behind. */
  function ClosedIn(s: Shared, events: seq<Event>): nat
    decreases |events|
  {
    if events == [] then 0
    else (if Apply(s, events[0]).status.generation != s.status.generation then s.telemetry.sequence else 0)
         + ClosedIn(Apply(s, events[0]), events[1..])
  }

  /** Only telemetry lines move the counters; a new generation starts again at sequence 0. */
  ghost predicate Untouched(s: Shared, t: Shared) {
    t.telemetry == if t.status.generation == s.status.generation then s.telemetry else s.telemetry.(sequence := 0)
  }

  lemma BootstrapUntouched(s: Shared, report: Bootstrap)
    ensures Untouched(s, BootstrapStep(s, report))
  {}

  lemma RpcUntouched(s: Shared, response: RpcResponse)
    ensures Untouched(s, RpcStep(s, response))
  {}

  lemma TelemetryUntouched(s: Shared, event: Event)
    requires !event.TelemetryFrame?
    ensures Untouched(s, Apply(s, event))
  {
    match event
    case BootstrapLine(report) => BootstrapUntouched(s, report);
    case RpcLine(response) => RpcUntouched(s, response);
    case _ =>
  }

  lemma TelemetryBalance(s: Shared, event: Event)
    ensures var c, t := s.telemetry, Apply(s, event);
            var accepted := if event.TelemetryFrame? && Accepts(s, event.frame) then 1 else 0;
            var closed := if t.status.generation != s.status.generation then c.sequence else 0;
            && closed + t.telemetry.sequence + c.gaps == c.sequence + accepted + t.telemetry.gaps
            && t.telemetry.invalid + t.telemetry.stale + accepted
               == c.invalid + c.stale + (if event.TelemetryFrame? then 1 else 0)
            && (accepted == 1 ==> c.sequence < t.telemetry.sequence)
  {
    if !event.TelemetryFrame? {
      TelemetryUntouched(s, event);
    }
  }

  /** Every line is counted once, and over all generations the last sequence numbers add up to the
      accepted records plus the recorded gaps. */
  lemma {:induction false} TelemetryConserved(s: Shared, events: seq<Event>)
    ensures var c, t := s.telemetry, Run(s, events).telemetry;
            && ClosedIn(s, events) + t.sequence + c.gaps == c.sequence + AcceptedIn(s, events) + t.gaps
            && t.invalid + t.stale + AcceptedIn(s, events) == c.invalid + c.stale + LinesIn(events)
    decreases |events|
  {
    if events != [] {
      TelemetryBalance(s, events[0]);
      TelemetryConserved(Apply(s, events[0]), events[1..]);
    }
  }

  // ----- All laws together

  /** What holds after every sequence of events. */
  ghost predicate Lawful(events: seq<Event>) {
    var s := Run(Fresh, events);
    && (s.status.ready ==> Healthy(s.status)) && (Doomed(s.status) ==> !s.status.ready)
    && MailInvariant(s.slot)
    && (!s.status.running ==> forall c: Channel | c < s.slot.channels :: c in s.slot.mail)
    && ClosedIn(Fresh, events) + s.telemetry.sequence == AcceptedIn(Fresh, events) + s.telemetry.gaps
    && s.telemetry.invalid + s.telemetry.stale + AcceptedIn(Fresh, events) == LinesIn(events)
  }

  /** What no event undoes. */
  ghost predicate Kept(s: Shared, t: Shared) {
    MailKept(s.slot, t.slot) && Progress(s.status, t.status) && (Doomed(s.status) ==> !t.status.ready)
  }

  lemma AlwaysLawful(events: seq<Event>)
    ensures Lawful(events)
  {
    ReadyMeansHealthy(events);
    assert events + [] == events;
    NeverReadyAgain(events, []);
    OneAnswerEach(events, []);
    TelemetryConserved(Fresh, events);
  }

  lemma OneMore(events: seq<Event>, event: Event)
    ensures Run(Fresh, events + [event]) == Apply(Run(Fresh, events), event)
    ensures Lawful(events + [event]) && Kept(Run(Fresh, events), Apply(Run(Fresh, events), event))
  {
    RunSplit(Fresh, events, [event]);
    assert [event][1..] == [];
    AlwaysLawful(events + [event]);
    var s := Run(Fresh, events);
    OneAnswerEach(events, []);
    assert events + [] == events;
    MailStep(s, event);
    EventProgress(s, event);
    NeverReadyAgain(events, [event]);
  }

  /** Never ready again, whatever follows these events. */
  ghost predicate Finished(events: seq<Event>) {
    forall more :: !Run(Fresh, events + more).status.ready
  }

  lemma DoomedForever(events: seq<Event>)
    requires Doomed(Run(Fresh, events).status)
    ensures Finished(events)
  {
    forall more ensures !Run(Fresh, events + more).status.ready {
      NeverReadyAgain(events, more);
    }
  }
}
