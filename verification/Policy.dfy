/** The room policy as functions on values: what one tick decides and what it leaves behind.

    Times and durations are integers in nanoseconds. The schedule's answers now and at the closing time, or
    their failure, are inputs here; module Schedule says what they are. */
module Policy {
  import opened Options
  import Schedule

  type Time = int

  const SECOND := 1_000_000_000
  const HOUR := 3600 * SECOND
  const CHECK_INTERVAL := 30 * SECOND
  const MOD_NOTICE_DELAY := 60 * SECOND
  const MOD_RETRY_DELAY := 300 * SECOND
  const MOD_ATTEMPTS := 3
  const CLOSING_NOTICE_MINUTES := 8

  datatype Rules = Rules(modAutoUpdate: bool, idleRegeneration: bool)

  datatype Presence = Presence(
    session: string, observation: string, reliable: bool,
    clients: nat, players: nat, idle: nat, observed: nat)

  datatype Inputs = Inputs(
    gameRunning: bool, allReady: bool, cleanStop: bool, busy: bool, writes: bool, faulted: bool,
    modsOutdated: bool, expected: seq<string>, presence: map<string, Presence>,
    masterDay: Option<nat>, monotonic: Option<nat>)

  predicate ValidInputs(i: Inputs) {
    && (i.allReady ==> i.gameRunning)
    && (i.masterDay.Some? ==> i.masterDay.value > 0)
    && (forall a, b | 0 <= a < b < |i.expected| :: i.expected[a] != i.expected[b])
    && (forall a | 0 <= a < |i.expected| :: i.expected[a] != "")
    && (forall name | name in i.presence :: i.presence[name].session != "" && i.presence[name].observation != "")
  }

  predicate Reliable(i: Inputs) {
    && i.allReady && i.expected != [] && |i.presence| == |i.expected|
    && forall a | 0 <= a < |i.expected| :: i.expected[a] in i.presence && i.presence[i.expected[a]].reliable
  }

  predicate Occupied(p: Presence) {
    p.clients != 0 || p.players != 0
  }

  predicate Empty(i: Inputs) {
    forall name | name in i.presence :: !Occupied(i.presence[name])
  }

  function Sessions(i: Inputs): map<string, string> {
    map name | name in i.presence :: i.presence[name].session
  }

  function Observations(i: Inputs): map<string, string> {
    map name | name in i.presence :: i.presence[name].observation
  }

  function ObservedTimes(i: Inputs): map<string, nat> {
    map name | name in i.presence :: i.presence[name].observed
  }

  datatype Activity = Activity(
    sessions: map<string, string>, observations: map<string, string>, observedTimes: map<string, nat>,
    lastActive: Time, cleanShutdown: bool, interrupted: bool)

  datatype ModPhase =
    | Idle
    | Pending
    | Announcing(deadline: Time, nextNotice: Time)
    | Stopping
    | Updating
    | Retry(notBefore: Time)
    | Failed

  datatype Mods = Mods(
    phase: ModPhase, attempts: nat, manual: bool, resumeGame: bool, observedOutdated: bool, failing: bool)

  const NoMods := Mods(Idle, 0, false, true, false, false)

  datatype Notice = Notice(close: Time, minutes: int)

  datatype State = State(
    currentOpening: Option<Time>, lastOpening: Option<Time>, activity: Option<Activity>, mods: Mods,
    lastNotice: Option<Notice>, lastWall: Option<Time>, lastMonotonic: Option<nat>)

  const Initial := State(None, None, None, NoMods, None, None, None)

  datatype StopReason = ScheduleStop | ModUpdateStop | ModFailureStop

  datatype Action =
    | StartGame
    | StopGame(reason: StopReason)
    | Announce
    | UpdateMods(attempt: nat)
    | Regenerate(expected: map<string, string>)

  // ----- Wall clock against monotonic clock

  function Elapsed(s: State, now: Time): int {
    if s.lastWall.None? then 0 else now - s.lastWall.value
  }

  function Skew(s: State, now: Time, monotonic: Option<nat>): int {
    if s.lastWall.None? then 0
    else if s.lastMonotonic.Some? && monotonic.Some? then
      var passed := if monotonic.value < s.lastMonotonic.value then 0 else monotonic.value - s.lastMonotonic.value;
      Elapsed(s, now) - passed
    else if Elapsed(s, now) < 0 then Elapsed(s, now)
    else 0
  }

  predicate ClockChanged(s: State, now: Time, monotonic: Option<nat>) {
    var skew := Skew(s, now, monotonic);
    Elapsed(s, now) < 0 || skew < -CHECK_INTERVAL || skew > CHECK_INTERVAL
  }

  function Shifted(phase: ModPhase, skew: int): ModPhase {
    match phase
    case Announcing(deadline, nextNotice) => Announcing(deadline + skew, nextNotice + skew)
    case Retry(notBefore) => Retry(notBefore + skew)
    case _ => phase
  }

  function ClockStep(s: State, now: Time, monotonic: Option<nat>): State {
    s.(mods := if ClockChanged(s, now, monotonic)
               then s.mods.(phase := Shifted(s.mods.phase, Skew(s, now, monotonic))) else s.mods,
       lastWall := Some(now), lastMonotonic := monotonic)
  }

  // ----- Activity

  predicate Continuous(a: Activity, i: Inputs) {
    && !a.interrupted && a.sessions == Sessions(i)
    && (a.cleanShutdown
        || (a.observations == Observations(i)
            && forall name | name in i.presence ::
                 name in a.observedTimes && i.presence[name].observed >= a.observedTimes[name]))
  }

  /** The latest sign of activity among the named shards. */
  function Latest(i: Inputs, names: seq<string>, now: Time, base: Time): Time {
    if names == [] then base
    else
      var rest := Latest(i, names[..|names| - 1], now, base);
      var name := names[|names| - 1];
      if name !in i.presence then rest
      else if Occupied(i.presence[name]) then now
      else if i.presence[name].idle < i.presence[name].observed && rest < now - i.presence[name].idle
      then now - i.presence[name].idle
      else rest
  }

  function Observed(before: Option<Activity>, now: Time, i: Inputs, changed: bool): Option<Activity> {
    var a := if before.Some? && changed
             then Some(before.value.(interrupted := true, cleanShutdown := false)) else before;
    if !Reliable(i) then
      if a.Some? && !a.value.cleanShutdown && !i.cleanStop then Some(a.value.(interrupted := true)) else a
    else
      var base := if a.Some? && Continuous(a.value, i)
                  then (if a.value.lastActive < now then a.value.lastActive else now) else now;
      Some(Activity(Sessions(i), Observations(i), ObservedTimes(i), Latest(i, i.expected, now, base), false, false))
  }

  function Retention(day: nat): int {
    HOUR * (if day <= 8 then 6 else if day <= 30 then 24 else if day <= 70 then 36 else if day <= 280 then 72 else 168)
  }

  // ----- Mod maintenance

  predicate ValidMods(m: Mods) {
    && m.attempts <= MOD_ATTEMPTS
    && match m.phase
       case Idle => m.attempts == 0
       case Updating => m.attempts > 0
       case Retry(_) => 1 <= m.attempts < MOD_ATTEMPTS
       case Failed => m.attempts == MOD_ATTEMPTS
       case Announcing(deadline, nextNotice) => nextNotice <= deadline
       case _ => true
  }

  function Requested(m: Mods): Mods {
    m.(phase := Pending, attempts := 0, manual := false, resumeGame := true, failing := false)
  }

  datatype Acted = Acted(mods: Mods, action: Option<Action>) | Exhausted

  /** Whole seconds, rounded up, from `now` to the deadline, at least one. */
  function SecondsLeft(deadline: Time, now: Time): int
    requires now < deadline
  {
    var seconds := ((deadline - now) / 1_000_000 + 999) / 1000;
    if seconds < 1 then 1 else seconds
  }

  function BeginUpdate(m: Mods, i: Inputs, now: Time): Acted {
    if i.gameRunning then
      if !i.allReady then Acted(m, None)
      else Acted(m.(phase := Announcing(now + 60 * SECOND, now + 30 * SECOND)), Some(Announce))
    else if m.attempts >= MOD_ATTEMPTS then Exhausted
    else Acted(m.(attempts := m.attempts + 1, phase := Updating), Some(UpdateMods(m.attempts + 1)))
  }

  function ModAction(m: Mods, now: Time, i: Inputs): Acted {
    match m.phase
    case Idle => Acted(m, None)
    case Updating => Acted(m, None)
    case Failed => Acted(m, None)
    case Retry(notBefore) => if now < notBefore then Acted(m, None) else BeginUpdate(m, i, now)
    case Announcing(deadline, nextNotice) =>
      if !i.gameRunning then BeginUpdate(m, i, now)
      else if now >= deadline then Acted(m.(phase := Stopping), Some(StopGame(ModUpdateStop)))
      else if now >= nextNotice then
        var later := deadline - ((SecondsLeft(deadline, now) + 29) / 30 - 1) * 30 * SECOND;
        Acted(m.(phase := Announcing(deadline, later)), Some(Announce))
      else Acted(m, None)
    case Stopping => if i.gameRunning then Acted(m, Some(StopGame(ModUpdateStop))) else BeginUpdate(m, i, now)
    case Pending => BeginUpdate(m, i, now)
  }

  function FinishedMods(m: Mods, now: Time, success: bool): Mods {
    if success then NoMods.(observedOutdated := m.observedOutdated)
    else m.(failing := true,
            phase := if m.attempts >= MOD_ATTEMPTS then Failed else Retry(now + MOD_RETRY_DELAY))
  }

  // ----- One tick

  predicate NewOpening(s: State, schedule: Schedule.State, changed: bool) {
    && schedule.openingId.Some? && !changed && s.currentOpening != schedule.openingId
    && (s.lastOpening.None? || schedule.openingId.value > s.lastOpening.value)
  }

  /** The changes to Mod maintenance that a tick makes before it decides. */
  function ModsSeen(m: Mods, rules: Rules, i: Inputs, opening: bool): Mods {
    var asked := if opening && m.phase.Failed? then Requested(m) else m;
    var queued := if rules.modAutoUpdate && i.modsOutdated && !asked.observedOutdated && asked.phase.Idle?
                  then asked.(phase := Pending) else asked;
    if !rules.modAutoUpdate && !queued.manual && queued.attempts == 0
    then NoMods.(observedOutdated := i.modsOutdated) else queued.(observedOutdated := i.modsOutdated)
  }

  /** The state after the clock, the opening, the Mods and the activity have been taken in. */
  function Noted(s: State, rules: Rules, now: Time, i: Inputs, schedule: Schedule.State): State {
    var changed := ClockChanged(s, now, i.monotonic);
    var opening := NewOpening(s, schedule, changed);
    var timed := ClockStep(s, now, i.monotonic);
    timed.(currentOpening := schedule.openingId,
           lastOpening := if opening then schedule.openingId else s.lastOpening,
           mods := ModsSeen(timed.mods, rules, i, opening),
           activity := Observed(s.activity, now, i, changed))
  }

  function NoticeFor(now: Time, i: Inputs, schedule: Schedule.State): Option<Notice> {
    if schedule.nextChange.None? then None
    else
      var minutes := ((schedule.nextChange.value - now) / SECOND + 59) / 60;
      if i.gameRunning && i.allReady && 1 <= minutes <= CLOSING_NOTICE_MINUTES
      then Some(Notice(schedule.nextChange.value, minutes)) else None
  }

  datatype Ticked = Planned(state: State, action: Option<Action>) | Refused

  /** A notice that has not been given yet; its text needs the schedule's answer at the closing time. */
  predicate NewNotice(s: State, now: Time, i: Inputs, schedule: Schedule.State) {
    NoticeFor(now, i, schedule).Some? && s.lastNotice != NoticeFor(now, i, schedule)
  }

  function WithNotice(s: State, now: Time, i: Inputs, schedule: Schedule.State, closing: Schedule.Answer): Ticked {
    if !NewNotice(s, now, i, schedule) then Planned(s, None)
    else if !closing.Answered? then Refused
    else Planned(s.(lastNotice := NoticeFor(now, i, schedule)), Some(Announce))
  }

  predicate CanRegenerate(s: State, rules: Rules, now: Time, i: Inputs) {
    && rules.idleRegeneration && i.allReady && i.masterDay.Some?
    && s.activity.Some? && !s.activity.value.interrupted
    && Reliable(i) && Empty(i)
    && now - s.activity.value.lastActive > Retention(i.masterDay.value)
  }

  function Decide(s: State, rules: Rules, now: Time, i: Inputs, schedule: Schedule.State, closing: Schedule.Answer)
    : Ticked
  {
    var m := s.mods;
    if !schedule.open then
      Planned(s.(mods := if m.phase.Announcing? || m.phase.Stopping? then m.(phase := Pending) else m),
              if i.gameRunning && !i.writes then Some(StopGame(ScheduleStop)) else None)
    else if i.writes || i.faulted then Planned(s, None)
    else if m.phase.Failed? then Planned(s, if i.gameRunning then Some(StopGame(ModFailureStop)) else None)
    else if !m.phase.Idle? then
      if schedule.nextChange.Some? && schedule.nextChange.value - now <= MOD_NOTICE_DELAY then
        var t := s.(mods := if m.phase.Announcing? then m.(phase := Pending) else m);
        if i.busy then Planned(t, None) else WithNotice(t, now, i, schedule, closing)
      else if i.busy then Planned(s, None)
      else match ModAction(m, now, i)
        case Acted(mods, action) => Planned(s.(mods := mods), action)
        case Exhausted => Refused
    else if i.busy then Planned(s, None)
    else if !i.gameRunning then Planned(s, Some(StartGame))
    else if CanRegenerate(s, rules, now, i) then
      Planned(s.(activity := Some(s.activity.value.(lastActive := now))), Some(Regenerate(s.activity.value.sessions)))
    else WithNotice(s, now, i, schedule, closing)
  }

  /** The tick comes as far as a closing notice, and it is a new one. */
  predicate Notifies(s: State, rules: Rules, now: Time, i: Inputs, schedule: Schedule.State) {
    && schedule.open && !i.writes && !i.faulted && !s.mods.phase.Failed? && !i.busy && NewNotice(s, now, i, schedule)
    && if s.mods.phase.Idle? then !CanRegenerate(s, rules, now, i)
       else schedule.nextChange.value - now <= MOD_NOTICE_DELAY
  }

  /** A tick that fails leaves the stored state as it was. It fails without an answer of the schedule now, or at the
      closing time when that is to be announced. */
  function Tick(s: State, rules: Rules, now: Time, i: Inputs, schedule: Schedule.Answer, closing: Schedule.Answer)
    : Ticked
  {
    if !ValidMods(s.mods) || !ValidInputs(i) || !schedule.Answered? then Refused
    else Decide(Noted(s, rules, now, i, schedule.state), rules, now, i, schedule.state, closing)
  }

  /** The opening that a tick reports as new, which resets the room's recovery. */
  function Reported(s: State, h: Happening): Option<Time> {
    if h.Ticks? && Outcome(s, h).Planned?
       && NewOpening(s, h.schedule.state, ClockChanged(s, h.now, h.inputs.monotonic))
    then h.schedule.state.openingId else None
  }

  /** The inputs of the startup loop, before any game runs. */
  const NoInputs := Inputs(false, false, false, false, false, false, false, [], map[], None, None)

  /** One round of the startup loop: the Mod state machine acts without a game. */
  function Startup(s: State, now: Time): Ticked {
    if !ValidMods(s.mods) then Refused
    else match ModAction(s.mods, now, NoInputs)
      case Acted(mods, action) => Planned(s.(mods := mods), action)
      case Exhausted => Refused
  }

  // ----- Everything that happens to the stored state

  datatype Happening =
    | Ticks(rules: Rules, now: Time, inputs: Inputs, schedule: Schedule.Answer, closing: Schedule.Answer)
    | CleanShutdown
    | Restart(now: Time)
    | StartupAction(now: Time)
    | QueueUpdate
    | RequestUpdate(resume: bool)
    | FinishUpdate(now: Time, success: bool)

  function Outcome(s: State, h: Happening): Ticked {
    match h
    case Ticks(rules, now, inputs, schedule, closing) => Tick(s, rules, now, inputs, schedule, closing)
    case CleanShutdown =>
      Planned(if s.activity.Some? && !s.activity.value.interrupted
              then s.(activity := Some(s.activity.value.(cleanShutdown := true))) else s, None)
    case Restart(now) =>
      Planned(s.(lastWall := None, lastMonotonic := None,
                 mods := if s.mods.phase.Updating? then FinishedMods(s.mods, now, false) else s.mods,
                 activity := if s.activity.Some? && !s.activity.value.cleanShutdown
                             then Some(s.activity.value.(interrupted := true)) else s.activity),
              None)
    case StartupAction(now) => Startup(s, now)
    case QueueUpdate => Planned(if s.mods.phase.Idle? then s.(mods := s.mods.(phase := Pending)) else s, None)
    case RequestUpdate(resume) =>
      if s.mods.phase.Updating? then Refused
      else Planned(s.(mods := Requested(s.mods).(manual := true, resumeGame := resume)), None)
    case FinishUpdate(now, success) =>
      if !s.mods.phase.Updating? then Refused
      else Planned(s.(mods := FinishedMods(s.mods, now, success)), None)
  }

  function After(s: State, h: Happening): State {
    var t := Outcome(s, h);
    if t.Planned? then t.state else s
  }

  /** The stored state after a whole history. */
  function Run(hs: seq<Happening>): State {
    if hs == [] then Initial else After(Run(hs[..|hs| - 1]), hs[|hs| - 1])
  }

  /** What the k-th happening led to. */
  function At(hs: seq<Happening>, k: nat): Ticked
    requires k < |hs|
  {
    Outcome(Run(hs[..k]), hs[k])
  }
}
