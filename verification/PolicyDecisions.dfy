/** What a tick decides, action by action, against the planner that computes it. */
module PolicyDecisions {
  import opened Options
  import opened Policy
  import opened PolicyLaws
  import opened IdleRegeneration
  import Schedule

  function Seconds(n: int): int {
    n * 1_000_000_000
  }

  function Hours(n: int): int {
    Seconds(3600 * n)
  }

  // ----- What a tick takes in

  /** By how much the wall clock has been set since the last tick, if it has: backwards at all, or by more than 30
      seconds against the monotonic clock. */
  function Correction(s: State, now: Time, monotonic: Option<nat>): Option<int> {
    if s.lastWall.None? then None
    else
      var wall := now - s.lastWall.value;
      if s.lastMonotonic.None? || monotonic.None? then (if wall < 0 then Some(wall) else None)
      else
        var shift := if monotonic.value <= s.lastMonotonic.value then wall
                  else wall - (monotonic.value - s.lastMonotonic.value);
        if wall < 0 || shift > Seconds(30) || shift < -Seconds(30) then Some(shift) else None
  }

  /** An opening that no tick has reported, on a steady clock. */
  predicate Opens(s: State, h: Happening)
    requires h.Ticks? && h.schedule.Answered?
  {
    var opening := h.schedule.state.openingId;
    && opening.Some? && opening != s.currentOpening && (s.lastOpening.Some? ==> s.lastOpening.value < opening.value)
    && Correction(s, h.now, h.inputs.monotonic).None?
  }

  /** A correction of the clock moves the pending deadlines with it. */
  function Timed(phase: ModPhase, shift: int): ModPhase {
    if phase.Announcing? then Announcing(phase.deadline + shift, phase.nextNotice + shift)
    else if phase.Retry? then Retry(phase.notBefore + shift)
    else phase
  }

  /** Mod maintenance after the tick has looked at the Mods: a failure is forgotten at a new opening, newly outdated
      Mods are queued, and without automatic updates nothing is kept that nobody asked for. */
  ghost predicate ModsTakenIn(m: Mods, shift: Option<int>, opens: bool, rules: Rules, outdated: bool, n: Mods) {
    var again := opens && m.phase.Failed?;
    var off := !rules.modAutoUpdate && (again || (!m.manual && m.attempts == 0));
    && n.observedOutdated == outdated
    && n.attempts == (if again || off then 0 else m.attempts)
    && n.manual == (m.manual && !again && !off)
    && n.failing == (m.failing && !again && !off)
    && n.resumeGame == (m.resumeGame || again || off)
    && n.phase == (if off then Idle
                   else if again then Pending
                   else if m.phase.Idle? && rules.modAutoUpdate && outdated && !m.observedOutdated then Pending
                   else if shift.Some? then Timed(m.phase, shift.value) else m.phase)
  }

  /** Every expected shard has answered reliably, and no other. */
  ghost predicate AllAnswered(i: Inputs) {
    && i.allReady && i.expected != []
    && (forall a | 0 <= a < |i.expected| :: i.expected[a] in i.presence && i.presence[i.expected[a]].reliable)
    && (forall name | name in i.presence :: exists a | 0 <= a < |i.expected| :: i.expected[a] == name)
  }

  predicate Inhabited(p: Presence) {
    p.clients > 0 || p.players > 0
  }

  /** The record goes on in these sessions, seen all the time or stopped cleanly. */
  ghost predicate GoesOn(a: Activity, i: Inputs) {
    && !a.interrupted && a.sessions == (map name | name in i.presence :: i.presence[name].session)
    && (a.cleanShutdown
        || (a.observations == (map name | name in i.presence :: i.presence[name].observation)
            && forall name | name in i.presence ::
                 name in a.observedTimes && a.observedTimes[name] <= i.presence[name].observed))
  }

  /** A sign of activity at this time: somebody is there now, or a shard says how long it has been idle. */
  ghost predicate Sign(i: Inputs, now: Time, at: Time) {
    exists name | name in i.presence :: SignOf(i.presence[name], now, at)
  }

  predicate SignOf(p: Presence, now: Time, at: Time) {
    if Inhabited(p) then at == now else p.idle < p.observed && at == now - p.idle
  }

  /** The record of activity after the tick has looked at the shards. */
  ghost predicate ActivityTakenIn(before: Option<Activity>, now: Time, i: Inputs, corrected: bool,
                                  after: Option<Activity>) {
    if !AllAnswered(i) then
      && after.Some? == before.Some?
      && (before.Some? ==>
            var a, b := before.value, after.value;
            && b.cleanShutdown == (a.cleanShutdown && !corrected)
            && b.interrupted == (a.interrupted || corrected || (!a.cleanShutdown && !i.cleanStop))
            && b == a.(cleanShutdown := b.cleanShutdown, interrupted := b.interrupted))
    else
      && after.Some? && !after.value.cleanShutdown && !after.value.interrupted
      && after.value.sessions == (map name | name in i.presence :: i.presence[name].session)
      && after.value.observations == (map name | name in i.presence :: i.presence[name].observation)
      && after.value.observedTimes == (map name | name in i.presence :: i.presence[name].observed)
      && var base := if before.Some? && !corrected && GoesOn(before.value, i) && before.value.lastActive < now
                     then before.value.lastActive else now;
         && base <= after.value.lastActive
         && (forall at | Sign(i, now, at) :: at <= after.value.lastActive)
         && (after.value.lastActive == base || Sign(i, now, after.value.lastActive))
  }

  /** The state that the tick decides on. */
  ghost predicate TakenIn(s: State, h: Happening, n: State)
    requires h.Ticks? && h.schedule.Answered?
  {
    var shift := Correction(s, h.now, h.inputs.monotonic);
    && n.lastWall == Some(h.now) && n.lastMonotonic == h.inputs.monotonic && n.lastNotice == s.lastNotice
    && n.currentOpening == h.schedule.state.openingId
    && n.lastOpening == (if Opens(s, h) then h.schedule.state.openingId else s.lastOpening)
    && ModsTakenIn(s.mods, shift, Opens(s, h), h.rules, h.inputs.modsOutdated, n.mods)
    && ActivityTakenIn(s.activity, h.now, h.inputs, shift.Some?, n.activity)
  }

  // ----- When each action is due

  /** The room may be open, and nothing is being written or broken. */
  predicate Unhindered(h: Happening)
    requires h.Ticks? && h.schedule.Answered?
  {
    h.schedule.state.open && !h.inputs.writes && !h.inputs.faulted
  }

  predicate Maintaining(n: State) {
    !n.mods.phase.Idle? && !n.mods.phase.Failed?
  }

  predicate ClosesSoon(h: Happening)
    requires h.Ticks? && h.schedule.Answered?
  {
    h.schedule.state.nextChange.Some? && h.schedule.state.nextChange.value <= h.now + Seconds(60)
  }

  /** Mod maintenance may go on: no closing is near and nothing else is under way. */
  predicate GoesAhead(n: State, h: Happening)
    requires h.Ticks? && h.schedule.Answered?
  {
    Unhindered(h) && Maintaining(n) && !ClosesSoon(h) && !h.inputs.busy
  }

  predicate Waiting(n: State, now: Time) {
    n.mods.phase.Pending? || (n.mods.phase.Retry? && n.mods.phase.notBefore <= now)
  }

  predicate StopsAtClosing(h: Happening)
    requires h.Ticks? && h.schedule.Answered?
  {
    !h.schedule.state.open && h.inputs.gameRunning && !h.inputs.writes
  }

  predicate StopsAfterFailure(n: State, h: Happening)
    requires h.Ticks? && h.schedule.Answered?
  {
    Unhindered(h) && n.mods.phase.Failed? && h.inputs.gameRunning
  }

  predicate StopsForUpdate(n: State, h: Happening)
    requires h.Ticks? && h.schedule.Answered?
  {
    && GoesAhead(n, h) && h.inputs.gameRunning
    && (n.mods.phase.Stopping? || (n.mods.phase.Announcing? && n.mods.phase.deadline <= h.now))
  }

  predicate BeginsCountdown(n: State, h: Happening)
    requires h.Ticks? && h.schedule.Answered?
  {
    GoesAhead(n, h) && h.inputs.gameRunning && h.inputs.allReady && Waiting(n, h.now)
  }

  predicate CountsDown(n: State, h: Happening)
    requires h.Ticks? && h.schedule.Answered?
  {
    && GoesAhead(n, h) && h.inputs.gameRunning && n.mods.phase.Announcing?
    && n.mods.phase.nextNotice <= h.now < n.mods.phase.deadline
  }

  predicate UpdatesNow(n: State, h: Happening)
    requires h.Ticks? && h.schedule.Answered?
  {
    && GoesAhead(n, h) && !h.inputs.gameRunning
    && (Waiting(n, h.now) || n.mods.phase.Announcing? || n.mods.phase.Stopping?)
  }

  /** Nothing is to be done about the Mods, and nothing else is under way. */
  predicate AtEase(n: State, h: Happening)
    requires h.Ticks? && h.schedule.Answered?
  {
    Unhindered(h) && n.mods.phase.Idle? && !h.inputs.busy
  }

  predicate StartsGame(n: State, h: Happening)
    requires h.Ticks? && h.schedule.Answered?
  {
    AtEase(n, h) && !h.inputs.gameRunning
  }

  /** How long a world that nobody visits is kept, by its age in days. */
  function KeptFor(day: nat): int {
    if day > 280 then Hours(168)
    else if day > 70 then Hours(72)
    else if day > 30 then Hours(36)
    else if day > 8 then Hours(24)
    else Hours(6)
  }

  ghost predicate Regenerates(n: State, h: Happening)
    requires h.Ticks? && h.schedule.Answered?
  {
    && AtEase(n, h) && h.inputs.gameRunning && h.rules.idleRegeneration
    && AllAnswered(h.inputs) && (forall name | name in h.inputs.presence :: !Inhabited(h.inputs.presence[name]))
    && h.inputs.masterDay.Some? && n.activity.Some? && !n.activity.value.interrupted
    && n.activity.value.lastActive + KeptFor(h.inputs.masterDay.value) < h.now
  }

  /** The closing is this many minutes away, counted in whole seconds and rounded up. */
  predicate MinutesLeft(now: Time, close: Time, minutes: int) {
    Seconds(60 * minutes - 59) <= close - now < Seconds(60 * minutes + 1)
  }

  /** A notice that has not been given, for a closing at most eight minutes away. */
  ghost predicate NoticeOf(n: State, h: Happening, notice: Notice)
    requires h.Ticks? && h.schedule.Answered?
  {
    && h.inputs.gameRunning && h.inputs.allReady && h.schedule.state.nextChange == Some(notice.close)
    && 1 <= notice.minutes <= 8 && MinutesLeft(h.now, notice.close, notice.minutes) && n.lastNotice != Some(notice)
  }

  ghost predicate GivesNotice(n: State, h: Happening, notice: Notice)
    requires h.Ticks? && h.schedule.Answered?
  {
    && NoticeOf(n, h, notice)
    && ((AtEase(n, h) && !Regenerates(n, h))
        || (Unhindered(h) && Maintaining(n) && ClosesSoon(h) && !h.inputs.busy))
  }

  // ----- What the tick decides

  /** Each action is decided exactly when it is due. */
  ghost predicate ActionDue(n: State, h: Happening, action: Option<Action>)
    requires h.Ticks? && h.schedule.Answered?
  {
    && (action == Some(StopGame(ScheduleStop)) <==> StopsAtClosing(h))
    && (action == Some(StopGame(ModFailureStop)) <==> StopsAfterFailure(n, h))
    && (action == Some(StopGame(ModUpdateStop)) <==> StopsForUpdate(n, h))
    && (action == Some(StartGame) <==> StartsGame(n, h))
    && (forall k :: action == Some(UpdateMods(k)) <==> UpdatesNow(n, h) && k == n.mods.attempts + 1)
    && (forall sessions :: action == Some(Regenerate(sessions)) <==>
          Regenerates(n, h) && sessions == n.activity.value.sessions)
    && (action == Some(Announce) <==>
          BeginsCountdown(n, h) || CountsDown(n, h) || exists notice :: GivesNotice(n, h, notice))
  }

  /** The next notice of a countdown: a whole number of half minutes before the deadline, the first of these that is at
      least a millisecond away, or the deadline itself. */
  predicate NextInCountdown(now: Time, deadline: Time, next: Time) {
    && next <= deadline && (deadline - next) % Seconds(30) == 0
    && (next == deadline || next >= now + 1_000_000) && next - Seconds(30) < now + 1_000_000
  }

  /** The Mod phase afterwards. */
  ghost predicate PhaseAfter(n: State, h: Happening, phase: ModPhase)
    requires h.Ticks? && h.schedule.Answered?
  {
    var before := n.mods.phase;
    if !h.schedule.state.open && (before.Announcing? || before.Stopping?) then phase == Pending
    else if Unhindered(h) && before.Announcing? && ClosesSoon(h) then phase == Pending
    else if StopsForUpdate(n, h) then phase == Stopping
    else if BeginsCountdown(n, h) then phase == Announcing(h.now + Seconds(60), h.now + Seconds(30))
    else if CountsDown(n, h) then
      phase.Announcing? && phase.deadline == before.deadline
      && NextInCountdown(h.now, before.deadline, phase.nextNotice)
    else if UpdatesNow(n, h) then phase == Updating
    else phase == before
  }

  ghost predicate StateAfter(n: State, h: Happening, t: State)
    requires h.Ticks? && h.schedule.Answered?
  {
    && t == n.(mods := t.mods, activity := t.activity, lastNotice := t.lastNotice)
    && t.mods == n.mods.(phase := t.mods.phase, attempts := t.mods.attempts)
    && t.mods.attempts == n.mods.attempts + (if UpdatesNow(n, h) then 1 else 0)
    && PhaseAfter(n, h, t.mods.phase)
    && t.activity == (if Regenerates(n, h) then Some(n.activity.value.(lastActive := h.now)) else n.activity)
    && (forall notice | GivesNotice(n, h, notice) :: t.lastNotice == Some(notice))
    && ((forall notice :: !GivesNotice(n, h, notice)) ==> t.lastNotice == n.lastNotice)
  }

  /** A planned tick, from the state before it to its action and the state after it. */
  ghost predicate Decided(s: State, h: Happening, action: Option<Action>, t: State)
    requires h.Ticks? && h.schedule.Answered?
  {
    exists n :: TakenIn(s, h, n) && ActionDue(n, h, action) && StateAfter(n, h, t)
  }

  // ----- The planner takes in what it should

  lemma ClockExactly(s: State, now: Time, monotonic: Option<nat>)
    ensures ClockChanged(s, now, monotonic) <==> Correction(s, now, monotonic).Some?
    ensures Correction(s, now, monotonic).Some? ==> Correction(s, now, monotonic) == Some(Skew(s, now, monotonic))
  {}

  lemma AnsweredExactly(i: Inputs)
    requires ValidInputs(i)
    ensures Reliable(i) <==> AllAnswered(i)
  {
    var names := set a | 0 <= a < |i.expected| :: i.expected[a];
    Distinct(i.expected);
    if Reliable(i) {
      ExactShards(i);
      assert forall name | name in i.presence :: name in names;
    }
    if AllAnswered(i) {
      assert names == i.presence.Keys;
    }
  }

  lemma {:induction false} LatestSigns(i: Inputs, names: seq<string>, now: Time, base: Time)
    requires base <= now
    ensures var last := Latest(i, names, now, base);
            && base <= last <= now && (last == base || Sign(i, now, last))
            && (forall k | 0 <= k < |names| && names[k] in i.presence && Inhabited(i.presence[names[k]]) :: last == now)
            && (forall k | 0 <= k < |names| && names[k] in i.presence ::
                  i.presence[names[k]].idle < i.presence[names[k]].observed ==> now - i.presence[names[k]].idle <= last)
    decreases |names|
  {
    if names != [] {
      var n := |names| - 1;
      LatestSigns(i, names[..n], now, base);
      assert forall k | 0 <= k < n :: names[..n][k] == names[k];
      OneMoreSign(i, names[n], now, Latest(i, names[..n], now, base), Latest(i, names, now, base));
    }
  }

  /** What one shard more means for the latest sign. */
  lemma OneMoreSign(i: Inputs, name: string, now: Time, before: Time, last: Time)
    requires before <= now
    requires last == if name !in i.presence then before
                     else if Inhabited(i.presence[name]) then now
                     else if i.presence[name].idle < i.presence[name].observed && before < now - i.presence[name].idle
                     then now - i.presence[name].idle else before
    ensures before <= last <= now && (last == before || Sign(i, now, last))
    ensures name in i.presence && Inhabited(i.presence[name]) ==> last == now
    ensures name in i.presence && i.presence[name].idle < i.presence[name].observed ==>
              now - i.presence[name].idle <= last
  {
    if last != before {
      assert SignOf(i.presence[name], now, last);
    }
  }

  lemma ActivityExactly(before: Option<Activity>, now: Time, i: Inputs, corrected: bool)
    requires ValidInputs(i)
    ensures ActivityTakenIn(before, now, i, corrected, Observed(before, now, i, corrected))
  {
    AnsweredExactly(i);
    if Reliable(i) {
      var base := if before.Some? && !corrected && GoesOn(before.value, i) && before.value.lastActive < now
                  then before.value.lastActive else now;
      LatestIsLast(i, now, base);
      assert Observed(before, now, i, corrected).value.lastActive == Latest(i, i.expected, now, base);
    }
  }

  lemma LatestIsLast(i: Inputs, now: Time, base: Time)
    requires AllAnswered(i) && base <= now
    ensures var last := Latest(i, i.expected, now, base);
            base <= last && (last == base || Sign(i, now, last)) && forall at | Sign(i, now, at) :: at <= last
  {
    LatestSigns(i, i.expected, now, base);
    forall at | Sign(i, now, at) ensures at <= Latest(i, i.expected, now, base) {
      var name :| name in i.presence && SignOf(i.presence[name], now, at);
      var a :| 0 <= a < |i.expected| && i.expected[a] == name;
    }
  }

  lemma ModsExactly(s: State, h: Happening)
    requires h.Ticks? && h.schedule.Answered?
    ensures ModsTakenIn(s.mods, Correction(s, h.now, h.inputs.monotonic), Opens(s, h), h.rules, h.inputs.modsOutdated,
                        Noted(s, h.rules, h.now, h.inputs, h.schedule.state).mods)
  {
    ClockExactly(s, h.now, h.inputs.monotonic);
  }

  lemma TakesIn(s: State, h: Happening)
    requires h.Ticks? && h.schedule.Answered? && ValidInputs(h.inputs)
    ensures TakenIn(s, h, Noted(s, h.rules, h.now, h.inputs, h.schedule.state))
  {
    ClockExactly(s, h.now, h.inputs.monotonic);
    ModsExactly(s, h);
    ActivityExactly(s.activity, h.now, h.inputs, ClockChanged(s, h.now, h.inputs.monotonic));
  }

  // ----- The planner decides what is due

  function DecisionOf(n: State, h: Happening): Ticked
    requires h.Ticks? && h.schedule.Answered?
  {
    Decide(n, h.rules, h.now, h.inputs, h.schedule.state, h.closing)
  }

  ghost predicate Right(n: State, h: Happening)
    requires h.Ticks? && h.schedule.Answered?
  {
    var r := DecisionOf(n, h);
    r.Planned? ==> ActionDue(n, h, r.action) && StateAfter(n, h, r.state)
  }

  lemma HinderedRight(n: State, h: Happening)
    requires h.Ticks? && h.schedule.Answered? && (!Unhindered(h) || n.mods.phase.Failed?)
    ensures Right(n, h)
  {}

  lemma NextNotice(now: Time, deadline: Time)
    requires now < deadline
    ensures NextInCountdown(now, deadline, deadline - ((SecondsLeft(deadline, now) + 29) / 30 - 1) * 30 * SECOND)
  {
    var seconds := SecondsLeft(deadline, now);
    var k := (seconds + 29) / 30 - 1;
    assert k * 30 * SECOND == k * Seconds(30);
    assert (k * Seconds(30)) % Seconds(30) == 0;
  }

  lemma RunningRight(n: State, h: Happening)
    requires h.Ticks? && h.schedule.Answered? && GoesAhead(n, h) && h.inputs.gameRunning
    ensures Right(n, h)
  {
    if CountsDown(n, h) {
      NextNotice(h.now, n.mods.phase.deadline);
      CountingRight(n, h, ModAction(n.mods, h.now, h.inputs).mods.phase);
    } else if n.mods.phase.Announcing? {
      AnnouncingRight(n, h);
    } else {
      OthersRight(n, h);
    }
  }

  lemma CountingRight(n: State, h: Happening, phase: ModPhase)
    requires h.Ticks? && h.schedule.Answered? && CountsDown(n, h)
    requires ModAction(n.mods, h.now, h.inputs) == Acted(n.mods.(phase := phase), Some(Announce))
    requires PhaseAfter(n, h, phase)
    ensures Right(n, h)
  {}

  lemma AnnouncingRight(n: State, h: Happening)
    requires h.Ticks? && h.schedule.Answered? && GoesAhead(n, h) && h.inputs.gameRunning && n.mods.phase.Announcing?
    requires !CountsDown(n, h)
    ensures Right(n, h)
  {}

  lemma OthersRight(n: State, h: Happening)
    requires h.Ticks? && h.schedule.Answered? && GoesAhead(n, h) && h.inputs.gameRunning && !n.mods.phase.Announcing?
    ensures Right(n, h)
  {}

  lemma StoppedRight(n: State, h: Happening)
    requires h.Ticks? && h.schedule.Answered? && GoesAhead(n, h) && !h.inputs.gameRunning
    ensures Right(n, h)
  {}

  lemma BusyRight(n: State, h: Happening)
    requires h.Ticks? && h.schedule.Answered? && Unhindered(h) && Maintaining(n) && !ClosesSoon(h) && h.inputs.busy
    ensures Right(n, h)
  {}

  /** The closing notice, when the decision comes as far as that. */
  lemma NoticeExactly(n: State, h: Happening)
    requires h.Ticks? && h.schedule.Answered?
    ensures forall notice :: NoticeOf(n, h, notice)
              <==> NewNotice(n, h.now, h.inputs, h.schedule.state)
                   && NoticeFor(h.now, h.inputs, h.schedule.state) == Some(notice)
  {
    forall notice
      ensures NoticeOf(n, h, notice) <==> NewNotice(n, h.now, h.inputs, h.schedule.state)
                                          && NoticeFor(h.now, h.inputs, h.schedule.state) == Some(notice)
    {
      if h.schedule.state.nextChange == Some(notice.close) {
        MinutesExactly(h.now, notice.close, notice.minutes);
      }
    }
  }

  lemma MinutesExactly(now: Time, close: Time, minutes: int)
    ensures ((close - now) / SECOND + 59) / 60 == minutes <==> MinutesLeft(now, close, minutes)
  {}

  lemma SoonRight(n: State, h: Happening)
    requires h.Ticks? && h.schedule.Answered? && Unhindered(h) && Maintaining(n) && ClosesSoon(h)
    ensures Right(n, h)
  {
    NoticeExactly(n, h);
    if !h.inputs.busy {
      GivenOrNot(n, h);
    }
  }

  /** Where the decision comes as far as the notice, it is given exactly if it is new. */
  lemma GivenOrNot(n: State, h: Happening)
    requires h.Ticks? && h.schedule.Answered?
    requires || (AtEase(n, h) && !Regenerates(n, h))
             || (Unhindered(h) && Maintaining(n) && ClosesSoon(h) && !h.inputs.busy)
    ensures (exists notice :: GivesNotice(n, h, notice)) <==> NewNotice(n, h.now, h.inputs, h.schedule.state)
  {
    NoticeExactly(n, h);
    if NewNotice(n, h.now, h.inputs, h.schedule.state) {
      assert GivesNotice(n, h, NoticeFor(h.now, h.inputs, h.schedule.state).value);
    }
  }

  lemma RegenerationExactly(n: State, h: Happening)
    requires h.Ticks? && h.schedule.Answered? && ValidInputs(h.inputs) && AtEase(n, h) && h.inputs.gameRunning
    ensures Regenerates(n, h) <==> CanRegenerate(n, h.rules, h.now, h.inputs)
  {
    AnsweredExactly(h.inputs);
  }

  lemma RestingRight(n: State, h: Happening)
    requires h.Ticks? && h.schedule.Answered? && Unhindered(h) && n.mods.phase.Idle?
    requires h.inputs.busy || !h.inputs.gameRunning
    ensures Right(n, h)
  {}

  lemma IdleRight(n: State, h: Happening)
    requires h.Ticks? && h.schedule.Answered? && ValidInputs(h.inputs) && AtEase(n, h) && h.inputs.gameRunning
    ensures Right(n, h)
  {
    RegenerationExactly(n, h);
    if !Regenerates(n, h) {
      NoticeExactly(n, h);
      GivenOrNot(n, h);
    }
  }

  lemma DecidesRight(n: State, h: Happening)
    requires h.Ticks? && h.schedule.Answered? && ValidInputs(h.inputs)
    ensures Right(n, h)
  {
    if !Unhindered(h) || n.mods.phase.Failed? {
      HinderedRight(n, h);
    } else if n.mods.phase.Idle? && (h.inputs.busy || !h.inputs.gameRunning) {
      RestingRight(n, h);
    } else if n.mods.phase.Idle? {
      IdleRight(n, h);
    } else if ClosesSoon(h) {
      SoonRight(n, h);
    } else if h.inputs.busy {
      BusyRight(n, h);
    } else if h.inputs.gameRunning {
      RunningRight(n, h);
    } else {
      StoppedRight(n, h);
    }
  }

  // ----- Main results

  /** Every planned tick takes in what it sees, decides each action exactly when it is due, and leaves behind exactly
      that state. */
  lemma TickDecides(s: State, h: Happening)
    requires h.Ticks? && Outcome(s, h).Planned?
    ensures Decided(s, h, Outcome(s, h).action, Outcome(s, h).state)
    ensures Reported(s, h) == if Opens(s, h) then h.schedule.state.openingId else None
  {
    ClockExactly(s, h.now, h.inputs.monotonic);
    TakesIn(s, h);
    DecidesRight(Noted(s, h.rules, h.now, h.inputs, h.schedule.state), h);
  }

  lemma RegardsOnce(i: Inputs, before: Option<Activity>, now: Time, corrected: bool, a: Option<Activity>,
                    b: Option<Activity>)
    requires ActivityTakenIn(before, now, i, corrected, a) && ActivityTakenIn(before, now, i, corrected, b)
    ensures a == b
  {}

  /** There is only one state that a tick can take in. */
  lemma TakenInOnce(s: State, h: Happening, a: State, b: State)
    requires h.Ticks? && h.schedule.Answered? && TakenIn(s, h, a) && TakenIn(s, h, b)
    ensures a == b
  {
    RegardsOnce(h.inputs, s.activity, h.now, Correction(s, h.now, h.inputs.monotonic).Some?, a.activity, b.activity);
  }

  /** A tick on a sound state is planned exactly when its inputs are valid, the schedule has an answer now, and it has
      one at the closing time if a notice is to be given. */
  lemma PlannedExactly(s: State, h: Happening)
    requires h.Ticks? && Budgeted(s.mods)
    ensures Outcome(s, h).Planned? <==>
              && ValidInputs(h.inputs) && h.schedule.Answered?
              && (h.closing.Answered? || forall n, notice | TakenIn(s, h, n) :: !GivesNotice(n, h, notice))
  {
    OutcomeBudgeted(s, h);
    if ValidInputs(h.inputs) && h.schedule.Answered? {
      var n := Noted(s, h.rules, h.now, h.inputs, h.schedule.state);
      TakesIn(s, h);
      NotifiesExactly(n, h);
      forall m | TakenIn(s, h, m) ensures m == n {
        TakenInOnce(s, h, m, n);
      }
    }
  }

  lemma NotifiesExactly(n: State, h: Happening)
    requires h.Ticks? && h.schedule.Answered? && ValidInputs(h.inputs)
    ensures Notifies(n, h.rules, h.now, h.inputs, h.schedule.state) <==> exists notice :: GivesNotice(n, h, notice)
  {
    NoticeExactly(n, h);
    if AtEase(n, h) && h.inputs.gameRunning {
      RegenerationExactly(n, h);
    }
    if Notifies(n, h.rules, h.now, h.inputs, h.schedule.state) {
      assert GivesNotice(n, h, NoticeFor(h.now, h.inputs, h.schedule.state).value);
    }
    forall notice | GivesNotice(n, h, notice) ensures Notifies(n, h.rules, h.now, h.inputs, h.schedule.state) {
      assert NoticeOf(n, h, notice);
    }
  }

  /** At startup, when no game runs, an update begins as soon as one is wanted and its waiting time is over. */
  predicate StartsUpdate(m: Mods, now: Time) {
    || m.phase.Pending? || m.phase.Announcing? || m.phase.Stopping?
    || (m.phase.Retry? && m.phase.notBefore <= now)
  }

  /** What a round of the startup loop does. */
  ghost predicate StartedRight(s: State, now: Time, action: Option<Action>, t: State) {
    if StartsUpdate(s.mods, now) then
      && action == Some(UpdateMods(s.mods.attempts + 1))
      && t == s.(mods := s.mods.(phase := Updating, attempts := s.mods.attempts + 1))
    else
      action.None? && t == s
  }
}
