/** The stored policy state as an object whose methods update it as the code does. It remembers what has happened to
    it, so that the laws over all histories are laws of every such object. */
module PolicyObject {
  import opened Options
  import opened Policy
  import opened PolicyLaws
  import opened PolicyRuns
  import opened IdleRegeneration
  import PolicyDecisions
  import Schedule

  /** What holds at the end of every history: the Mod phase has the attempt it needs, the updates of the budget are
      numbered from one to at most three, a retry has waited, and a regeneration is safe. */
  ghost predicate Lawful(hs: seq<Happening>) {
    && Budgeted(Run(hs).mods)
    && Issued(hs) == FirstAttempts(Run(hs).mods.attempts) && |Issued(hs)| <= MOD_ATTEMPTS
    && (hs != [] && AllForward(hs) && Updates(At(hs, |hs| - 1)) && LastFailure(hs).Some? ==>
          Acts(hs, |hs| - 1) && hs[|hs| - 1].now >= LastFailure(hs).value + MOD_RETRY_DELAY)
    && (hs != [] && ClockForward(hs) && Regenerated(hs, |hs| - 1) ==> SafeRegeneration(hs, |hs| - 1))
  }

  lemma AlwaysLawful(hs: seq<Happening>)
    ensures Lawful(hs)
  {
    RunBudgeted(hs);
    AtMostThreeUpdates(hs);
    if hs != [] {
      assert hs[..|hs|] == hs;
      if AllForward(hs) && Updates(At(hs, |hs| - 1)) && LastFailure(hs).Some? {
        RetryWaits(hs, |hs| - 1);
      }
      if ClockForward(hs) && Regenerated(hs, |hs| - 1) {
        RegenerationIsSafe(hs, |hs| - 1);
      }
    }
  }

  /** Every opening reported in this history is earlier. */
  ghost predicate LaterThanAll(hs: seq<Happening>, opening: Time) {
    forall j: nat | j < |hs| :: ReportedAt(hs, j).Some? ==> ReportedAt(hs, j).value < opening
  }

  lemma LaterOpening(hs: seq<Happening>, h: Happening)
    ensures Reported(Run(hs), h).Some? ==> LaterThanAll(hs, Reported(Run(hs), h).value)
  {
    if Reported(Run(hs), h).Some? {
      OpeningStep(Run(hs), h);
      forall j: nat | j < |hs|
        ensures ReportedAt(hs, j).Some? ==> ReportedAt(hs, j).value < Reported(Run(hs), h).value
      {
        if ReportedAt(hs, j).Some? {
          OpeningsBelow(hs, j);
        }
      }
    }
  }

  /** What is known of a tick before it is planned. */
  lemma TickFacts(hs: seq<Happening>, h: Happening)
    requires h.Ticks?
    ensures Budgeted(Run(hs).mods) && (Outcome(Run(hs), h).Planned? <==> Plannable(Run(hs), h))
    ensures ReportedAt(hs + [h], |hs|) == Reported(Run(hs), h)
    ensures Reported(Run(hs), h).Some? ==> LaterThanAll(hs, Reported(Run(hs), h).value)
    ensures Outcome(Run(hs), h).Planned? ==>
              PolicyDecisions.Decided(Run(hs), h, Outcome(Run(hs), h).action, Outcome(Run(hs), h).state)
  {
    RunBudgeted(hs);
    OutcomeBudgeted(Run(hs), h);
    if Outcome(Run(hs), h).Planned? {
      PolicyDecisions.TickDecides(Run(hs), h);
    }
    LaterOpening(hs, h);
    assert (hs + [h])[..|hs|] == hs;
  }

  /** A round of the startup loop acts as the Mod state machine and changes nothing else. */
  lemma StartupActs(s: State, now: Time)
    requires Budgeted(s.mods)
    ensures var acted := ModAction(s.mods, now, NoInputs);
            && acted.Acted? && Outcome(s, StartupAction(now)) == Planned(s.(mods := acted.mods), acted.action)
            && PolicyDecisions.StartedRight(s, now, acted.action, s.(mods := acted.mods))
  {
    ActionBudgeted(s.mods, now, NoInputs);
  }

  lemma OneMore(hs: seq<Happening>, h: Happening)
    ensures Run(hs + [h]) == After(Run(hs), h) && At(hs + [h], |hs|) == Outcome(Run(hs), h) && Lawful(hs + [h])
  {
    assert (hs + [h])[..|hs|] == hs;
    AlwaysLawful(hs + [h]);
  }

  class PolicyState {
    var currentOpening: Option<Time>
    var lastOpening: Option<Time>
    var activity: Option<Activity>
    var mods: Mods
    var lastNotice: Option<Notice>
    var lastWall: Option<Time>
    var lastMonotonic: Option<nat>

    function View(): State
      reads this
    {
      State(currentOpening, lastOpening, activity, mods, lastNotice, lastWall, lastMonotonic)
    }

    /** What has happened to the stored state. */
    ghost var history: seq<Happening>

    ghost predicate Valid()
      reads this
    {
      View() == Run(history)
    }

    /** One happening more has been taken in, and all laws hold. */
    ghost predicate Taken(before: seq<Happening>, h: Happening)
      reads this
    {
      Valid() && history == before + [h] && Lawful(history)
    }

    constructor ()
      ensures Valid() && history == [] && View() == Initial
    {
      currentOpening, lastOpening, activity := None, None, None;
      mods, lastNotice, lastWall, lastMonotonic := NoMods, None, None, None;
      history := [];
    }

    /** Enter a happening; the fields are about to be updated for it. */
    ghost method Enter(h: Happening)
      requires Valid()
      modifies this`history
      ensures history == old(history) + [h] && Run(history) == After(View(), h) && Lawful(history)
      ensures At(history, |history| - 1) == Outcome(View(), h) && Budgeted(View().mods)
    {
      OneMore(history, h);
      AlwaysLawful(history);
      history := history + [h];
    }

    /** Compare the wall clock with the monotonic one and move pending deadlines with a correction. */
    method ClockChanged(now: Time, monotonic: Option<nat>) returns (changed: bool)
      modifies this`mods, this`lastWall, this`lastMonotonic
      ensures changed == Policy.ClockChanged(old(View()), now, monotonic)
      ensures View() == ClockStep(old(View()), now, monotonic)
    {
      var skew := 0;
      var backwards := false;
      if lastWall.Some? {
        var elapsed := now - lastWall.value;
        backwards := elapsed < 0;
        if lastMonotonic.Some? && monotonic.Some? {
          var actual := if monotonic.value < lastMonotonic.value then 0 else monotonic.value - lastMonotonic.value;
          skew := elapsed - actual;
        } else if elapsed < 0 {
          skew := elapsed;
        }
      }
      changed := backwards || skew < -CHECK_INTERVAL || skew > CHECK_INTERVAL;
      assert changed == Policy.ClockChanged(View(), now, monotonic) && skew == Skew(View(), now, monotonic);
      if changed {
        MoveDeadlines(skew);
      }
      lastWall := Some(now);
      lastMonotonic := monotonic;
    }

    method MoveDeadlines(skew: int)
      modifies this`mods
      ensures mods == old(mods).(phase := Shifted(old(mods).phase, skew))
    {
      match mods.phase {
        case Announcing(deadline, nextNotice) =>
          mods := mods.(phase := Announcing(deadline + skew, nextNotice + skew));
        case Retry(notBefore) =>
          mods := mods.(phase := Retry(notBefore + skew));
        case _ =>
      }
    }

    method ObserveActivity(now: Time, i: Inputs, changed: bool)
      modifies this`activity
      ensures activity == Observed(old(activity), now, i, changed)
    {
      if changed && activity.Some? {
        activity := Some(activity.value.(interrupted := true, cleanShutdown := false));
      }
      if !Reliable(i) {
        if activity.Some? && !activity.value.cleanShutdown && !i.cleanStop {
          activity := Some(activity.value.(interrupted := true));
        }
        return;
      }
      var lastActive := now;
      if activity.Some? && Continuous(activity.value, i) && activity.value.lastActive < now {
        lastActive := activity.value.lastActive;
      }
      var base := lastActive;
      for n := 0 to |i.expected|
        invariant lastActive == Latest(i, i.expected[..n], now, base)
      {
        assert i.expected[..n + 1][..n] == i.expected[..n];
        var p := i.presence[i.expected[n]];
        if Occupied(p) {
          lastActive := now;
        } else if p.idle < p.observed {
          if lastActive < now - p.idle {
            lastActive := now - p.idle;
          }
        }
      }
      assert i.expected[..|i.expected|] == i.expected;
      activity := Some(Activity(Sessions(i), Observations(i), ObservedTimes(i), lastActive, false, false));
    }

    /** A manual request starts a new budget, unless an update is being written. */
    method RequestModUpdate(resume: bool) returns (ok: bool)
      requires Valid()
      modifies this
      ensures Taken(old(history), RequestUpdate(resume))
      ensures ok == !old(mods).phase.Updating?
      ensures ok ==> Issued(history) == []
      ensures View() == old(View()).(mods := mods)
      ensures mods == if ok then Mods(Pending, 0, true, resume, old(mods).observedOutdated, false) else old(mods)
    {
      Enter(RequestUpdate(resume));
      if mods.phase.Updating? {
        return false;
      }
      mods := Requested(mods);
      mods := mods.(manual := true, resumeGame := resume);
      return true;
    }

    method FinishMods(now: Time, success: bool) returns (ok: bool)
      modifies this`mods
      ensures ok == old(mods).phase.Updating?
      ensures mods == if ok then FinishedMods(old(mods), now, success) else old(mods)
    {
      if !mods.phase.Updating? {
        return false;
      }
      if success {
        mods := NoMods.(observedOutdated := mods.observedOutdated);
      } else {
        mods := mods.(failing := true);
        mods := mods.(phase := if mods.attempts >= MOD_ATTEMPTS then Failed else Retry(now + MOD_RETRY_DELAY));
      }
      return true;
    }

    /** A failure is retried as long as the budget has attempts. */
    method FinishModUpdate(now: Time, success: bool) returns (ok: bool)
      requires Valid()
      modifies this
      ensures Taken(old(history), FinishUpdate(now, success))
      ensures ok == old(mods).phase.Updating?
      ensures ok && !success ==> if |Issued(history)| == MOD_ATTEMPTS then mods.phase.Failed? else mods.phase.Retry?
      ensures ok && success ==> Issued(history) == [] && mods.phase.Idle?
      ensures ok && !success ==>
                mods == old(mods).(failing := true,
                                   phase := if old(mods).attempts == 3 then Failed else Retry(now + 300_000_000_000))
      ensures ok && success ==> mods == Mods(Idle, 0, false, true, old(mods).observedOutdated, false)
      ensures View() == if ok then old(View()).(mods := mods) else old(View())
    {
      Enter(FinishUpdate(now, success));
      ok := FinishMods(now, success);
    }

    /** Marks an uninterrupted record, so that the shutdown does not count as activity. */
    method RecordCleanShutdown()
      requires Valid()
      modifies this
      ensures Taken(old(history), CleanShutdown)
      ensures View() == old(View()).(activity := activity) && activity.Some? == old(activity).Some?
      ensures activity.Some? ==>
                var before := old(activity).value;
                activity.value == before.(cleanShutdown := before.cleanShutdown || !before.interrupted)
    {
      Enter(CleanShutdown);
      if activity.Some? && !activity.value.interrupted {
        activity := Some(activity.value.(cleanShutdown := true));
      }
    }

    /** No update is being written after a restart, and idle time without a clean shutdown before it is forgotten. */
    method ResumeAfterRestart(now: Time)
      requires Valid()
      modifies this
      ensures Taken(old(history), Restart(now))
      ensures !mods.phase.Updating?
      ensures activity.Some? && !activity.value.interrupted ==> old(activity).value.cleanShutdown
      ensures View() == old(View()).(lastWall := None, lastMonotonic := None, mods := mods, activity := activity)
      ensures mods == if !old(mods).phase.Updating? then old(mods)
                      else old(mods).(failing := true,
                                      phase := if old(mods).attempts == 3 then Failed else Retry(now + 300_000_000_000))
      ensures activity.Some? == old(activity).Some?
      ensures activity.Some? ==>
                var before := old(activity).value;
                activity.value == before.(interrupted := before.interrupted || !before.cleanShutdown)
    {
      Enter(Restart(now));
      lastWall := None;
      lastMonotonic := None;
      if mods.phase.Updating? {
        var _ := FinishMods(now, false);
      }
      if activity.Some? && !activity.value.cleanShutdown {
        activity := Some(activity.value.(interrupted := true));
      }
    }

    /** The Agent queues an update for changed Mods when none is under way. */
    method Queue()
      requires Valid()
      modifies this
      ensures Taken(old(history), QueueUpdate) && Issued(history) == Issued(old(history))
      ensures View() == old(View()).(mods := mods)
      ensures mods == if old(mods).phase.Idle? then old(mods).(phase := Pending) else old(mods)
    {
      assert (history + [QueueUpdate])[..|history|] == history;
      Enter(QueueUpdate);
      if mods.phase.Idle? {
        mods := mods.(phase := Pending);
      }
    }

    /** A round of the startup loop never finds the budget exhausted. */
    method StartUp(now: Time) returns (action: Option<Action>)
      requires Valid()
      modifies this
      ensures Taken(old(history), StartupAction(now))
      ensures At(history, |history| - 1) == Planned(View(), action)
      ensures PolicyDecisions.StartedRight(old(View()), now, action, View())
    {
      Enter(StartupAction(now));
      StartupActs(View(), now);
      var acted := ModAction(mods, now, NoInputs);
      mods := acted.mods;
      return acted.action;
    }

    /** The part of a tick that only takes note of what it sees. */
    method Note(rules: Rules, now: Time, i: Inputs, schedule: Schedule.State) returns (reported: Option<Time>)
      modifies this`currentOpening, this`lastOpening, this`activity, this`mods, this`lastWall, this`lastMonotonic
      ensures View() == Noted(old(View()), rules, now, i, schedule)
      ensures reported == if NewOpening(old(View()), schedule, Policy.ClockChanged(old(View()), now, i.monotonic))
                          then schedule.openingId else None
    {
      var changed := ClockChanged(now, i.monotonic);
      var opening := schedule.openingId.Some? && !changed && currentOpening != schedule.openingId
                     && (lastOpening.None? || schedule.openingId.value > lastOpening.value);
      reported := if opening then schedule.openingId else None;
      currentOpening := schedule.openingId;
      if opening {
        lastOpening := schedule.openingId;
        if mods.phase.Failed? {
          mods := Requested(mods);
        }
      }
      if rules.modAutoUpdate && i.modsOutdated && !mods.observedOutdated && mods.phase.Idle? {
        mods := mods.(phase := Pending);
      }
      mods := mods.(observedOutdated := i.modsOutdated);
      if !rules.modAutoUpdate && !mods.manual && mods.attempts == 0 {
        mods := NoMods.(observedOutdated := i.modsOutdated);
      }
      ObserveActivity(now, i, changed);
    }

    method ClosingNotice(now: Time, i: Inputs, schedule: Schedule.State, closing: Schedule.Answer)
      returns (planned: bool, action: Option<Action>)
      modifies this`lastNotice
      ensures planned == WithNotice(old(View()), now, i, schedule, closing).Planned?
      ensures planned ==> Planned(View(), action) == WithNotice(old(View()), now, i, schedule, closing)
    {
      var notice := NoticeFor(now, i, schedule);
      if notice.None? || lastNotice == notice {
        return true, None;
      }
      if closing.Unresolved? {
        return false, None;
      }
      lastNotice := notice;
      return true, Some(Announce);
    }

    /** One tick. It is planned exactly when its inputs are valid and the schedule has the answers it needs. A reported
        opening is later than every one reported before. Without a plan the caller discards the object, so nothing is
        promised about it. */
    method Plan(rules: Rules, now: Time, i: Inputs, schedule: Schedule.Answer, closing: Schedule.Answer)
      returns (planned: bool, action: Option<Action>, opening: Option<Time>)
      requires Valid()
      modifies this
      ensures planned <==> Plannable(old(View()), Ticks(rules, now, i, schedule, closing))
      ensures planned ==>
                && Taken(old(history), Ticks(rules, now, i, schedule, closing))
                && At(history, |history| - 1) == Planned(View(), action)
                && opening == ReportedAt(history, |history| - 1)
                && PolicyDecisions.Decided(old(View()), Ticks(rules, now, i, schedule, closing), action, View())
      ensures planned && opening.Some? ==> LaterThanAll(old(history), opening.value)
    {
      TickFacts(history, Ticks(rules, now, i, schedule, closing));
      Enter(Ticks(rules, now, i, schedule, closing));
      if !ValidMods(mods) || !Policy.ValidInputs(i) || schedule.Unresolved? {
        return false, None, None;
      }
      opening := Note(rules, now, i, schedule.state);
      planned, action := DecideAction(rules, now, i, schedule.state, closing);
    }

    method DecideAction(rules: Rules, now: Time, i: Inputs, schedule: Schedule.State, closing: Schedule.Answer)
      returns (planned: bool, action: Option<Action>)
      modifies this`activity, this`mods, this`lastNotice
      ensures planned == Decide(old(View()), rules, now, i, schedule, closing).Planned?
      ensures planned ==> Planned(View(), action) == Decide(old(View()), rules, now, i, schedule, closing)
    {
      planned, action := true, None;
      if !schedule.open {
        if mods.phase.Announcing? || mods.phase.Stopping? {
          mods := mods.(phase := Pending);
        }
        if i.gameRunning && !i.writes {
          action := Some(StopGame(ScheduleStop));
        }
        return;
      }
      if i.writes || i.faulted {
        return;
      }
      if mods.phase.Failed? {
        if i.gameRunning {
          action := Some(StopGame(ModFailureStop));
        }
        return;
      }
      if !mods.phase.Idle? {
        planned, action := MaintainMods(now, i, schedule, closing);
        return;
      }
      if i.busy {
        return;
      }
      if !i.gameRunning {
        action := Some(StartGame);
        return;
      }
      if CanRegenerate(View(), rules, now, i) {
        activity := Some(activity.value.(lastActive := now));
        action := Some(Regenerate(activity.value.sessions));
        return;
      }
      planned, action := ClosingNotice(now, i, schedule, closing);
    }

    method MaintainMods(now: Time, i: Inputs, schedule: Schedule.State, closing: Schedule.Answer)
      returns (planned: bool, action: Option<Action>)
      requires schedule.open && !i.writes && !i.faulted && !mods.phase.Failed? && !mods.phase.Idle?
      modifies this`mods, this`lastNotice
      ensures forall rules :: planned == Decide(old(View()), rules, now, i, schedule, closing).Planned?
      ensures planned ==>
                forall rules :: Planned(View(), action) == Decide(old(View()), rules, now, i, schedule, closing)
    {
      planned, action := true, None;
      if schedule.nextChange.Some? && schedule.nextChange.value - now <= MOD_NOTICE_DELAY {
        if mods.phase.Announcing? {
          mods := mods.(phase := Pending);
        }
        if !i.busy {
          planned, action := ClosingNotice(now, i, schedule, closing);
        }
      } else if !i.busy {
        var acted := ModAction(mods, now, i);
        if acted.Exhausted? {
          return false, None;
        }
        mods := acted.mods;
        action := acted.action;
      }
    }
  }
}
