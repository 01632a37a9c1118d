/** What the policy guarantees over every history of ticks, shutdowns, restarts, startups and updates. */
module PolicyLaws {
  import opened Options
  import opened Policy
  import Schedule

  // ----- Mod maintenance: the budget

  /** The stored invariant: valid, and every phase that may still start an update has an attempt left. */
  ghost predicate Budgeted(m: Mods) {
    && ValidMods(m)
    && (m.phase.Pending? || m.phase.Announcing? || m.phase.Stopping? ==> m.attempts < MOD_ATTEMPTS)
  }

  lemma ActionBudgeted(m: Mods, now: Time, i: Inputs)
    requires Budgeted(m)
    ensures ModAction(m, now, i).Acted? && Budgeted(ModAction(m, now, i).mods)
    ensures var r := ModAction(m, now, i);
            if r.action.Some? && r.action.value.UpdateMods?
            then r.action.value.attempt == m.attempts + 1 && r.mods.attempts == m.attempts + 1 && !i.gameRunning
            else r.mods.attempts == m.attempts
  {}

  lemma NotedBudgeted(s: State, rules: Rules, now: Time, i: Inputs, schedule: Schedule.State)
    requires Budgeted(s.mods)
    ensures var t := Noted(s, rules, now, i, schedule);
            && Budgeted(t.mods)
            && (t.mods.attempts == s.mods.attempts || t.mods.attempts == 0)
            && (t.mods.attempts != s.mods.attempts ==>
                  s.mods.phase.Failed? && NewOpening(s, schedule, ClockChanged(s, now, i.monotonic)))
  {}

  lemma DecideBudgeted(s: State, rules: Rules, now: Time, i: Inputs, schedule: Schedule.State,
                       closing: Schedule.Answer)
    requires Budgeted(s.mods)
    ensures var r := Decide(s, rules, now, i, schedule, closing);
            && (r.Planned? <==> closing.Answered? || !Notifies(s, rules, now, i, schedule))
            && (r.Planned? ==>
                  && Budgeted(r.state.mods)
                  && (if Updates(r) then r.action.value.attempt == s.mods.attempts + 1 == r.state.mods.attempts
                      else r.state.mods.attempts == s.mods.attempts))
  {
    ActionBudgeted(s.mods, now, i);
  }

  predicate Updates(r: Ticked) {
    r.Planned? && r.action.Some? && r.action.value.UpdateMods?
  }

  /** What a tick needs: valid inputs, the schedule's answer, and its answer at a closing that is to be announced. */
  predicate Plannable(s: State, h: Happening)
    requires h.Ticks?
  {
    && ValidInputs(h.inputs) && h.schedule.Answered?
    && (Notifies(Noted(s, h.rules, h.now, h.inputs, h.schedule.state), h.rules, h.now, h.inputs, h.schedule.state) ==>
          h.closing.Answered?)
  }

  lemma OutcomeBudgeted(s: State, h: Happening)
    requires Budgeted(s.mods)
    ensures Budgeted(After(s, h).mods)
    ensures h.Ticks? ==> (Outcome(s, h).Planned? <==> Plannable(s, h))
    ensures h.StartupAction? ==> Outcome(s, h).Planned?
  {
    if h.Ticks? && ValidInputs(h.inputs) && h.schedule.Answered? {
      NotedBudgeted(s, h.rules, h.now, h.inputs, h.schedule.state);
      DecideBudgeted(Noted(s, h.rules, h.now, h.inputs, h.schedule.state), h.rules, h.now, h.inputs, h.schedule.state,
                     h.closing);
    } else if h.StartupAction? {
      ActionBudgeted(s.mods, h.now, NoInputs);
    }
  }

  lemma {:induction false} RunBudgeted(hs: seq<Happening>)
    ensures Budgeted(Run(hs).mods)
    decreases |hs|
  {
    if hs != [] {
      RunBudgeted(hs[..|hs| - 1]);
      OutcomeBudgeted(Run(hs[..|hs| - 1]), hs[|hs| - 1]);
    }
  }

  /** In every history a tick is planned exactly when its inputs are valid and the schedule has the answers it needs,
      and a round of the startup loop always: the exhausted-budget error never occurs. */
  lemma NeverExhausted(hs: seq<Happening>, k: nat)
    requires k < |hs|
    ensures hs[k].Ticks? ==> (At(hs, k).Planned? <==> Plannable(Run(hs[..k]), hs[k]))
    ensures hs[k].StartupAction? ==> At(hs, k).Planned?
    ensures Budgeted(Run(hs).mods)
  {
    RunBudgeted(hs);
    RunBudgeted(hs[..k]);
    OutcomeBudgeted(Run(hs[..k]), hs[k]);
  }

  /** A new budget begins with an accepted request, a successful update, or a new opening after failure. */
  predicate NewBudget(s: State, h: Happening) {
    match h
    case RequestUpdate(_) => !s.mods.phase.Updating?
    case FinishUpdate(_, success) => s.mods.phase.Updating? && success
    case Ticks(_, now, inputs, schedule, _) =>
      && Outcome(s, h).Planned? && s.mods.phase.Failed?
      && NewOpening(s, schedule.state, ClockChanged(s, now, inputs.monotonic))
    case _ => false
  }

  /** The attempts announced by UpdateMods since the current budget began. */
  function Issued(hs: seq<Happening>): seq<nat> {
    if hs == [] then []
    else
      var k := |hs| - 1;
      var before := if NewBudget(Run(hs[..k]), hs[k]) then [] else Issued(hs[..k]);
      if Updates(Outcome(Run(hs[..k]), hs[k]))
      then before + [Outcome(Run(hs[..k]), hs[k]).action.value.attempt] else before
  }

  function FirstAttempts(n: nat): seq<nat> {
    seq(n, k => k + 1)
  }

  lemma OneMoreAttempt(n: nat)
    ensures FirstAttempts(n) + [n + 1] == FirstAttempts(n + 1)
  {}

  lemma StepAttempts(s: State, h: Happening)
    requires Budgeted(s.mods)
    ensures var base := if NewBudget(s, h) then 0 else s.mods.attempts;
            if Updates(Outcome(s, h))
            then Outcome(s, h).action.value.attempt == base + 1 == After(s, h).mods.attempts
            else After(s, h).mods.attempts == base
  {
    if h.Ticks? && Outcome(s, h).Planned? {
      NotedBudgeted(s, h.rules, h.now, h.inputs, h.schedule.state);
      DecideBudgeted(Noted(s, h.rules, h.now, h.inputs, h.schedule.state), h.rules, h.now, h.inputs, h.schedule.state,
                     h.closing);
      if NewBudget(s, h) {
        TickAttempts(s, h);
      }
    } else if h.StartupAction? {
      ActionBudgeted(s.mods, h.now, NoInputs);
    }
  }

  lemma TickAttempts(s: State, h: Happening)
    requires h.Ticks? && Budgeted(s.mods) && h.schedule.Answered?
    requires s.mods.phase.Failed? && NewOpening(s, h.schedule.state, ClockChanged(s, h.now, h.inputs.monotonic))
    ensures Noted(s, h.rules, h.now, h.inputs, h.schedule.state).mods.attempts == 0
  {}

  /** Each budget yields at most three updates, and they are numbered 1, 2, 3 in order. */
  lemma {:induction false} AtMostThreeUpdates(hs: seq<Happening>)
    ensures Issued(hs) == FirstAttempts(Run(hs).mods.attempts) && |Issued(hs)| <= MOD_ATTEMPTS
    decreases |hs|
  {
    RunBudgeted(hs);
    if hs != [] {
      var k := |hs| - 1;
      var s := Run(hs[..k]);
      AtMostThreeUpdates(hs[..k]);
      RunBudgeted(hs[..k]);
      StepAttempts(s, hs[k]);
      OneMoreAttempt(if NewBudget(s, hs[k]) then 0 else s.mods.attempts);
      assert Run(hs) == After(s, hs[k]);
      assert FirstAttempts(0) == [];
    }
  }

  // ----- Openings

  /** The opening that the k-th happening reports. */
  function ReportedAt(hs: seq<Happening>, k: nat): Option<Time>
    requires k < |hs|
  {
    Reported(Run(hs[..k]), hs[k])
  }

  lemma OpeningStep(s: State, h: Happening)
    ensures var t := After(s, h);
            && (Reported(s, h).Some? ==>
                  && t.lastOpening == Reported(s, h)
                  && (s.lastOpening.Some? ==> s.lastOpening.value < t.lastOpening.value))
            && (Reported(s, h).None? ==> t.lastOpening == s.lastOpening)
  {
    if h.Ticks? && Outcome(s, h).Planned? {
      DecideOpening(Noted(s, h.rules, h.now, h.inputs, h.schedule.state), h.rules, h.now, h.inputs, h.schedule.state,
                    h.closing);
    }
  }

  lemma DecideOpening(s: State, rules: Rules, now: Time, i: Inputs, schedule: Schedule.State,
                      closing: Schedule.Answer)
    ensures var r := Decide(s, rules, now, i, schedule, closing); r.Planned? ==> r.state.lastOpening == s.lastOpening
  {}

  lemma ReportedBefore(hs: seq<Happening>, j: nat, k: nat)
    requires j < k <= |hs|
    ensures ReportedAt(hs[..k], j) == ReportedAt(hs, j)
  {
    assert hs[..k][..j] == hs[..j];
  }

  lemma {:induction false} OpeningsBelow(hs: seq<Happening>, j: nat)
    requires j < |hs| && ReportedAt(hs, j).Some?
    ensures Run(hs).lastOpening.Some? && ReportedAt(hs, j).value <= Run(hs).lastOpening.value
    decreases |hs|
  {
    var k := |hs| - 1;
    if j < k {
      ReportedBefore(hs, j, k);
      OpeningsBelow(hs[..k], j);
    }
    OpeningGrows(Run(hs[..k]), hs[k], ReportedAt(hs, j).value);
  }

  lemma OpeningGrows(s: State, h: Happening, opening: Time)
    requires Reported(s, h) == Some(opening) || (s.lastOpening.Some? && opening <= s.lastOpening.value)
    ensures After(s, h).lastOpening.Some? && opening <= After(s, h).lastOpening.value
  {
    OpeningStep(s, h);
  }

  /** The openings that ticks report strictly increase, so that none is reported twice. */
  lemma OpeningsIncrease(hs: seq<Happening>, j: nat, k: nat)
    requires j < k < |hs| && ReportedAt(hs, j).Some? && ReportedAt(hs, k).Some?
    ensures ReportedAt(hs, j).value < ReportedAt(hs, k).value
  {
    ReportedBefore(hs, j, k);
    OpeningsBelow(hs[..k], j);
    OpeningStep(Run(hs[..k]), hs[k]);
  }
}
