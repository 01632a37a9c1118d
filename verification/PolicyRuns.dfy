/** Timing laws of the policy over histories whose ticks see a wall clock that never goes back. */
module PolicyRuns {
  import opened Options
  import opened Policy
  import opened PolicyLaws

  /** The k-th happening is a tick that was planned and stored. */
  ghost predicate Seen(hs: seq<Happening>, k: int) {
    0 <= k < |hs| && hs[k].Ticks? && At(hs, k).Planned?
  }

  /** A tick or a round of the startup loop that was stored. */
  ghost predicate Acts(hs: seq<Happening>, k: int) {
    0 <= k < |hs| && (hs[k].Ticks? || hs[k].StartupAction?) && At(hs, k).Planned?
  }

  /** The wall clock never goes back between ticks and rounds of the startup loop. */
  ghost predicate AllForward(hs: seq<Happening>) {
    forall j, k | 0 <= j < k && Acts(hs, j) && Acts(hs, k) :: hs[j].now <= hs[k].now
  }

  /** The wall clock never goes back between ticks. */
  ghost predicate ClockForward(hs: seq<Happening>) {
    forall j, k | 0 <= j < k && Seen(hs, j) && Seen(hs, k) :: hs[j].now <= hs[k].now
  }

  lemma PrefixSees(hs: seq<Happening>, n: nat)
    requires n <= |hs|
    ensures forall k: nat | k < n :: hs[..n][..k] == hs[..k]
    ensures forall k: nat | k < n :: At(hs[..n], k) == At(hs, k)
    ensures forall k: nat | k < n :: Seen(hs[..n], k) == Seen(hs, k) && Acts(hs[..n], k) == Acts(hs, k)
    ensures ClockForward(hs) ==> ClockForward(hs[..n])
    ensures AllForward(hs) ==> AllForward(hs[..n])
  {
    forall k: nat | k < n ensures hs[..n][..k] == hs[..k] && At(hs[..n], k) == At(hs, k) {
      assert hs[..n][..k] == hs[..k];
    }
  }

  // ----- A retry waits

  /** The last failed attempt of the current budget, unless the clock was corrected since. */
  function LastFailure(hs: seq<Happening>): Option<Time> {
    if hs == [] then None
    else
      var k := |hs| - 1;
      var s, h := Run(hs[..k]), hs[k];
      if NewBudget(s, h) then None
      else match h
        case FinishUpdate(now, success) => if s.mods.phase.Updating? then Some(now) else LastFailure(hs[..k])
        case Restart(now) => if s.mods.phase.Updating? then Some(now) else LastFailure(hs[..k])
        case Ticks(_, now, inputs, _, _) =>
          if Outcome(s, h).Planned? && ClockChanged(s, now, inputs.monotonic) then None else LastFailure(hs[..k])
        case _ => LastFailure(hs[..k])
  }

  ghost predicate ActedSince(hs: seq<Happening>, time: Time) {
    exists k :: Acts(hs, k) && hs[k].now >= time
  }

  ghost predicate Waits(m: Mods, failure: Time, since: bool) {
    && m.attempts > 0
    && (m.phase.Retry? ==> m.phase.notBefore == failure + MOD_RETRY_DELAY)
    && (m.phase.Pending? || m.phase.Announcing? || m.phase.Stopping? ==> since)
  }

  /** A tick without clock correction and without a new budget leaves the retry time alone. */
  lemma TickWaits(s: State, h: Happening, failure: Time, since: bool)
    requires h.Ticks? && Budgeted(s.mods) && Waits(s.mods, failure, since)
    requires Outcome(s, h).Planned? && !NewBudget(s, h) && !ClockChanged(s, h.now, h.inputs.monotonic)
    requires since ==> h.now >= failure + MOD_RETRY_DELAY
    ensures Waits(After(s, h).mods, failure, h.now >= failure + MOD_RETRY_DELAY)
    ensures Updates(Outcome(s, h)) ==> h.now >= failure + MOD_RETRY_DELAY
  {
    var t := Noted(s, h.rules, h.now, h.inputs, h.schedule.state);
    assert t.mods == s.mods.(observedOutdated := h.inputs.modsOutdated);
    DecideWaits(t, h, failure, since);
  }

  lemma DecideWaits(s: State, h: Happening, failure: Time, since: bool)
    requires h.Ticks? && h.schedule.Answered? && Budgeted(s.mods) && Waits(s.mods, failure, since)
    requires since ==> h.now >= failure + MOD_RETRY_DELAY
    ensures var r := Decide(s, h.rules, h.now, h.inputs, h.schedule.state, h.closing);
            r.Planned? ==>
              && Waits(r.state.mods, failure, h.now >= failure + MOD_RETRY_DELAY)
              && (Updates(r) ==> h.now >= failure + MOD_RETRY_DELAY)
  {
    ActionWaits(s.mods, h.now, h.inputs, failure, since);
  }

  lemma ActionWaits(m: Mods, now: Time, i: Inputs, failure: Time, since: bool)
    requires Budgeted(m) && Waits(m, failure, since)
    requires since ==> now >= failure + MOD_RETRY_DELAY
    ensures var r := ModAction(m, now, i);
            r.Acted? ==>
              && Waits(r.mods, failure, now >= failure + MOD_RETRY_DELAY)
              && (r.action.Some? && r.action.value.UpdateMods? ==> now >= failure + MOD_RETRY_DELAY)
  {}

  /** Whatever acts leaves the retry time alone and updates only when it is due. */
  lemma ActWaits(s: State, h: Happening, failure: Time, since: bool)
    requires (h.Ticks? || h.StartupAction?) && Budgeted(s.mods) && Waits(s.mods, failure, since)
    requires Outcome(s, h).Planned? && !NewBudget(s, h)
    requires h.Ticks? ==> !ClockChanged(s, h.now, h.inputs.monotonic)
    requires since ==> h.now >= failure + MOD_RETRY_DELAY
    ensures Waits(After(s, h).mods, failure, h.now >= failure + MOD_RETRY_DELAY)
    ensures Updates(Outcome(s, h)) ==> h.now >= failure + MOD_RETRY_DELAY
  {
    if h.Ticks? {
      TickWaits(s, h, failure, since);
    } else {
      ActionWaits(s.mods, h.now, NoInputs, failure, since);
    }
  }

  lemma {:induction false} RunWaits(hs: seq<Happening>)
    requires AllForward(hs)
    ensures LastFailure(hs).Some? ==>
              Waits(Run(hs).mods, LastFailure(hs).value, ActedSince(hs, LastFailure(hs).value + MOD_RETRY_DELAY))
    decreases |hs|
  {
    if hs != [] {
      var k := |hs| - 1;
      PrefixSees(hs, k);
      RunWaits(hs[..k]);
      RunBudgeted(hs[..k]);
      if LastFailure(hs).Some? && LastFailure(hs) == LastFailure(hs[..k]) {
        RunWaitsOn(hs, LastFailure(hs).value);
      }
    }
  }

  /** The last happening, when the failure is an earlier one. */
  lemma {:induction false} RunWaitsOn(hs: seq<Happening>, failure: Time)
    requires hs != [] && AllForward(hs) && Budgeted(Run(hs[..|hs| - 1]).mods)
    requires LastFailure(hs) == Some(failure) && LastFailure(hs[..|hs| - 1]) == Some(failure)
    requires Waits(Run(hs[..|hs| - 1]).mods, failure, ActedSince(hs[..|hs| - 1], failure + MOD_RETRY_DELAY))
    ensures Waits(Run(hs).mods, failure, ActedSince(hs, failure + MOD_RETRY_DELAY))
  {
    var k := |hs| - 1;
    var s, h, due := Run(hs[..k]), hs[k], failure + MOD_RETRY_DELAY;
    ActedSinceGrows(hs, due);
    if Acts(hs, k) {
      ActWaits(s, h, failure, ActedSince(hs[..k], due));
    }
  }

  lemma {:induction false} ActedSinceGrows(hs: seq<Happening>, due: Time)
    requires hs != [] && AllForward(hs)
    ensures ActedSince(hs[..|hs| - 1], due) ==> ActedSince(hs, due)
    ensures Acts(hs, |hs| - 1) ==> (ActedSince(hs, due) == (hs[|hs| - 1].now >= due))
    ensures Acts(hs, |hs| - 1) && ActedSince(hs[..|hs| - 1], due) ==> hs[|hs| - 1].now >= due
  {
    PrefixSees(hs, |hs| - 1);
    if ActedSince(hs[..|hs| - 1], due) {
      var j :| Acts(hs[..|hs| - 1], j) && hs[..|hs| - 1][j].now >= due;
      assert Acts(hs, j);
    }
  }

  /** A retry of the current budget, in a tick or in the startup loop, comes at least 300 seconds after the failure,
      when no clock correction intervenes. */
  lemma RetryWaits(hs: seq<Happening>, k: nat)
    requires k < |hs| && AllForward(hs) && Updates(At(hs, k))
    requires LastFailure(hs[..k + 1]).Some?
    ensures Acts(hs, k) && hs[k].now >= LastFailure(hs[..k + 1]).value + MOD_RETRY_DELAY
  {
    var hs' := hs[..k + 1];
    PrefixSees(hs, k + 1);
    PrefixSees(hs', k);
    RunWaits(hs'[..k]);
    RunBudgeted(hs'[..k]);
    assert hs'[..k] == hs[..k];
    var due := LastFailure(hs').value + MOD_RETRY_DELAY;
    ActedSinceGrows(hs', due);
    ActWaits(Run(hs[..k]), hs[k], LastFailure(hs').value, ActedSince(hs[..k], due));
  }
}
