/** Idle regeneration never discards a world that somebody may still be playing. */
module IdleRegeneration {
  import opened Options
  import opened Policy
  import opened PolicyRuns
  import opened Sets
  import Schedule

  ghost predicate Regenerated(hs: seq<Happening>, k: int) {
    Seen(hs, k) && At(hs, k).action.Some? && At(hs, k).action.value.Regenerate?
  }

  /** An unreliable tick is passed over only in a clean stop or after a clean shutdown. */
  ghost predicate Excused(hs: seq<Happening>, k: int)
    requires Seen(hs, k)
  {
    var a := Run(hs[..k]).activity;
    hs[k].inputs.cleanStop || (a.Some? && a.value.cleanShutdown)
  }

  /** The tick came with a correction of the wall clock. */
  ghost predicate Corrected(hs: seq<Happening>, k: int)
    requires Seen(hs, k)
  {
    ClockChanged(Run(hs[..k]), hs[k].now, hs[k].inputs.monotonic)
  }

  /** Nothing was happening at this tick in the worlds with these sessions, and the clock was not corrected. */
  ghost predicate Vacant(hs: seq<Happening>, k: int, sessions: map<string, string>)
    requires Seen(hs, k)
  {
    && !Corrected(hs, k)
    && if Reliable(hs[k].inputs) then Empty(hs[k].inputs) && Sessions(hs[k].inputs) == sessions else Excused(hs, k)
  }

  ghost predicate VacantSince(hs: seq<Happening>, since: Time, sessions: map<string, string>) {
    forall k | Seen(hs, k) && hs[k].now > since :: Vacant(hs, k, sessions)
  }

  ghost predicate Tracked(hs: seq<Happening>, a: Activity) {
    && (!a.interrupted ==> VacantSince(hs, a.lastActive, a.sessions))
    && (forall k | Regenerated(hs, k) :: hs[k].now <= a.lastActive)
    && (exists k :: Seen(hs, k) && a.lastActive <= hs[k].now)
  }

  ghost predicate IdleOk(hs: seq<Happening>) {
    var a := Run(hs).activity;
    if a.Some? then Tracked(hs, a.value) else forall k | Seen(hs, k) :: !Reliable(hs[k].inputs) && !Regenerated(hs, k)
  }

  // ----- One tick

  lemma {:induction false} LatestBounds(i: Inputs, names: seq<string>, now: Time, base: Time)
    requires base <= now
    ensures base <= Latest(i, names, now, base) <= now
    ensures (exists a :: 0 <= a < |names| && names[a] in i.presence && Occupied(i.presence[names[a]])) ==>
              Latest(i, names, now, base) == now
    decreases |names|
  {
    if names != [] {
      LatestBounds(i, names[..|names| - 1], now, base);
    }
  }

  /** Reliable presence names exactly the expected shards. */
  lemma ExactShards(i: Inputs)
    requires ValidInputs(i) && Reliable(i)
    ensures i.presence.Keys == set a | 0 <= a < |i.expected| :: i.expected[a]
  {
    var names := set a | 0 <= a < |i.expected| :: i.expected[a];
    Distinct(i.expected);
    assert names <= i.presence.Keys;
    SubsetOfSameSize(names, i.presence.Keys);
  }

  lemma {:induction false} Distinct(names: seq<string>)
    requires forall a, b | 0 <= a < b < |names| :: names[a] != names[b]
    ensures |set a | 0 <= a < |names| :: names[a]| == |names|
    decreases |names|
  {
    if names != [] {
      var last := |names| - 1;
      Distinct(names[..last]);
      assert (set a | 0 <= a < |names| :: names[a]) == (set a | 0 <= a < last :: names[..last][a]) + {names[last]};
    }
  }

  lemma OccupiedIsNow(i: Inputs, now: Time, base: Time)
    requires ValidInputs(i) && Reliable(i) && base <= now && !Empty(i)
    ensures Latest(i, i.expected, now, base) == now
  {
    ExactShards(i);
    var name :| name in i.presence && Occupied(i.presence[name]);
    assert name in set a | 0 <= a < |i.expected| :: i.expected[a];
    LatestBounds(i, i.expected, now, base);
  }

  /** How one tick moves the record of activity. */
  lemma ObservedFacts(before: Option<Activity>, now: Time, i: Inputs, changed: bool)
    requires ValidInputs(i) && (before.Some? ==> before.value.lastActive <= now)
    ensures var r := Observed(before, now, i, changed);
            if Reliable(i) then
              && r.Some? && r.value.lastActive <= now && r.value.sessions == Sessions(i) && !r.value.interrupted
              && (before.Some? ==> before.value.lastActive <= r.value.lastActive)
              && (r.value.lastActive < now ==>
                    && !changed && Empty(i) && before.Some?
                    && !before.value.interrupted && before.value.sessions == Sessions(i))
            else
              && r.Some? == before.Some?
              && (r.Some? ==>
                    && r.value.lastActive == before.value.lastActive && r.value.sessions == before.value.sessions
                    && (!r.value.interrupted ==>
                          !changed && !before.value.interrupted && (i.cleanStop || before.value.cleanShutdown)))
  {
    if Reliable(i) {
      LatestBounds(i, i.expected, now, now);
      if before.Some? {
        LatestBounds(i, i.expected, now, before.value.lastActive);
      }
      if !Empty(i) {
        OccupiedIsNow(i, now, now);
        if before.Some? {
          OccupiedIsNow(i, now, before.value.lastActive);
        }
      }
    }
  }

  /** Deciding touches the record of activity only to renew it when it regenerates. */
  lemma DecideActivity(s: State, rules: Rules, now: Time, i: Inputs, schedule: Schedule.State,
                       closing: Schedule.Answer)
    ensures var r := Decide(s, rules, now, i, schedule, closing);
            r.Planned? ==>
              if r.action.Some? && r.action.value.Regenerate? then
                && CanRegenerate(s, rules, now, i) && r.action.value.expected == s.activity.value.sessions
                && r.state.activity == Some(s.activity.value.(lastActive := now))
              else r.state.activity == s.activity
  {}

  lemma TickActivity(s: State, h: Happening)
    requires h.Ticks? && Outcome(s, h).Planned?
    ensures ValidInputs(h.inputs)
    ensures var a := Observed(s.activity, h.now, h.inputs, ClockChanged(s, h.now, h.inputs.monotonic));
            var r := Outcome(s, h);
            if r.action.Some? && r.action.value.Regenerate? then
              && a.Some? && !a.value.interrupted && Reliable(h.inputs) && Empty(h.inputs) && h.inputs.masterDay.Some?
              && h.now - a.value.lastActive > Retention(h.inputs.masterDay.value)
              && r.action.value.expected == a.value.sessions
              && r.state.activity == Some(a.value.(lastActive := h.now))
            else r.state.activity == a
  {
    DecideActivity(Noted(s, h.rules, h.now, h.inputs, h.schedule.state), h.rules, h.now, h.inputs, h.schedule.state,
                   h.closing);
  }

  // ----- Every history

  lemma IdleStart()
    ensures IdleOk([])
  {}

  /** Nothing but a stored tick renews the activity or ends an interruption. */
  lemma QuietActivity(s: State, h: Happening)
    requires !(h.Ticks? && Outcome(s, h).Planned?)
    ensures var a, b := s.activity, After(s, h).activity;
            && b.Some? == a.Some?
            && (a.Some? ==>
                  && b.value.lastActive == a.value.lastActive && b.value.sessions == a.value.sessions
                  && (!b.value.interrupted ==> !a.value.interrupted))
  {}

  /** A happening looks the same in the history without the last one. */
  lemma SameBefore(hs: seq<Happening>, before: seq<Happening>, j: int, sessions: map<string, string>)
    requires hs != [] && before == hs[..|hs| - 1] && 0 <= j < |before|
    ensures before[j] == hs[j] && Seen(before, j) == Seen(hs, j) && Regenerated(before, j) == Regenerated(hs, j)
    ensures Seen(hs, j) ==> Vacant(before, j, sessions) == Vacant(hs, j, sessions)
  {
    assert before[..j] == hs[..j];
  }

  ghost predicate AddsNothing(hs: seq<Happening>, before: seq<Happening>) {
    hs != [] && before == hs[..|hs| - 1] && !Seen(hs, |before|)
  }

  lemma QuietVacant(hs: seq<Happening>, before: seq<Happening>, since: Time, sessions: map<string, string>)
    requires AddsNothing(hs, before) && VacantSince(before, since, sessions)
    ensures VacantSince(hs, since, sessions)
  {
    forall j | Seen(hs, j) && hs[j].now > since ensures Vacant(hs, j, sessions) {
      SameBefore(hs, before, j, sessions);
    }
  }

  lemma QuietRegenerated(hs: seq<Happening>, before: seq<Happening>, bound: Time)
    requires AddsNothing(hs, before) && forall j | Regenerated(before, j) :: before[j].now <= bound
    ensures forall j | Regenerated(hs, j) :: hs[j].now <= bound
  {
    forall j | Regenerated(hs, j) ensures hs[j].now <= bound {
      Earlier(hs, before, j);
      SameBefore(hs, before, j, map[]);
    }
  }

  lemma Earlier(hs: seq<Happening>, before: seq<Happening>, j: int)
    requires AddsNothing(hs, before) && Seen(hs, j)
    ensures 0 <= j < |before|
  {}

  lemma QuietTracked(hs: seq<Happening>, before: seq<Happening>, a: Activity, b: Activity)
    requires AddsNothing(hs, before) && Tracked(before, a)
    requires b.lastActive == a.lastActive && b.sessions == a.sessions && (!b.interrupted ==> !a.interrupted)
    ensures Tracked(hs, b)
  {
    if !b.interrupted {
      QuietVacant(hs, before, a.lastActive, a.sessions);
    }
    QuietRegenerated(hs, before, a.lastActive);
    var j :| Seen(before, j) && a.lastActive <= before[j].now;
    SameBefore(hs, before, j, a.sessions);
  }

  lemma QuietStep(hs: seq<Happening>)
    requires hs != [] && IdleOk(hs[..|hs| - 1]) && !Seen(hs, |hs| - 1)
    ensures IdleOk(hs)
  {
    var k := |hs| - 1;
    QuietActivity(Run(hs[..k]), hs[k]);
    var a, b := Run(hs[..k]).activity, Run(hs).activity;
    if a.Some? {
      QuietTracked(hs, hs[..k], a.value, b.value);
    } else {
      forall j | Seen(hs, j) ensures !Reliable(hs[j].inputs) && !Regenerated(hs, j) {
        SameBefore(hs, hs[..k], j, map[]);
      }
    }
  }

  lemma TickStep(hs: seq<Happening>)
    requires hs != [] && ClockForward(hs) && IdleOk(hs[..|hs| - 1]) && Seen(hs, |hs| - 1)
    ensures IdleOk(hs)
  {
    var k := |hs| - 1;
    var s, h := Run(hs[..k]), hs[k];
    ForwardBound(hs);
    TickActivity(s, h);
    var changed := ClockChanged(s, h.now, h.inputs.monotonic);
    ObservedFacts(s.activity, h.now, h.inputs, changed);
    var a := Observed(s.activity, h.now, h.inputs, changed);
    assert Run(hs) == After(s, h);
    if a.Some? {
      TrackedAfter(hs, s.activity, a.value);
      TickTracked(hs, a.value, Run(hs).activity.value);
    } else {
      StillUntracked(hs, hs[..k]);
    }
  }

  /** The record that the tick stores, renewed if the tick regenerates. */
  lemma TickTracked(hs: seq<Happening>, a: Activity, stored: Activity)
    requires hs != [] && Seen(hs, |hs| - 1) && a.lastActive <= hs[|hs| - 1].now
    requires forall j | Seen(hs, j) :: hs[j].now <= hs[|hs| - 1].now
    requires !a.interrupted ==> VacantSince(hs, a.lastActive, a.sessions)
    requires forall k | Regenerated(hs, k) && k < |hs| - 1 :: hs[k].now <= a.lastActive
    requires stored == if Regenerated(hs, |hs| - 1) then a.(lastActive := hs[|hs| - 1].now) else a
    ensures Tracked(hs, stored)
  {
    if Regenerated(hs, |hs| - 1) {
      NothingLater(hs, stored.lastActive, stored.sessions);
    }
  }

  lemma StillUntracked(hs: seq<Happening>, before: seq<Happening>)
    requires hs != [] && before == hs[..|hs| - 1] && Seen(hs, |before|)
    requires !Reliable(hs[|before|].inputs) && !Regenerated(hs, |before|)
    requires forall k | Seen(before, k) :: !Reliable(before[k].inputs) && !Regenerated(before, k)
    ensures forall k | Seen(hs, k) :: !Reliable(hs[k].inputs) && !Regenerated(hs, k)
  {
    forall k | Seen(hs, k) ensures !Reliable(hs[k].inputs) && !Regenerated(hs, k) {
      if k < |before| {
        UntrackedAt(hs, before, k);
      }
    }
  }

  lemma UntrackedAt(hs: seq<Happening>, before: seq<Happening>, k: int)
    requires hs != [] && before == hs[..|hs| - 1] && 0 <= k < |before| && Seen(hs, k)
    requires Seen(before, k) ==> !Reliable(before[k].inputs) && !Regenerated(before, k)
    ensures !Reliable(hs[k].inputs) && !Regenerated(hs, k)
  {
    SameBefore(hs, before, k, map[]);
  }

  /** The wall clock has not passed this tick before. */
  lemma LatestTick(hs: seq<Happening>)
    requires hs != [] && ClockForward(hs) && Seen(hs, |hs| - 1)
    ensures forall j | Seen(hs, j) :: hs[j].now <= hs[|hs| - 1].now
  {}

  /** Neither has the recorded activity. */
  lemma ForwardBound(hs: seq<Happening>)
    requires hs != [] && ClockForward(hs) && IdleOk(hs[..|hs| - 1]) && Seen(hs, |hs| - 1)
    ensures forall j | Seen(hs, j) :: hs[j].now <= hs[|hs| - 1].now
    ensures var a := Run(hs[..|hs| - 1]).activity; a.Some? ==> a.value.lastActive <= hs[|hs| - 1].now
  {
    LatestTick(hs);
    var a := Run(hs[..|hs| - 1]).activity;
    if a.Some? {
      RecordedBefore(hs, hs[..|hs| - 1], a.value, hs[|hs| - 1].now);
    }
  }

  lemma RecordedBefore(hs: seq<Happening>, before: seq<Happening>, a: Activity, bound: Time)
    requires hs != [] && before == hs[..|hs| - 1] && Tracked(before, a)
    requires forall j | Seen(hs, j) :: hs[j].now <= bound
    ensures a.lastActive <= bound
  {
    var j :| Seen(before, j) && a.lastActive <= before[j].now;
    SameBefore(hs, before, j, a.sessions);
  }

  /** The record after observing, before any regeneration of this very tick. */
  lemma {:induction false} TrackedAfter(hs: seq<Happening>, before: Option<Activity>, a: Activity)
    requires hs != [] && Seen(hs, |hs| - 1) && IdleOk(hs[..|hs| - 1]) && Run(hs[..|hs| - 1]).activity == before
    requires forall j | Seen(hs, j) :: hs[j].now <= hs[|hs| - 1].now
    requires before.Some? ==> before.value.lastActive <= a.lastActive
    requires a.lastActive <= hs[|hs| - 1].now
    requires if Reliable(hs[|hs| - 1].inputs) then
               && a.sessions == Sessions(hs[|hs| - 1].inputs)
               && (a.lastActive < hs[|hs| - 1].now ==>
                     && !Corrected(hs, |hs| - 1) && Empty(hs[|hs| - 1].inputs) && before.Some?
                     && !before.value.interrupted && before.value.sessions == a.sessions)
             else
               && before.Some? && a.lastActive == before.value.lastActive && a.sessions == before.value.sessions
               && (!a.interrupted ==>
                     && !Corrected(hs, |hs| - 1) && !before.value.interrupted
                     && (hs[|hs| - 1].inputs.cleanStop || before.value.cleanShutdown))
    ensures !a.interrupted ==> VacantSince(hs, a.lastActive, a.sessions)
    ensures forall k | Regenerated(hs, k) && k < |hs| - 1 :: hs[k].now <= a.lastActive
  {
    if !a.interrupted {
      if a.lastActive < hs[|hs| - 1].now {
        EarlierVacant(hs, before.value, a);
        assert Vacant(hs, |hs| - 1, a.sessions);
        VacantTogether(hs, a.lastActive, a.sessions);
      } else {
        NothingLater(hs, a.lastActive, a.sessions);
      }
    }
    EarlierRegenerations(hs, before, a.lastActive);
  }

  lemma VacantTogether(hs: seq<Happening>, since: Time, sessions: map<string, string>)
    requires Seen(hs, |hs| - 1) && Vacant(hs, |hs| - 1, sessions)
    requires forall j | Seen(hs, j) && j < |hs| - 1 && hs[j].now > since :: Vacant(hs, j, sessions)
    ensures VacantSince(hs, since, sessions)
  {}

  lemma NothingLater(hs: seq<Happening>, since: Time, sessions: map<string, string>)
    requires forall j | Seen(hs, j) :: hs[j].now <= since
    ensures VacantSince(hs, since, sessions)
  {}

  lemma EarlierVacant(hs: seq<Happening>, before: Activity, a: Activity)
    requires hs != [] && Tracked(hs[..|hs| - 1], before) && !before.interrupted
    requires before.sessions == a.sessions && before.lastActive <= a.lastActive
    ensures forall j | Seen(hs, j) && j < |hs| - 1 && hs[j].now > a.lastActive :: Vacant(hs, j, a.sessions)
  {
    forall j | Seen(hs, j) && j < |hs| - 1 && hs[j].now > a.lastActive ensures Vacant(hs, j, a.sessions) {
      SameBefore(hs, hs[..|hs| - 1], j, a.sessions);
    }
  }

  lemma EarlierRegenerations(hs: seq<Happening>, before: Option<Activity>, bound: Time)
    requires hs != [] && IdleOk(hs[..|hs| - 1]) && Run(hs[..|hs| - 1]).activity == before
    requires before.Some? ==> before.value.lastActive <= bound
    ensures forall k | Regenerated(hs, k) && k < |hs| - 1 :: hs[k].now <= bound
  {
    forall j | Regenerated(hs, j) && j < |hs| - 1 ensures hs[j].now <= bound {
      SameBefore(hs, hs[..|hs| - 1], j, map[]);
    }
  }

  lemma ForwardBefore(hs: seq<Happening>, before: seq<Happening>)
    requires hs != [] && before == hs[..|hs| - 1] && ClockForward(hs)
    ensures ClockForward(before)
  {
    PrefixSees(hs, |hs| - 1);
  }

  lemma {:induction false} RunIdle(hs: seq<Happening>)
    requires ClockForward(hs)
    ensures IdleOk(hs)
    decreases |hs|
  {
    if hs == [] {
      IdleStart();
    } else {
      ForwardBefore(hs, hs[..|hs| - 1]);
      RunIdle(hs[..|hs| - 1]);
      if Seen(hs, |hs| - 1) {
        TickStep(hs);
      } else {
        QuietStep(hs);
      }
    }
  }

  /** The world of day `d` is regenerated at time `t`: the expected sessions are the current ones of exactly
      the expected shards; every reliable tick since `t - retention(d)` saw these sessions and nobody in
      them, and every other tick since then fell in a clean stop or between a clean shutdown and the next
      reliable tick; none of them came with a clock correction; and the previous regeneration was more than
      `retention(d)` earlier. */
  ghost predicate SafeRegeneration(hs: seq<Happening>, n: nat)
    requires n < |hs| && Regenerated(hs, n)
  {
    var i, t := hs[n].inputs, hs[n].now;
    && i.masterDay.Some?
    && var span, sessions := Retention(i.masterDay.value), At(hs, n).action.value.expected;
       && Reliable(i) && Empty(i) && sessions == Sessions(i)
       && sessions.Keys == (set a | 0 <= a < |i.expected| :: i.expected[a])
       && (forall k | Seen(hs, k) && k <= n && hs[k].now >= t - span :: Vacant(hs, k, sessions))
       && (forall k | Regenerated(hs, k) && k < n :: hs[k].now + span < t)
  }

  lemma RegenerationIsSafe(hs: seq<Happening>, n: nat)
    requires n < |hs| && ClockForward(hs) && Regenerated(hs, n)
    ensures SafeRegeneration(hs, n)
  {
    var hs' := hs[..n + 1];
    SamePrefix(hs, n, n);
    PrefixSees(hs, n + 1);
    LastIsSafe(hs', n);
    forall k | Seen(hs, k) && k <= n && hs[k].now >= hs[n].now - Retention(hs[n].inputs.masterDay.value)
      ensures Vacant(hs, k, At(hs, n).action.value.expected)
    {
      SamePrefix(hs, n, k);
    }
    forall k | Regenerated(hs, k) && k < n ensures hs[k].now + Retention(hs[n].inputs.masterDay.value) < hs[n].now {
      SamePrefix(hs, n, k);
    }
  }

  /** A happening looks the same in a history that ends later. */
  lemma SamePrefix(hs: seq<Happening>, n: nat, k: nat)
    requires k <= n < |hs|
    ensures var before := hs[..n + 1];
            && before[k] == hs[k] && At(before, k) == At(hs, k)
            && Seen(before, k) == Seen(hs, k) && Regenerated(before, k) == Regenerated(hs, k)
            && (Seen(hs, k) ==> forall sessions :: Vacant(before, k, sessions) == Vacant(hs, k, sessions))
  {
    assert hs[..n + 1][..k] == hs[..k];
  }

  /** The same at the end of a history. */
  lemma LastIsSafe(hs: seq<Happening>, n: nat)
    requires n == |hs| - 1 && ClockForward(hs) && Regenerated(hs, n)
    ensures SafeRegeneration(hs, n)
  {
    ForwardBefore(hs, hs[..n]);
    RunIdle(hs[..n]);
    ForwardBound(hs);
    var s, h := Run(hs[..n]), hs[n];
    TickActivity(s, h);
    ExactShards(h.inputs);
    var changed := ClockChanged(s, h.now, h.inputs.monotonic);
    ObservedFacts(s.activity, h.now, h.inputs, changed);
    TrackedAfter(hs, s.activity, Observed(s.activity, h.now, h.inputs, changed).value);
  }

  // ----- What is not promised

  /** A tick that saw somebody counts, by renewing or by interrupting the idle time, exactly when it was
      reliable, came with a clock correction, or fell outside a clean stop and a clean shutdown. */
  lemma SeenButPassedOver(before: Activity, now: Time, i: Inputs, changed: bool)
    requires ValidInputs(i) && !Empty(i) && !before.interrupted && before.lastActive < now
    ensures var a := Observed(Some(before), now, i, changed).value;
            a.interrupted || a.lastActive == now <==> Reliable(i) || changed || !(i.cleanStop || before.cleanShutdown)
  {
    ObservedFacts(Some(before), now, i, changed);
    if Reliable(i) {
      OccupiedIsNow(i, now, now);
      OccupiedIsNow(i, now, before.lastActive);
    }
  }

  // ----- What the Agent can see

  /** The Agent asks for presence only when every shard is ready, and a clean stop is not ready. */
  predicate AgentShaped(i: Inputs) {
    (i.presence != map[] ==> i.allReady) && (i.cleanStop ==> !i.allReady)
  }

  ghost predicate FromAgent(hs: seq<Happening>) {
    forall k | 0 <= k < |hs| && hs[k].Ticks? :: AgentShaped(hs[k].inputs)
  }

  /** The k-th happening lies between a recorded clean shutdown and the next reliable tick. */
  ghost predicate AfterShutdown(hs: seq<Happening>, k: int) {
    exists j | 0 <= j < k <= |hs| :: hs[j].CleanShutdown? && NoneReliable(hs, j, k)
  }

  ghost predicate NoneReliable(hs: seq<Happening>, j: int, k: int) {
    forall m | j < m < k && Seen(hs, m) :: !Reliable(hs[m].inputs)
  }

  lemma NoneBetween(hs: seq<Happening>, k: int)
    ensures NoneReliable(hs, k - 1, k)
  {}

  lemma ShutdownSteps(s: State, h: Happening)
    requires After(s, h).activity.Some? && After(s, h).activity.value.cleanShutdown && !h.CleanShutdown?
    ensures s.activity.Some? && s.activity.value.cleanShutdown
    ensures h.Ticks? && Outcome(s, h).Planned? ==> !Reliable(h.inputs)
  {
    if h.Ticks? && Outcome(s, h).Planned? {
      TickActivity(s, h);
    }
  }

  /** The mark of a clean shutdown stays until the next reliable tick and no longer. */
  lemma {:induction false} ShutdownRecorded(hs: seq<Happening>, k: nat)
    requires k <= |hs| && Run(hs[..k]).activity.Some? && Run(hs[..k]).activity.value.cleanShutdown
    ensures AfterShutdown(hs, k)
    decreases k
  {
    if k > 0 {
      var before, h := hs[..k - 1], hs[k - 1];
      assert hs[..k][..k - 1] == before;
      assert Run(hs[..k]) == After(Run(before), h);
      if h.CleanShutdown? {
        NoneBetween(hs, k);
      } else {
        ShutdownSteps(Run(before), h);
        ShutdownRecorded(hs, k - 1);
        ShutdownLonger(hs, k);
      }
    }
  }

  lemma ShutdownLonger(hs: seq<Happening>, k: nat)
    requires 0 < k <= |hs| && AfterShutdown(hs, k - 1) && (Seen(hs, k - 1) ==> !Reliable(hs[k - 1].inputs))
    ensures AfterShutdown(hs, k)
  {
    var j :| 0 <= j < k - 1 <= |hs| && hs[j].CleanShutdown? && NoneReliable(hs, j, k - 1);
    assert NoneReliable(hs, j, k);
  }

  /** With the inputs that the Agent builds, the only ticks of the retention time that can have seen somebody are
      unreliable ones between a recorded clean shutdown and the next reliable tick. */
  lemma AgentRegenerationIsSafe(hs: seq<Happening>, n: nat, k: nat)
    requires n < |hs| && ClockForward(hs) && Regenerated(hs, n) && FromAgent(hs)
    requires Seen(hs, k) && k <= n && !Empty(hs[k].inputs)
    ensures hs[n].inputs.masterDay.Some?
    ensures hs[k].now >= hs[n].now - Retention(hs[n].inputs.masterDay.value) ==>
              !Reliable(hs[k].inputs) && AfterShutdown(hs, k)
  {
    RegenerationIsSafe(hs, n);
    if hs[k].now >= hs[n].now - Retention(hs[n].inputs.masterDay.value) {
      assert Vacant(hs, k, At(hs, n).action.value.expected);
      assert hs[k].inputs.presence != map[];
      ShutdownRecorded(hs, k);
    }
  }

  // ----- Such a tick exists

  const OpenAllDay := Schedule.Answered(Schedule.State(true, None, None))
  const Watching := Rules(false, true)

  /** After a restart the driver gives its observation a new id; a shard idle since it is observed has both times
      equal. */
  function Quietly(clients: nat, restarted: bool): Presence {
    Presence("session", if restarted then "second" else "first", true, clients, 0, 3600 * SECOND, 3600 * SECOND)
  }

  /** Both shards are ready; the query of the first may have failed. */
  function TwoShards(presence: map<string, Presence>, monotonic: nat): Inputs {
    Inputs(true, true, false, false, false, false, false, ["Master", "Caves"], presence, Some(1), Some(monotonic))
  }

  function Both(restarted: bool): map<string, Presence> {
    map["Master" := Quietly(0, restarted), "Caves" := Quietly(0, restarted)]
  }

  function QuietTick(now: Time, monotonic: nat, restarted: bool): Happening {
    Ticks(Watching, now, TwoShards(Both(restarted), monotonic), OpenAllDay, OpenAllDay)
  }

  function HalfSeenTick(): Happening {
    Ticks(Watching, 2 * HOUR, TwoShards(map["Caves" := Quietly(1, true)], 1 * HOUR), OpenAllDay, OpenAllDay)
  }

  /** The planning of the startup, before any game runs. */
  function StartupTick(): Happening {
    Ticks(Watching, 1 * HOUR, NoInputs.(busy := true, monotonic := Some(0)), OpenAllDay, OpenAllDay)
  }

  function Recorded(clean: bool, restarted: bool): Activity {
    var i := TwoShards(Both(restarted), 0);
    Activity(Sessions(i), Observations(i), ObservedTimes(i), 0, clean, false)
  }

  function Stored(clean: bool, lastWall: Option<Time>, lastMonotonic: Option<nat>): State {
    State(None, None, Some(Recorded(clean, false)), NoMods, None, lastWall, lastMonotonic)
  }

  lemma QuietLatest(now: Time, base: Time, monotonic: nat, restarted: bool)
    requires base <= now
    ensures Latest(TwoShards(Both(restarted), monotonic), ["Master", "Caves"], now, base) == base
  {
    var i := TwoShards(Both(restarted), monotonic);
    assert ["Master", "Caves"][..1] == ["Master"] && ["Master"][..0] == [];
    assert Latest(i, [], now, base) == base;
    assert Latest(i, ["Master"], now, base) == base;
  }

  lemma QuietInputs(monotonic: nat, restarted: bool)
    ensures var i := TwoShards(Both(restarted), monotonic); ValidInputs(i) && Reliable(i) && Empty(i)
  {
    var i := TwoShards(Both(restarted), monotonic);
    assert i.presence.Keys == {"Master", "Caves"};
    assert |i.presence| == |i.presence.Keys| == 2;
  }

  lemma QuietShape(monotonic: nat, restarted: bool)
    ensures var i := TwoShards(Both(restarted), monotonic);
            && Sessions(i) == Recorded(true, false).sessions
            && Observations(i) == Recorded(true, restarted).observations
            && ObservedTimes(i) == Recorded(true, restarted).observedTimes
  {}

  lemma FirstTick()
    ensures Outcome(Initial, QuietTick(0, 0, false)) == Planned(Stored(false, Some(0), Some(0)), None)
  {
    QuietInputs(0, false);
    QuietShape(0, false);
    QuietLatest(0, 0, 0, false);
  }

  lemma StartedTick()
    ensures Outcome(Stored(true, None, None), StartupTick())
            == Planned(Stored(true, Some(1 * HOUR), Some(0)), None)
  {}

  lemma HalfSeen()
    ensures Outcome(Stored(true, Some(1 * HOUR), Some(0)), HalfSeenTick())
            == Planned(Stored(true, Some(2 * HOUR), Some(1 * HOUR)), None)
  {
    var i := HalfSeenTick().inputs;
    assert i.presence.Keys == {"Caves"};
    assert |i.presence| == |i.presence.Keys| == 1;
  }

  lemma LastObserved(i: Inputs)
    requires i == TwoShards(Both(true), 6 * HOUR)
    ensures Observed(Some(Recorded(true, false)), 7 * HOUR, i, false) == Some(Recorded(false, true))
  {
    QuietInputs(6 * HOUR, true);
    QuietShape(6 * HOUR, true);
    QuietLatest(7 * HOUR, 0, 6 * HOUR, true);
    assert Continuous(Recorded(true, false), i);
  }

  lemma LastNoted(s: State, i: Inputs)
    requires s == Stored(true, Some(2 * HOUR), Some(1 * HOUR)) && i == TwoShards(Both(true), 6 * HOUR)
    ensures Noted(s, Watching, 7 * HOUR, i, OpenAllDay.state)
            == s.(activity := Some(Recorded(false, true)), lastWall := Some(7 * HOUR), lastMonotonic := Some(6 * HOUR))
  {
    LastObserved(i);
    assert !ClockChanged(s, 7 * HOUR, i.monotonic);
  }

  lemma LastTick()
    ensures var r := Outcome(Stored(true, Some(2 * HOUR), Some(1 * HOUR)), QuietTick(7 * HOUR, 6 * HOUR, true));
            r.Planned? && r.action.Some? && r.action.value.Regenerate?
  {
    LastNoted(Stored(true, Some(2 * HOUR), Some(1 * HOUR)), TwoShards(Both(true), 6 * HOUR));
    QuietInputs(6 * HOUR, true);
  }

  function Half(): seq<Happening> {
    [] + [QuietTick(0, 0, false)] + [CleanShutdown] + [Restart(1 * HOUR)] + [StartupTick()]
  }

  lemma RunMore(hs: seq<Happening>, h: Happening)
    ensures Run(hs + [h]) == After(Run(hs), h)
  {
    assert (hs + [h])[..|hs|] == hs;
  }

  lemma HalfRuns()
    ensures Run(Half()) == Stored(true, Some(1 * HOUR), Some(0))
  {
    FirstTick();
    StartedTick();
    var a := [] + [QuietTick(0, 0, false)];
    RunMore([], QuietTick(0, 0, false));
    RunMore(a, CleanShutdown);
    RunMore(a + [CleanShutdown], Restart(1 * HOUR));
    RunMore(a + [CleanShutdown] + [Restart(1 * HOUR)], StartupTick());
  }

  /** A history that the Agent can produce: after a clean shutdown and a restart one shard's presence cannot be read
      while the other shows a client, and five hours later, with the same sessions under a new observation, the world
      is regenerated. */
  lemma ClientSeenByOneShard() returns (hs: seq<Happening>)
    ensures ClockForward(hs) && FromAgent(hs) && |hs| == 6 && Regenerated(hs, 5) && Seen(hs, 4)
    ensures hs[4].now > hs[5].now - Retention(1) && !Empty(hs[4].inputs)
  {
    hs := Half() + [HalfSeenTick()] + [QuietTick(7 * HOUR, 6 * HOUR, true)];
    HistoryShape(hs);
    InOrder(hs);
    HalfSeenAt(hs);
    RegeneratedAt(hs);
  }

  lemma HalfSeenAt(hs: seq<Happening>)
    requires |hs| == 6 && hs[..4] == Half() && hs[4] == HalfSeenTick()
    ensures Seen(hs, 4) && Run(hs[..5]) == Stored(true, Some(2 * HOUR), Some(1 * HOUR))
  {
    HalfRuns();
    HalfSeen();
    RunTo(hs, 4, Stored(true, Some(1 * HOUR), Some(0)), Stored(true, Some(2 * HOUR), Some(1 * HOUR)));
  }

  lemma RunTo(hs: seq<Happening>, k: nat, s: State, t: State)
    requires k < |hs| && hs[k].Ticks? && Run(hs[..k]) == s && Outcome(s, hs[k]) == Planned(t, None)
    ensures Seen(hs, k) && Run(hs[..k + 1]) == t
  {
    assert hs[..k + 1][..k] == hs[..k];
  }

  lemma RegeneratedAt(hs: seq<Happening>)
    requires |hs| == 6 && Run(hs[..5]) == Stored(true, Some(2 * HOUR), Some(1 * HOUR))
    requires hs[5] == QuietTick(7 * HOUR, 6 * HOUR, true)
    ensures Regenerated(hs, 5)
  {
    LastTick();
  }

  lemma HistoryShape(hs: seq<Happening>)
    requires hs == Half() + [HalfSeenTick()] + [QuietTick(7 * HOUR, 6 * HOUR, true)]
    ensures |hs| == 6 && FromAgent(hs) && hs[4] == HalfSeenTick() && hs[5] == QuietTick(7 * HOUR, 6 * HOUR, true)
    ensures hs[..4] == Half()
    ensures forall j, k | 0 <= j < k < |hs| && hs[j].Ticks? && hs[k].Ticks? :: hs[j].now <= hs[k].now
    ensures !Empty(hs[4].inputs)
  {
    assert hs == [QuietTick(0, 0, false), CleanShutdown, Restart(1 * HOUR), StartupTick(), HalfSeenTick(),
                  QuietTick(7 * HOUR, 6 * HOUR, true)];
    assert "Caves" in hs[4].inputs.presence;
  }

  lemma InOrder(hs: seq<Happening>)
    requires forall j, k | 0 <= j < k < |hs| && hs[j].Ticks? && hs[k].Ticks? :: hs[j].now <= hs[k].now
    ensures ClockForward(hs)
  {}
}
