/** Daily opening windows: merging them across midnight and finding the current opening.

    Times are integers in nanoseconds; a local time is a count of minutes since day 0. */
module Schedule {
  import opened Options

  const MINUTE := 60_000_000_000
  const DAY_MINUTES := 1440

  /** A daily window between two minutes of the day; it wraps midnight when `end <= start`. */
  datatype Window = Window(start: nat, end: nat)

  predicate ValidWindow(w: Window) {
    w.start < DAY_MINUTES && w.end < DAY_MINUTES && w.start != w.end
  }

  predicate ValidWindows(windows: seq<Window>) {
    forall i | 0 <= i < |windows| :: ValidWindow(windows[i])
  }

  /** The reference: minute `m` of the day lies in this window. */
  predicate InWindow(w: Window, m: nat) {
    if w.start < w.end then w.start <= m < w.end else w.start <= m || m < w.end
  }

  predicate InSome(windows: seq<Window>, m: nat) {
    exists i :: 0 <= i < |windows| && InWindow(windows[i], m)
  }

  /** A half-open interval. */
  datatype Span = Span(start: int, end: int)

  predicate Within(s: Span, x: int) {
    s.start <= x < s.end
  }

  predicate Covered(spans: seq<Span>, x: int) {
    exists i :: 0 <= i < |spans| && Within(spans[i], x)
  }

  // ----- Sorting and merging

  predicate Before(a: Span, b: Span) {
    a.start < b.start || (a.start == b.start && a.end <= b.end)
  }

  ghost predicate Sorted(spans: seq<Span>) {
    forall i, j | 0 <= i < j < |spans| :: spans[i].start <= spans[j].start
  }

  function Inserted(spans: seq<Span>, s: Span): (r: seq<Span>)
    requires Sorted(spans)
    ensures Sorted(r)
    ensures forall x :: x in r <==> x in spans || x == s
  {
    if spans == [] || Before(s, spans[0]) then [s] + spans
    else
      var rest := Inserted(spans[1..], s);
      assert forall k | 0 <= k < |rest| :: rest[k] in rest;
      [spans[0]] + rest
  }

  function SortSpans(spans: seq<Span>): (r: seq<Span>)
    ensures Sorted(r)
    ensures forall x :: x in r <==> x in spans
  {
    if spans == [] then [] else Inserted(SortSpans(spans[1..]), spans[0])
  }

  lemma SameCover(a: seq<Span>, b: seq<Span>)
    requires forall x :: x in a <==> x in b
    ensures forall x :: Covered(a, x) == Covered(b, x)
  {
    forall x ensures Covered(a, x) == Covered(b, x) {
      if Covered(a, x) {
        var i :| 0 <= i < |a| && Within(a[i], x);
        assert a[i] in b;
      }
      if Covered(b, x) {
        var i :| 0 <= i < |b| && Within(b[i], x);
        assert b[i] in a;
      }
    }
  }

  /** Nonempty, in order, with a gap between neighbours. */
  ghost predicate Separated(spans: seq<Span>) {
    && (forall i | 0 <= i < |spans| :: spans[i].start < spans[i].end)
    && (forall i, j | 0 <= i < j < |spans| :: spans[i].end < spans[j].start)
  }

  /** Join spans that overlap or touch, leaving out empty ones. */
  method Merge(sorted: seq<Span>) returns (merged: seq<Span>)
    requires Sorted(sorted)
    ensures Separated(merged)
    ensures forall x :: Covered(merged, x) == Covered(sorted, x)
  {
    merged := [];
    for n := 0 to |sorted|
      invariant Separated(merged)
      invariant n < |sorted| ==> StartsBefore(merged, sorted[n])
      invariant forall x :: Covered(merged, x) == Covered(sorted[..n], x)
    {
      merged := Absorb(merged, sorted[n]);
      Pushed(sorted[..n], sorted[n]);
      assert sorted[..n + 1] == sorted[..n] + [sorted[n]];
    }
    assert sorted[..|sorted|] == sorted;
  }

  ghost predicate StartsBefore(spans: seq<Span>, s: Span) {
    forall k | 0 <= k < |spans| :: spans[k].start <= s.start
  }

  method Absorb(spans: seq<Span>, s: Span) returns (merged: seq<Span>)
    requires Separated(spans) && StartsBefore(spans, s)
    ensures Separated(merged) && StartsBefore(merged, s)
    ensures forall x :: Covered(merged, x) == (Covered(spans, x) || Within(s, x))
  {
    if s.start >= s.end {
      return spans;
    }
    var last := |spans| - 1;
    if spans != [] && s.start <= spans[last].end {
      merged := spans[..last] + [Span(spans[last].start, if spans[last].end < s.end then s.end else spans[last].end)];
      MergedInto(spans, merged, s);
    } else {
      merged := spans + [s];
      Pushed(spans, s);
    }
  }

  lemma Pushed(spans: seq<Span>, s: Span)
    ensures forall x :: Covered(spans + [s], x) == (Covered(spans, x) || Within(s, x))
  {
    forall x ensures Covered(spans + [s], x) == (Covered(spans, x) || Within(s, x)) {
      if Covered(spans, x) {
        var i :| 0 <= i < |spans| && Within(spans[i], x);
        assert Within((spans + [s])[i], x);
      }
      if Within(s, x) {
        assert Within((spans + [s])[|spans|], x);
      }
    }
  }

  lemma MergedInto(before: seq<Span>, after: seq<Span>, s: Span)
    requires before != [] && |after| == |before| && s.start < s.end
    requires before[|before| - 1].start <= s.start <= before[|before| - 1].end
    requires after[..|before| - 1] == before[..|before| - 1]
    requires after[|before| - 1].start == before[|before| - 1].start
    requires after[|before| - 1].end == if before[|before| - 1].end < s.end then s.end else before[|before| - 1].end
    ensures forall x :: Covered(after, x) == (Covered(before, x) || Within(s, x))
  {
    var k := |before| - 1;
    assert before == before[..k] + [before[k]];
    assert after == before[..k] + [after[k]];
    Pushed(before[..k], before[k]);
    Pushed(before[..k], after[k]);
  }

  // ----- The merged windows of one day

  /** Merged windows keep the reference's meaning; an end of 1440 is midnight, and `end <= start`
      still means past midnight. */
  predicate InMerged(w: Span, m: int) {
    if w.start < w.end then w.start <= m < w.end else w.start <= m || m < w.end
  }

  ghost predicate InDay(windows: seq<Span>, m: int) {
    exists i :: 0 <= i < |windows| && InMerged(windows[i], m)
  }

  ghost predicate DaySpans(windows: seq<Span>) {
    forall i | 0 <= i < |windows| ::
      0 <= windows[i].start < DAY_MINUTES && 0 < windows[i].end <= DAY_MINUTES && windows[i].start != windows[i].end
  }

  /** In order and apart from each other; only the last can pass midnight, and it ends before the first begins. */
  ghost predicate DayOrdered(windows: seq<Span>) {
    && (forall i, j | 0 <= i < j < |windows| :: windows[i].start < windows[i].end < windows[j].start)
    && (windows != [] && windows[|windows| - 1].end < windows[|windows| - 1].start ==>
          forall i | 0 <= i < |windows| - 1 :: windows[|windows| - 1].end < windows[i].start)
  }

  /** The ranges of the raw windows, a wrapped one in two pieces. */
  method Ranges(windows: seq<Window>) returns (ranges: seq<Span>)
    requires ValidWindows(windows)
    ensures forall i | 0 <= i < |ranges| ::
              0 <= ranges[i].start <= ranges[i].end <= DAY_MINUTES && ranges[i].start < DAY_MINUTES
    ensures forall m: nat | m < DAY_MINUTES :: Covered(ranges, m) == InSome(windows, m)
  {
    ranges := [];
    for n := 0 to |windows|
      invariant forall i | 0 <= i < |ranges| ::
                  0 <= ranges[i].start <= ranges[i].end <= DAY_MINUTES && ranges[i].start < DAY_MINUTES
      invariant forall m: nat | m < DAY_MINUTES :: Covered(ranges, m) == InSome(windows[..n], m)
    {
      var w := windows[n];
      ghost var before := ranges;
      if w.start < w.end {
        ranges := ranges + [Span(w.start, w.end)];
        Pushed(before, Span(w.start, w.end));
      } else {
        ranges := ranges + [Span(w.start, DAY_MINUTES)] + [Span(0, w.end)];
        Pushed(before, Span(w.start, DAY_MINUTES));
        Pushed(before + [Span(w.start, DAY_MINUTES)], Span(0, w.end));
      }
      SomePushed(windows, n);
    }
    assert windows[..|windows|] == windows;
  }

  lemma SomePushed(windows: seq<Window>, n: nat)
    requires n < |windows|
    ensures forall m: nat :: InSome(windows[..n + 1], m) == (InSome(windows[..n], m) || InWindow(windows[n], m))
  {
    forall m: nat ensures InSome(windows[..n + 1], m) == (InSome(windows[..n], m) || InWindow(windows[n], m)) {
      if InSome(windows[..n], m) {
        var i :| 0 <= i < n && InWindow(windows[..n][i], m);
        assert InWindow(windows[..n + 1][i], m);
      }
      if InWindow(windows[n], m) {
        assert InWindow(windows[..n + 1][n], m);
      }
      if InSome(windows[..n + 1], m) && !InWindow(windows[n], m) {
        var i :| 0 <= i < n + 1 && InWindow(windows[..n + 1][i], m);
        assert InWindow(windows[..n][i], m);
      }
    }
  }

  method MergedMinutes(windows: seq<Window>) returns (merged: seq<Span>)
    requires ValidWindows(windows)
    ensures DaySpans(merged) && DayOrdered(merged)
    ensures forall m: nat | m < DAY_MINUTES :: InDay(merged, m) == InSome(windows, m)
    ensures merged == [] <==> windows == []
    ensures merged == [Span(0, DAY_MINUTES)] <==> windows != [] && forall m: nat | m < DAY_MINUTES :: InSome(windows, m)
  {
    var ranges := Ranges(windows);
    var sorted := SortSpans(ranges);
    assert forall i | 0 <= i < |sorted| :: sorted[i] in ranges;
    merged := Merge(sorted);
    SameCover(sorted, ranges);
    ghost var flat := merged;
    forall k | 0 <= k < |flat| ensures 0 <= flat[k].start && flat[k].end <= DAY_MINUTES {
      assert Within(flat[k], flat[k].start) && Within(flat[k], flat[k].end - 1);
      assert Covered(ranges, flat[k].start) && Covered(ranges, flat[k].end - 1);
    }
    FlatFacts(windows, flat);
    if |merged| > 1 && merged[0].start == 0 && merged[|merged| - 1].end == DAY_MINUTES {
      merged := merged[1..|merged| - 1] + [Span(merged[|merged| - 1].start, merged[0].end)];
      Rotated(flat, merged);
    } else {
      assert forall m: nat | m < DAY_MINUTES :: InDay(merged, m) == Covered(merged, m);
    }
  }

  /** Facts about separated spans that cover exactly the raw windows. */
  lemma FlatFacts(windows: seq<Window>, flat: seq<Span>)
    requires ValidWindows(windows) && Separated(flat)
    requires forall k | 0 <= k < |flat| :: 0 <= flat[k].start < DAY_MINUTES && 0 < flat[k].end <= DAY_MINUTES
    requires forall m: nat | m < DAY_MINUTES :: Covered(flat, m) == InSome(windows, m)
    ensures DaySpans(flat)
    ensures flat == [] <==> windows == []
    ensures flat == [Span(0, DAY_MINUTES)] <==> windows != [] && forall m: nat | m < DAY_MINUTES :: InSome(windows, m)
    ensures |flat| > 1 ==> !Covered(flat, flat[0].end) && flat[0].end < DAY_MINUTES
  {
    if windows != [] {
      var m := windows[0].start;
      assert InWindow(windows[0], m);
      assert Covered(flat, m);
    }
    if flat != [] {
      assert Within(flat[0], flat[0].start);
      assert Covered(flat, flat[0].start);
    }
    if |flat| > 1 {
      assert flat[0].end < flat[1].start;
      forall i | 0 <= i < |flat| ensures !Within(flat[i], flat[0].end) {}
      assert !InSome(windows, flat[0].end);
    }
    if flat != [] && forall m: nat | m < DAY_MINUTES :: InSome(windows, m) {
      assert Covered(flat, 0) && Covered(flat, DAY_MINUTES - 1);
      assert |flat| <= 1;
      assert flat == [flat[0]];
    }
    if flat == [Span(0, DAY_MINUTES)] {
      forall m: nat | m < DAY_MINUTES ensures InSome(windows, m) {
        assert Within(flat[0], m);
      }
    }
  }

  /** Joining the two sides of midnight keeps the spans apart. */
  lemma RotatedSpans(flat: seq<Span>, joined: seq<Span>)
    requires Separated(flat) && |flat| > 1 && flat[0].start == 0 && flat[|flat| - 1].end == DAY_MINUTES
    requires forall k | 0 <= k < |flat| :: 0 <= flat[k].start < DAY_MINUTES && 0 < flat[k].end <= DAY_MINUTES
    requires joined == flat[1..|flat| - 1] + [Span(flat[|flat| - 1].start, flat[0].end)]
    ensures DaySpans(joined) && DayOrdered(joined) && joined != [Span(0, DAY_MINUTES)]
  {
    var n := |flat|;
    assert flat[0].end < flat[n - 1].start;
    assert joined[n - 2] == Span(flat[n - 1].start, flat[0].end);
    forall i | 0 <= i < n - 2 ensures joined[i] == flat[i + 1] && flat[0].end < flat[i + 1].start {}
  }

  lemma JoinedHas(flat: seq<Span>, joined: seq<Span>, m: nat)
    requires |flat| > 1 && Separated(flat) && m < DAY_MINUTES && Covered(flat, m)
    requires flat[0].start == 0 && flat[|flat| - 1].end == DAY_MINUTES
    requires joined == flat[1..|flat| - 1] + [Span(flat[|flat| - 1].start, flat[0].end)]
    ensures InDay(joined, m)
  {
    var n := |flat|;
    assert flat[0].end < flat[n - 1].start;
    var i :| 0 <= i < n && Within(flat[i], m);
    if 0 < i < n - 1 {
      assert joined[i - 1] == flat[i];
      assert InMerged(joined[i - 1], m);
    } else {
      assert joined[n - 2] == Span(flat[n - 1].start, flat[0].end);
      assert InMerged(joined[n - 2], m);
    }
  }

  lemma JoinedOnly(flat: seq<Span>, joined: seq<Span>, m: nat)
    requires |flat| > 1 && Separated(flat) && m < DAY_MINUTES && InDay(joined, m)
    requires flat[0].start == 0 && flat[|flat| - 1].end == DAY_MINUTES
    requires joined == flat[1..|flat| - 1] + [Span(flat[|flat| - 1].start, flat[0].end)]
    ensures Covered(flat, m)
  {
    var n := |flat|;
    assert flat[0].end < flat[n - 1].start;
    var i :| 0 <= i < |joined| && InMerged(joined[i], m);
    if i < n - 2 {
      assert joined[i] == flat[i + 1];
      assert Within(flat[i + 1], m);
    } else if m < flat[0].end {
      assert Within(flat[0], m);
    } else {
      assert joined[n - 2] == Span(flat[n - 1].start, flat[0].end);
      assert Within(flat[n - 1], m);
    }
  }

  /** Joining the two sides of midnight keeps the minutes and the gap. */
  lemma Rotated(flat: seq<Span>, joined: seq<Span>)
    requires Separated(flat) && |flat| > 1 && flat[0].start == 0 && flat[|flat| - 1].end == DAY_MINUTES
    requires forall k | 0 <= k < |flat| :: 0 <= flat[k].start < DAY_MINUTES && 0 < flat[k].end <= DAY_MINUTES
    requires joined == flat[1..|flat| - 1] + [Span(flat[|flat| - 1].start, flat[0].end)]
    ensures DaySpans(joined) && DayOrdered(joined) && joined != [Span(0, DAY_MINUTES)]
    ensures forall m: nat | m < DAY_MINUTES :: InDay(joined, m) == Covered(flat, m)
  {
    RotatedSpans(flat, joined);
    forall m: nat | m < DAY_MINUTES ensures InDay(joined, m) == Covered(flat, m) {
      if Covered(flat, m) {
        JoinedHas(flat, joined, m);
      }
      if InDay(joined, m) {
        JoinedOnly(flat, joined, m);
      }
    }
  }

  // ----- The current opening

  datatype State = State(open: bool, openingId: Option<int>, nextChange: Option<int>)

  datatype Answer = Answered(state: State) | Unresolved

  /** Resolves a local minute to an instant; the flag asks for the end of a window. A zone may have no
      answer at all. */
  type Resolver = (int, bool) -> Option<int>

  /** The local minutes at which a merged window starts and ends on a given day. */
  function LocalSpan(w: Span, day: int): Span {
    var end := if w.end <= w.start || w.end == DAY_MINUTES then day + 1 else day;
    Span(day * DAY_MINUTES + w.start, end * DAY_MINUTES + w.end % DAY_MINUTES)
  }

  function Resolved(zone: Resolver, local: Span): Option<Span> {
    var start, end := zone(local.start, false), zone(local.end, true);
    if start.None? || end.None? then None else Some(Span(start.value, end.value))
  }

  /** The instants that the windows generate around `today`. */
  ghost predicate Generated(zone: Resolver, windows: seq<Span>, today: int, x: int) {
    exists day, i :: today - 2 <= day <= today + 3 && GeneratedBy(zone, windows, day, i, x)
  }

  ghost predicate GeneratedBy(zone: Resolver, windows: seq<Span>, day: int, i: int, x: int) {
    && 0 <= i < |windows|
    && Resolved(zone, LocalSpan(windows[i], day)).Some?
    && Within(Resolved(zone, LocalSpan(windows[i], day)).value, x)
  }

  ghost predicate Resolvable(zone: Resolver, windows: seq<Span>, day: int) {
    forall i | 0 <= i < |windows| :: Resolved(zone, LocalSpan(windows[i], day)).Some?
  }

  ghost predicate AllResolvable(zone: Resolver, windows: seq<Span>, today: int) {
    forall day | today - 2 <= day <= today + 3 :: Resolvable(zone, windows, day)
  }

  /** The windows of one day, as instants. */
  method IntervalsOfDay(zone: Resolver, windows: seq<Span>, day: int) returns (r: Option<seq<Span>>)
    ensures r.Some? <==> Resolvable(zone, windows, day)
    ensures r.Some? ==> forall x :: Covered(r.value, x) <==> exists i :: GeneratedBy(zone, windows, day, i, x)
  {
    var spans := [];
    for n := 0 to |windows|
      invariant forall i | 0 <= i < n :: Resolved(zone, LocalSpan(windows[i], day)).Some?
      invariant forall x :: Covered(spans, x) <==> exists i :: i < n && GeneratedBy(zone, windows, day, i, x)
    {
      var resolved := Resolved(zone, LocalSpan(windows[n], day));
      if resolved.None? {
        return None;
      }
      Pushed(spans, resolved.value);
      assert forall x :: GeneratedBy(zone, windows, day, n, x) == Within(resolved.value, x);
      if resolved.value.start < resolved.value.end {
        spans := spans + [resolved.value];
      }
    }
    return Some(spans);
  }

  method Intervals(zone: Resolver, windows: seq<Span>, today: int) returns (r: Option<seq<Span>>)
    ensures r.Some? <==> AllResolvable(zone, windows, today)
    ensures r.Some? ==> forall x :: Covered(r.value, x) == Generated(zone, windows, today, x)
  {
    var spans := [];
    for day := today - 2 to today + 4
      invariant forall d | today - 2 <= d < day :: Resolvable(zone, windows, d)
      invariant forall x ::
                  Covered(spans, x) <==> exists d, i :: today - 2 <= d < day && GeneratedBy(zone, windows, d, i, x)
    {
      var more := IntervalsOfDay(zone, windows, day);
      if more.None? {
        return None;
      }
      Concatenated(spans, more.value);
      spans := spans + more.value;
    }
    return Some(spans);
  }

  lemma Concatenated(a: seq<Span>, b: seq<Span>)
    ensures forall x :: Covered(a + b, x) == (Covered(a, x) || Covered(b, x))
  {
    forall x ensures Covered(a + b, x) == (Covered(a, x) || Covered(b, x)) {
      if Covered(a, x) {
        var i :| 0 <= i < |a| && Within(a[i], x);
        assert Within((a + b)[i], x);
      }
      if Covered(b, x) {
        var i :| 0 <= i < |b| && Within(b[i], x);
        assert Within((a + b)[|a| + i], x);
      }
    }
  }

  /** What the answer says about a set of open instants: the current opening is the maximal run of open
      instants around `now`, and otherwise the next change is the first open instant after it. */
  ghost predicate Exact(openAt: int -> bool, now: int, s: State) {
    && s.open == openAt(now)
    && s.nextChange.Some? && now < s.nextChange.value
    && (forall x | now <= x < s.nextChange.value :: openAt(x) == s.open)
    && openAt(s.nextChange.value) != s.open
    && s.openingId.Some? == s.open
    && (s.open ==>
          && s.openingId.value <= now && !openAt(s.openingId.value - 1)
          && forall x | s.openingId.value <= x <= now :: openAt(x))
  }

  /** The scan of the merged intervals for the one around or after `now`. */
  method Locate(merged: seq<Span>, now: int) returns (r: Answer)
    requires Separated(merged)
    ensures r.Answered? <==> exists k :: 0 <= k < |merged| && now < merged[k].end
    ensures r.Answered? ==> Exact(x => Covered(merged, x), now, r.state)
  {
    for n := 0 to |merged|
      invariant forall k | 0 <= k < n :: merged[k].end <= now
    {
      var s := merged[n];
      if s.start <= now < s.end {
        InsideRun(merged, n);
        return Answered(State(true, Some(s.start), Some(s.end)));
      }
      if s.start > now {
        assert Within(merged[n], s.start);
        return Answered(State(false, None, Some(s.start)));
      }
    }
    return Unresolved;
  }

  lemma InsideRun(merged: seq<Span>, n: nat)
    requires Separated(merged) && n < |merged|
    ensures !Covered(merged, merged[n].start - 1) && !Covered(merged, merged[n].end)
    ensures forall x | Within(merged[n], x) :: Covered(merged, x)
  {
    forall k | 0 <= k < |merged| ensures !Within(merged[k], merged[n].start - 1) && !Within(merged[k], merged[n].end) {
      if k < n {
        assert merged[k].end < merged[n].start;
      } else if n < k {
        assert merged[n].end < merged[k].start;
      }
    }
  }

  ghost predicate AlwaysOpen(windows: seq<Window>) {
    windows == [] || forall m: nat | m < DAY_MINUTES :: InSome(windows, m)
  }

  /** For every local-time resolver: continuously open exactly when the windows leave nothing out;
      otherwise the answer is exact for the union of the generated intervals, and it is missing exactly
      when a boundary has no local time or no generated instant follows `now`. `today` is the local day. */
  method ScheduleIn(zone: Resolver, windows: seq<Window>, now: int, today: int)
    returns (r: Answer, ghost merged: seq<Span>)
    requires ValidWindows(windows)
    ensures DaySpans(merged) && forall m: nat | m < DAY_MINUTES :: InDay(merged, m) == InSome(windows, m)
    ensures AlwaysOpen(windows) ==> r == Answered(State(true, None, None))
    ensures !AlwaysOpen(windows) ==>
              && (r.Answered? <==> AllResolvable(zone, merged, today)
                                   && exists x :: now <= x && Generated(zone, merged, today, x))
              && (r.Answered? ==> Exact(x => Generated(zone, merged, today, x), now, r.state))
  {
    var minutes := MergedMinutes(windows);
    merged := minutes;
    if minutes == [] || minutes == [Span(0, DAY_MINUTES)] {
      r := Answered(State(true, None, None));
      return;
    }
    var intervals := Intervals(zone, minutes, today);
    if intervals.None? {
      r := Unresolved;
      return;
    }
    var sorted := SortSpans(intervals.value);
    var runs := Merge(sorted);
    SameCover(sorted, intervals.value);
    r := Locate(runs, now);
    LastRun(runs, now);
    if r.Answered? {
      ExactFor(x => Covered(runs, x), x => Generated(zone, merged, today, x), now, r.state);
    }
  }

  lemma ExactFor(one: int -> bool, other: int -> bool, now: int, s: State)
    requires Exact(one, now, s) && forall x :: one(x) == other(x)
    ensures Exact(other, now, s)
  {}

  lemma LastRun(runs: seq<Span>, now: int)
    requires Separated(runs)
    ensures (exists k :: 0 <= k < |runs| && now < runs[k].end) <==> exists x :: now <= x && Covered(runs, x)
  {
    if k :| 0 <= k < |runs| && now < runs[k].end {
      var x := if runs[k].start <= now then now else runs[k].start;
      assert Within(runs[k], x);
      assert Covered(runs, x);
    }
    if x :| now <= x && Covered(runs, x) {
      var k :| 0 <= k < |runs| && Within(runs[k], x);
      assert now < runs[k].end;
    }
  }

  // ----- Zones with a fixed offset

  function FixedZone(offset: int): Resolver {
    (minute, _) => Some(minute * MINUTE - offset)
  }

  function LocalMinute(offset: int, x: int): int {
    (x + offset) / MINUTE
  }

  function Today(offset: int, x: int): int {
    LocalMinute(offset, x) / DAY_MINUTES
  }

  /** The reference: the room is open at instant `x` when the local minute of the day lies in a window. */
  ghost predicate OpenAt(windows: seq<Window>, offset: int, x: int) {
    InSome(windows, LocalMinute(offset, x) % DAY_MINUTES)
  }

  lemma InstantSpan(offset: int, a: int, b: int, x: int)
    ensures Within(Span(a * MINUTE - offset, b * MINUTE - offset), x) <==> a <= LocalMinute(offset, x) < b
  {
    var minute := LocalMinute(offset, x);
    assert minute * MINUTE <= x + offset < (minute + 1) * MINUTE;
  }

  /** A local minute lies in a window's span on some day exactly when its minute of the day lies in it. */
  lemma LocalDays(w: Span, day: int, minute: int)
    requires 0 <= w.start < DAY_MINUTES && 0 < w.end <= DAY_MINUTES && w.start != w.end
    ensures Within(LocalSpan(w, day), minute) ==>
              InMerged(w, minute % DAY_MINUTES) && (day == minute / DAY_MINUTES || day == minute / DAY_MINUTES - 1)
    ensures day == minute / DAY_MINUTES && InMerged(w, minute % DAY_MINUTES) ==>
              Within(LocalSpan(w, day), minute) || Within(LocalSpan(w, day - 1), minute)
  {}

  lemma FixedGenerated(windows: seq<Window>, merged: seq<Span>, offset: int, today: int, x: int)
    requires DaySpans(merged) && forall m: nat | m < DAY_MINUTES :: InDay(merged, m) == InSome(windows, m)
    ensures Generated(FixedZone(offset), merged, today, x) ==> OpenAt(windows, offset, x)
    ensures OpenAt(windows, offset, x) && today - 1 <= Today(offset, x) <= today + 3 ==>
              Generated(FixedZone(offset), merged, today, x)
  {
    var zone, minute := FixedZone(offset), LocalMinute(offset, x);
    forall day, i | 0 <= i < |merged|
      ensures GeneratedBy(zone, merged, day, i, x) == Within(LocalSpan(merged[i], day), minute)
    {
      var local := LocalSpan(merged[i], day);
      InstantSpan(offset, local.start, local.end, x);
    }
    if Generated(zone, merged, today, x) {
      var day, i :| today - 2 <= day <= today + 3 && GeneratedBy(zone, merged, day, i, x);
      LocalDays(merged[i], day, minute);
    }
    if OpenAt(windows, offset, x) && today - 1 <= Today(offset, x) <= today + 3 {
      assert InDay(merged, minute % DAY_MINUTES);
      var i :| 0 <= i < |merged| && InMerged(merged[i], minute % DAY_MINUTES);
      var day := Today(offset, x);
      LocalDays(merged[i], day, minute);
      assert GeneratedBy(zone, merged, day, i, x) || GeneratedBy(zone, merged, day - 1, i, x);
    }
  }

  lemma InstantOf(offset: int, day: int, minute: nat)
    requires minute < DAY_MINUTES
    ensures var x := (day * DAY_MINUTES + minute) * MINUTE - offset;
            LocalMinute(offset, x) == day * DAY_MINUTES + minute && Today(offset, x) == day
            && LocalMinute(offset, x) % DAY_MINUTES == minute
  {}

  lemma DaysOrdered(offset: int, x: int, y: int)
    ensures x <= y ==> Today(offset, x) <= Today(offset, y)
    ensures Today(offset, x) < Today(offset, y) ==> x < y
  {}

  /** With a fixed offset the answer never fails, and it is exact for the raw windows: `open` is the
      current minute's membership, the answer stays the same until `nextChange` and flips there, and
      `openingId` is the first instant of the opening. */
  method ScheduleFixed(windows: seq<Window>, now: int, offset: int) returns (r: Answer)
    requires ValidWindows(windows)
    ensures r.Answered?
    ensures AlwaysOpen(windows) ==> r.state == State(true, None, None)
    ensures !AlwaysOpen(windows) ==> Exact(x => OpenAt(windows, offset, x), now, r.state)
  {
    var today := Today(offset, now);
    ghost var merged;
    r, merged := ScheduleIn(FixedZone(offset), windows, now, today);
    if !AlwaysOpen(windows) {
      FixedAnswered(windows, merged, offset, now);
      FixedExact(windows, merged, offset, now, r.state);
    }
  }

  lemma FixedAnswered(windows: seq<Window>, merged: seq<Span>, offset: int, now: int)
    requires ValidWindows(windows) && !AlwaysOpen(windows)
    requires DaySpans(merged) && forall m: nat | m < DAY_MINUTES :: InDay(merged, m) == InSome(windows, m)
    ensures var today := Today(offset, now);
            AllResolvable(FixedZone(offset), merged, today)
            && exists x :: now <= x && Generated(FixedZone(offset), merged, today, x)
  {
    var x := OpenInstant(windows, offset, Today(offset, now) + 1);
    DaysOrdered(offset, now, x);
    FixedGenerated(windows, merged, offset, Today(offset, now), x);
  }

  /** Every day has an open instant. */
  lemma OpenInstant(windows: seq<Window>, offset: int, day: int) returns (x: int)
    requires ValidWindows(windows) && windows != []
    ensures Today(offset, x) == day && OpenAt(windows, offset, x)
  {
    InstantOf(offset, day, windows[0].start);
    x := (day * DAY_MINUTES + windows[0].start) * MINUTE - offset;
    assert InWindow(windows[0], windows[0].start);
  }

  /** Every day has a closed instant, unless the room is always open. */
  lemma ClosedInstant(windows: seq<Window>, offset: int, day: int) returns (x: int)
    requires !AlwaysOpen(windows)
    ensures Today(offset, x) == day && !OpenAt(windows, offset, x)
  {
    var m: nat :| m < DAY_MINUTES && !InSome(windows, m);
    InstantOf(offset, day, m);
    x := (day * DAY_MINUTES + m) * MINUTE - offset;
  }

  /** The generated intervals reach far enough: what is exact for them is exact for the windows. */
  lemma FixedExact(windows: seq<Window>, merged: seq<Span>, offset: int, now: int, s: State)
    requires ValidWindows(windows) && !AlwaysOpen(windows)
    requires DaySpans(merged) && forall m: nat | m < DAY_MINUTES :: InDay(merged, m) == InSome(windows, m)
    requires Exact(x => Generated(FixedZone(offset), merged, Today(offset, now), x), now, s)
    ensures Exact(x => OpenAt(windows, offset, x), now, s)
  {
    var today := Today(offset, now);
    var generated := x => Generated(FixedZone(offset), merged, today, x);
    var openAt := x => OpenAt(windows, offset, x);
    forall x ensures today - 1 <= Today(offset, x) <= today + 1 ==> generated(x) == openAt(x) {
      FixedGenerated(windows, merged, offset, today, x);
    }
    var dawn := OpenInstant(windows, offset, today + 1);
    var dusk := ClosedInstant(windows, offset, today + 1);
    var before := ClosedInstant(windows, offset, today - 1);
    DaysOrdered(offset, now, dawn);
    DaysOrdered(offset, now, dusk);
    DaysOrdered(offset, before, now);
    assert generated(dawn) && !generated(dusk) && !generated(before);
    var flip := if s.open then dusk else dawn;
    assert s.nextChange.value <= flip;
    Transferred(generated, openAt, offset, now, s, before, flip);
  }

  lemma Transferred(one: int -> bool, other: int -> bool, offset: int, now: int, s: State, before: int, flip: int)
    requires Exact(one, now, s) && s.nextChange.value <= flip && before < now < flip
    requires forall x :: Today(offset, now) - 1 <= Today(offset, x) <= Today(offset, now) + 1 ==> one(x) == other(x)
    requires Today(offset, before) == Today(offset, now) - 1 && Today(offset, flip) == Today(offset, now) + 1
    requires !one(before)
    ensures Exact(other, now, s)
  {
    forall x | before <= x <= flip ensures one(x) == other(x) {
      DaysOrdered(offset, before, x);
      DaysOrdered(offset, x, flip);
    }
    if s.open {
      assert before < s.openingId.value;
    }
  }

  /** Two instants of one opening get the same identity and the same end. */
  lemma OneOpening(openAt: int -> bool, now: int, later: int, s: State, t: State)
    requires Exact(openAt, now, s) && Exact(openAt, later, t) && s.open
    requires now <= later < s.nextChange.value
    ensures t == s
  {
    assert !openAt(s.openingId.value - 1) && !openAt(t.openingId.value - 1);
    assert !openAt(s.nextChange.value) && !openAt(t.nextChange.value);
  }
}
