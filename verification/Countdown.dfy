/** The spoken countdown: notices at whole intervals before a fixed deadline, however slow each send is. */
module Countdown {
  /** The next wake-up target: the deadline minus a whole number of intervals. */
  function NextNotice(deadline: int, remaining: nat, interval: nat): int
    requires interval > 0
  {
    var offset := (if remaining == 0 then 0 else remaining - 1) / interval * interval;
    deadline - offset
  }

  function Ceiling(delay: nat, interval: nat): nat
    requires interval > 0
  {
    (delay + interval - 1) / interval
  }

  /** `count` intervals on end. */
  function Intervals(count: nat, interval: nat): nat {
    if count == 0 then 0 else Intervals(count - 1, interval) + interval
  }

  ghost predicate Aligned(deadline: int, interval: nat, target: int) {
    exists k: nat :: target == deadline - Intervals(k, interval)
  }

  /** The wake-up target chosen at `time`, and the time at which the next notice is sent. */
  ghost predicate WakesWell(deadline: int, interval: nat, time: int, target: int, next: int) {
    Aligned(deadline, interval, target) && time < target <= time + interval && target <= next
  }

  lemma {:induction false} Multiplied(count: nat, interval: nat)
    ensures Intervals(count, interval) == count * interval
    decreases count
  {
    if count > 0 {
      Multiplied(count - 1, interval);
    }
  }

  lemma {:induction false} Longer(a: nat, b: nat, interval: nat)
    requires a <= b
    ensures Intervals(a, interval) <= Intervals(b, interval)
    decreases b
  {
    if a < b {
      Longer(a, b - 1, interval);
    }
  }

  lemma Divided(a: nat, interval: nat)
    requires interval > 0
    ensures Intervals(a / interval, interval) <= a < Intervals(a / interval + 1, interval)
  {
    Multiplied(a / interval, interval);
    assert a == a / interval * interval + a % interval;
  }

  lemma CeilingCovers(delay: nat, interval: nat)
    requires interval > 0
    ensures delay <= Intervals(Ceiling(delay, interval), interval)
  {
    Divided(delay + interval - 1, interval);
  }

  /** However the remaining time lies, the target is after now, at most one interval away, aligned to the
      deadline, and leaves one interval less. */
  method NextWake(deadline: int, now: int, interval: nat, ghost left: nat) returns (target: int)
    requires interval > 0 && now < deadline && deadline - now <= Intervals(left, interval)
    ensures target == NextNotice(deadline, deadline - now, interval)
    ensures now < target <= now + interval && target <= deadline && Aligned(deadline, interval, target)
    ensures left > 0 && deadline - target <= Intervals(left - 1, interval)
  {
    var k := (deadline - now - 1) / interval;
    target := deadline - k * interval;
    Multiplied(k, interval);
    Divided(deadline - now - 1, interval);
    if left <= k {
      Longer(left, k, interval);
    }
    Longer(k, left - 1, interval);
  }

  /** `sending(n)` is how long the n-th send takes, `late(n)` how much later than asked the sleep ends,
      and `accepts(n)` whether the n-th send is wanted; all are arbitrary. The result lists the time
      remaining at each notice, the wake-up targets and the times of the notices. */
  method Rounds(deadline: int, first: int, interval: nat, ghost rounds: nat,
                sending: nat -> nat, late: nat -> nat, accepts: nat -> bool)
    returns (finished: bool, notices: seq<nat>, targets: seq<int>, times: seq<int>)
    requires interval > 0 && deadline - first <= Intervals(rounds, interval)
    ensures 1 <= |notices| <= rounds + 1 && |times| == |notices| == |targets| + 1
    ensures times[0] == first
    ensures forall n | 0 <= n < |notices| :: notices[n] == if times[n] < deadline then deadline - times[n] else 0
    ensures forall n | 0 <= n < |targets| :: WakesWell(deadline, interval, times[n], targets[n], times[n + 1])
    ensures forall n: nat | n < |notices| - 1 :: accepts(n) && notices[n] > 0
    ensures finished == accepts(|notices| - 1)
    ensures finished ==> notices[|notices| - 1] == 0
  {
    var now, n := first, 0;
    notices, targets, times := [], [], [first];
    while true
      invariant |notices| == |targets| == n <= rounds && |times| == n + 1
      invariant times[0] == first && times[n] == now
      invariant deadline - now <= Intervals(rounds - n, interval)
      invariant forall k | 0 <= k < n :: notices[k] == if times[k] < deadline then deadline - times[k] else 0
      invariant forall k | 0 <= k < n :: WakesWell(deadline, interval, times[k], targets[k], times[k + 1])
      invariant forall k: nat | k < n :: accepts(k) && notices[k] > 0
      decreases rounds - n
    {
      var remaining: nat := if now < deadline then deadline - now else 0;
      notices := notices + [remaining];
      if !accepts(n) {
        return false, notices, targets, times;
      }
      if remaining == 0 {
        return true, notices, targets, times;
      }
      var target := NextWake(deadline, now, interval, rounds - n);
      targets := targets + [target];
      var sent := now + sending(n);
      now := (if sent < target then target else sent) + late(n);
      times := times + [now];
      n := n + 1;
    }
  }

  /** The whole countdown, whose first notice comes `begin` after the start: at most one notice more than the delay has
      intervals, and unless one is refused the last says that no time is left. */
  method Run(start: int, begin: nat, delay: nat, interval: nat,
             sending: nat -> nat, late: nat -> nat, accepts: nat -> bool)
    returns (finished: bool, notices: seq<nat>, targets: seq<int>, times: seq<int>)
    requires interval > 0
    ensures 1 <= |notices| <= Ceiling(delay, interval) + 1 && |times| == |notices| == |targets| + 1
    ensures notices[0] == if begin < delay then delay - begin else 0
    ensures forall n | 0 <= n < |targets| :: WakesWell(start + delay, interval, times[n], targets[n], times[n + 1])
    ensures forall n: nat | n < |notices| - 1 :: accepts(n) && notices[n] > 0
    ensures finished == accepts(|notices| - 1)
    ensures finished ==> notices[|notices| - 1] == 0
  {
    CeilingCovers(delay, interval);
    finished, notices, targets, times :=
      Rounds(start + delay, start + begin, interval, Ceiling(delay, interval), sending, late, accepts);
  }
}
