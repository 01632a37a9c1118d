/** Exactly which requests for ports can be met by the allocator, in the order in which it serves the endpoints. */
module PortSuccess {
  import opened Options
  import opened PortAllocation

  /** How many of the first `n` endpoints have neither an explicit request nor an earlier host. */
  function New(q: Request, n: nat): nat
    requires n <= |q.endpoints|
  {
    if n == 0 then 0 else New(q, n - 1) + (if Selected(q, q.endpoints[n - 1]).None? then 1 else 0)
  }

  /** One of the first `n` endpoints has selected this host. */
  predicate Claimed(q: Request, n: nat, p: nat)
    requires n <= |q.endpoints|
  {
    exists i | 0 <= i < n :: Selected(q, q.endpoints[i]) == Some(p)
  }

  predicate InPool(q: Request, p: nat) {
    q.first <= p <= q.last
  }

  /** A free port of the pool that none of the first `n` endpoints has selected. */
  predicate Spare(q: Request, others: set<nat>, n: nat, p: nat)
    requires n <= |q.endpoints|
  {
    InPool(q, p) && Free(q, others, p) && !Claimed(q, n, p)
  }

  /** How many spare ports lie below `x`. */
  function SpareBelow(q: Request, others: set<nat>, n: nat, x: nat): nat
    requires n <= |q.endpoints|
    decreases x
  {
    if x <= q.first then 0
    else SpareBelow(q, others, n, x - 1) + (if Spare(q, others, n, x - 1) then 1 else 0)
  }

  /** The selected hosts are free and different from each other. */
  predicate SelectedFit(q: Request, others: set<nat>, n: nat)
    requires n <= |q.endpoints|
  {
    && (forall i | 0 <= i < n && Selected(q, q.endpoints[i]).Some? ::
          Free(q, others, Selected(q, q.endpoints[i]).value))
    && (forall i, j | 0 <= i < j < n && Selected(q, q.endpoints[i]).Some? ::
          Selected(q, q.endpoints[i]) != Selected(q, q.endpoints[j]))
  }

  /** Before an endpoint that has selected a port of the pool there are enough spare ports below it for all the new
      endpoints before it, so that none of them takes it. */
  predicate Unreached(q: Request, others: set<nat>, n: nat, i: nat)
    requires i < n <= |q.endpoints|
  {
    Selected(q, q.endpoints[i]).Some? && InPool(q, Selected(q, q.endpoints[i]).value) ==>
      SpareBelow(q, others, n, Selected(q, q.endpoints[i]).value) >= New(q, i)
  }

  predicate CanServe(q: Request, others: set<nat>, n: nat)
    requires n <= |q.endpoints|
  {
    && SelectedFit(q, others, n)
    && SpareBelow(q, others, n, q.last + 1) >= New(q, n)
    && forall i | 0 <= i < n :: Unreached(q, others, n, i)
  }

  // ----- Counting spare ports

  lemma {:induction false} SpareGrows(q: Request, others: set<nat>, n: nat, x: nat, y: nat)
    requires n <= |q.endpoints| && x <= y
    ensures SpareBelow(q, others, n, x) <= SpareBelow(q, others, n, y)
    ensures x < y && Spare(q, others, n, x) ==> SpareBelow(q, others, n, x) < SpareBelow(q, others, n, y)
    decreases y - x
  {
    if x < y {
      SpareGrows(q, others, n, x, y - 1);
    }
  }

  /** The spare port with exactly `k` others below it. */
  lemma {:induction false} NextSpare(q: Request, others: set<nat>, n: nat, k: nat, x: nat) returns (p: nat)
    requires n <= |q.endpoints| && k < SpareBelow(q, others, n, x)
    ensures p < x && Spare(q, others, n, p) && SpareBelow(q, others, n, p) == k
    decreases x
  {
    if k < SpareBelow(q, others, n, x - 1) {
      p := NextSpare(q, others, n, k, x - 1);
    } else {
      p := x - 1;
    }
  }

  /** No set of spare ports below `x` is larger than their number. */
  lemma {:induction false} SpareCounts(q: Request, others: set<nat>, n: nat, x: nat, ports: set<nat>)
    requires n <= |q.endpoints| && forall p | p in ports :: Spare(q, others, n, p) && p < x
    ensures |ports| <= SpareBelow(q, others, n, x)
    decreases x
  {
    if ports != {} {
      var some :| some in ports;
      assert q.first < x;
      SpareCounts(q, others, n, x - 1, ports - {x - 1});
      if x - 1 in ports {
        assert ports == (ports - {x - 1}) + {x - 1};
      } else {
        assert ports - {x - 1} == ports;
      }
    }
  }

  // ----- If the condition holds, every new endpoint gets the next spare port

  /** What is taken when the first `m` of `n` endpoints have been served. */
  ghost predicate TakenIs(q: Request, others: set<nat>, n: nat, m: nat, taken: set<nat>)
    requires m <= n <= |q.endpoints|
  {
    forall p: nat :: p in taken <==>
      p in others || Claimed(q, m, p) || (Spare(q, others, n, p) && SpareBelow(q, others, n, p) < New(q, m))
  }

  lemma ClaimedMore(q: Request, m: nat, p: nat)
    requires m < |q.endpoints|
    ensures Claimed(q, m + 1, p) <==> Claimed(q, m, p) || Selected(q, q.endpoints[m]) == Some(p)
  {}

  lemma {:induction false} NewGrows(q: Request, i: nat, j: nat)
    requires i <= j <= |q.endpoints|
    ensures New(q, i) <= New(q, j)
    decreases j - i
  {
    if i < j {
      NewGrows(q, i, j - 1);
    }
  }

  /** A port that a later endpoint has selected lies above the next spare one. */
  lemma LaterIsHigher(q: Request, others: set<nat>, n: nat, m: nat, p: nat)
    requires m < n <= |q.endpoints| && CanServe(q, others, n) && Selected(q, q.endpoints[m]).None?
    requires InPool(q, p) && Claimed(q, n, p) && !Claimed(q, m, p)
    ensures SpareBelow(q, others, n, p) > New(q, m)
  {
    var i :| 0 <= i < n && Selected(q, q.endpoints[i]) == Some(p);
    assert Unreached(q, others, n, i);
    assert i > m;
    NewGrows(q, m + 1, i);
  }

  lemma LowerIsTaken(q: Request, others: set<nat>, n: nat, m: nat, taken: set<nat>, host: nat, p: nat)
    requires m < n <= |q.endpoints| && CanServe(q, others, n) && TakenIs(q, others, n, m, taken)
    requires Selected(q, q.endpoints[m]).None? && SpareBelow(q, others, n, host) == New(q, m)
    requires q.first <= p < host <= q.last
    ensures !Free(q, taken, p)
  {
    SpareGrows(q, others, n, p, host);
    if Claimed(q, n, p) && !Claimed(q, m, p) {
      LaterIsHigher(q, others, n, m, p);
    }
  }

  lemma LeastIs(q: Request, taken: set<nat>, host: nat)
    requires InPool(q, host) && Free(q, taken, host) && forall p: nat | q.first <= p < host :: !Free(q, taken, p)
    ensures LeastFree(q, taken, q.first) == Some(host)
  {}

  lemma LowerAreTaken(q: Request, others: set<nat>, n: nat, m: nat, taken: set<nat>, host: nat)
    requires m < n <= |q.endpoints| && CanServe(q, others, n) && TakenIs(q, others, n, m, taken)
    requires Selected(q, q.endpoints[m]).None? && SpareBelow(q, others, n, host) == New(q, m) && host <= q.last
    ensures forall p: nat | q.first <= p < host :: !Free(q, taken, p)
  {
    forall p: nat | q.first <= p < host ensures !Free(q, taken, p) {
      LowerIsTaken(q, others, n, m, taken, host, p);
    }
  }

  lemma SpareIsFree(q: Request, others: set<nat>, n: nat, m: nat, taken: set<nat>, host: nat)
    requires m <= n <= |q.endpoints| && TakenIs(q, others, n, m, taken)
    requires Spare(q, others, n, host) && SpareBelow(q, others, n, host) >= New(q, m)
    ensures Free(q, taken, host)
  {
    ClaimedLess(q, m, n, host);
  }

  lemma SpareLeft(q: Request, others: set<nat>, n: nat, m: nat)
    requires m < n <= |q.endpoints| && SpareBelow(q, others, n, q.last + 1) >= New(q, n)
    requires Selected(q, q.endpoints[m]).None?
    ensures New(q, m) < SpareBelow(q, others, n, q.last + 1)
  {
    NewGrows(q, m + 1, n);
  }

  lemma NewIsServed(q: Request, others: set<nat>, n: nat, m: nat, taken: set<nat>) returns (host: nat)
    requires m < n <= |q.endpoints| && CanServe(q, others, n) && TakenIs(q, others, n, m, taken)
    requires Selected(q, q.endpoints[m]).None?
    ensures Spare(q, others, n, host) && SpareBelow(q, others, n, host) == New(q, m)
    ensures Choose(q, taken, q.endpoints[m]) == Some(host)
  {
    host := SpareHost(q, others, n, m);
    LowerAreTaken(q, others, n, m, taken, host);
    SpareIsFree(q, others, n, m, taken, host);
    LeastIs(q, taken, host);
  }

  lemma SpareHost(q: Request, others: set<nat>, n: nat, m: nat) returns (host: nat)
    requires m < n <= |q.endpoints| && SpareBelow(q, others, n, q.last + 1) >= New(q, n)
    requires Selected(q, q.endpoints[m]).None?
    ensures Spare(q, others, n, host) && SpareBelow(q, others, n, host) == New(q, m)
  {
    SpareLeft(q, others, n, m);
    host := NextSpare(q, others, n, New(q, m), q.last + 1);
  }

  lemma ClaimedLess(q: Request, m: nat, n: nat, p: nat)
    requires m <= n <= |q.endpoints|
    ensures Claimed(q, m, p) ==> Claimed(q, n, p)
  {}

  lemma NewTaken(q: Request, others: set<nat>, n: nat, m: nat, taken: set<nat>, host: nat)
    requires m < n <= |q.endpoints| && TakenIs(q, others, n, m, taken) && Selected(q, q.endpoints[m]).None?
    requires Spare(q, others, n, host) && SpareBelow(q, others, n, host) == New(q, m)
    ensures TakenIs(q, others, n, m + 1, taken + {host})
  {
    forall p: nat
      ensures p in taken + {host} <==>
                || p in others || Claimed(q, m + 1, p)
                || (Spare(q, others, n, p) && SpareBelow(q, others, n, p) < New(q, m + 1))
    {
      ClaimedMore(q, m, p);
      if Spare(q, others, n, p) {
        OnlyHost(q, others, n, host, p);
      }
    }
  }

  /** No other spare port has as many spare ports below it. */
  lemma OnlyHost(q: Request, others: set<nat>, n: nat, host: nat, p: nat)
    requires n <= |q.endpoints| && Spare(q, others, n, host) && Spare(q, others, n, p)
    ensures SpareBelow(q, others, n, p) == SpareBelow(q, others, n, host) <==> p == host
  {
    if p < host {
      SpareGrows(q, others, n, p, host);
    } else if host < p {
      SpareGrows(q, others, n, host, p);
    }
  }

  lemma SelectedTaken(q: Request, others: set<nat>, n: nat, m: nat, taken: set<nat>)
    requires m < n <= |q.endpoints| && CanServe(q, others, n) && TakenIs(q, others, n, m, taken)
    requires Selected(q, q.endpoints[m]).Some?
    ensures Choose(q, taken, q.endpoints[m]) == Selected(q, q.endpoints[m])
    ensures TakenIs(q, others, n, m + 1, taken + {Selected(q, q.endpoints[m]).value})
  {
    var host := Selected(q, q.endpoints[m]).value;
    assert Claimed(q, n, host);
    assert !Claimed(q, m, host);
    forall p: nat
      ensures p in taken + {host} <==>
                || p in others || Claimed(q, m + 1, p)
                || (Spare(q, others, n, p) && SpareBelow(q, others, n, p) < New(q, m + 1))
    {
      ClaimedMore(q, m, p);
    }
  }

  lemma {:induction false} ServesAll(q: Request, others: set<nat>, n: nat, m: nat)
    requires m <= n <= |q.endpoints| && CanServe(q, others, n)
    ensures Hosts(q, others, m).Some? && TakenIs(q, others, n, m, Taken(others, Hosts(q, others, m).value))
    decreases m
  {
    if m > 0 {
      ServesAll(q, others, n, m - 1);
      var earlier := Hosts(q, others, m - 1).value;
      var taken := Taken(others, earlier);
      if Selected(q, q.endpoints[m - 1]).Some? {
        SelectedTaken(q, others, n, m - 1, taken);
        TakenMore(others, earlier, Selected(q, q.endpoints[m - 1]).value);
      } else {
        var host := NewIsServed(q, others, n, m - 1, taken);
        NewTaken(q, others, n, m - 1, taken, host);
        TakenMore(others, earlier, host);
      }
    }
  }

  // ----- If all are served, the condition holds

  /** The hosts of the new endpoints among the first `i`. */
  ghost function NewHosts(q: Request, hosts: seq<nat>, i: nat): set<nat>
    requires i <= |hosts| <= |q.endpoints|
  {
    if i == 0 then {}
    else NewHosts(q, hosts, i - 1) + (if Selected(q, q.endpoints[i - 1]).None? then {hosts[i - 1]} else {})
  }

  lemma {:induction false} NewHostsHas(q: Request, hosts: seq<nat>, i: nat, p: nat)
    requires i <= |hosts| <= |q.endpoints|
    ensures p in NewHosts(q, hosts, i) <==>
              exists j | 0 <= j < i :: Selected(q, q.endpoints[j]).None? && hosts[j] == p
    decreases i
  {
    if i > 0 {
      NewHostsHas(q, hosts, i - 1, p);
    }
  }

  lemma {:induction false} NewHostsCount(q: Request, others: set<nat>, hosts: seq<nat>, i: nat)
    requires i <= |hosts| && Safe(q, others, hosts)
    ensures |NewHosts(q, hosts, i)| == New(q, i)
    decreases i
  {
    if i > 0 {
      NewHostsCount(q, others, hosts, i - 1);
      NewHostsHas(q, hosts, i - 1, hosts[i - 1]);
    }
  }

  /** The host of a new endpoint is spare. */
  lemma NewHostIsSpare(q: Request, others: set<nat>, hosts: seq<nat>, j: nat)
    requires Safe(q, others, hosts) && j < |hosts| && Selected(q, q.endpoints[j]).None?
    ensures Spare(q, others, |hosts|, hosts[j])
  {
    forall i | 0 <= i < |hosts| ensures Selected(q, q.endpoints[i]) != Some(hosts[j]) {
      assert i == j || hosts[i] != hosts[j];
    }
  }

  lemma {:induction false} HostsPrefix(q: Request, others: set<nat>, m: nat, n: nat)
    requires m <= n <= |q.endpoints| && Hosts(q, others, n).Some?
    ensures Hosts(q, others, m).Some? && Hosts(q, others, m).value == Hosts(q, others, n).value[..m]
    decreases n
  {
    var hosts := Hosts(q, others, n).value;
    if m == n {
      assert hosts[..n] == hosts;
    } else {
      HostsPrefix(q, others, m, n - 1);
      assert hosts[..n - 1] == Hosts(q, others, n - 1).value;
      assert hosts[..n - 1][..m] == hosts[..m];
    }
  }

  /** A port that is selected later was passed over by the new endpoints before. */
  lemma {:induction false} PassedOver(q: Request, others: set<nat>, n: nat, j: nat, i: nat)
    requires j < i < n <= |q.endpoints| && Hosts(q, others, n).Some?
    requires Selected(q, q.endpoints[j]).None? && Selected(q, q.endpoints[i]).Some?
    requires InPool(q, Selected(q, q.endpoints[i]).value)
    ensures Hosts(q, others, n).value[j] < Selected(q, q.endpoints[i]).value
  {
    AllocationIsSafe(q, others, n);
    HostsPrefix(q, others, j + 1, n);
    var hosts, p := Hosts(q, others, n).value, Selected(q, q.endpoints[i]).value;
    assert hosts[i] == p && hosts[j] != p;
    var before := Hosts(q, others, j + 1).value[..j];
    forall k | 0 <= k < |before| ensures before[k] != p {
      assert before[k] == hosts[k] && hosts[k] != hosts[i];
    }
    if p < hosts[j] {
      NewGetsLeast(q, others, j, p);
    }
  }

  lemma ServedMeansUnreached(q: Request, others: set<nat>, n: nat, i: nat)
    requires i < n <= |q.endpoints| && Hosts(q, others, n).Some?
    ensures Unreached(q, others, n, i)
  {
    AllocationIsSafe(q, others, n);
    var hosts, selected := Hosts(q, others, n).value, Selected(q, q.endpoints[i]);
    if selected.Some? && InPool(q, selected.value) {
      var ports := NewHosts(q, hosts, i);
      forall p | p in ports ensures Spare(q, others, n, p) && p < selected.value {
        NewHostsHas(q, hosts, i, p);
        var j :| 0 <= j < i && Selected(q, q.endpoints[j]).None? && hosts[j] == p;
        NewHostIsSpare(q, others, hosts, j);
        PassedOver(q, others, n, j, i);
      }
      SpareCounts(q, others, n, selected.value, ports);
      NewHostsCount(q, others, hosts, i);
    }
  }

  lemma ServedMeansEnough(q: Request, others: set<nat>, n: nat)
    requires n <= |q.endpoints| && Hosts(q, others, n).Some?
    ensures SpareBelow(q, others, n, q.last + 1) >= New(q, n)
  {
    AllocationIsSafe(q, others, n);
    var hosts := Hosts(q, others, n).value;
    forall p | p in NewHosts(q, hosts, n) ensures Spare(q, others, n, p) && p < q.last + 1 {
      NewHostsHas(q, hosts, n, p);
      var j :| 0 <= j < n && Selected(q, q.endpoints[j]).None? && hosts[j] == p;
      NewHostIsSpare(q, others, hosts, j);
    }
    SpareCounts(q, others, n, q.last + 1, NewHosts(q, hosts, n));
    NewHostsCount(q, others, hosts, n);
  }

  // ----- The main result

  /** For every request: the endpoints are all served if and only if the selected hosts are free and different, the
      pool has a spare port for every new endpoint, and for each selected port of the pool the spare ports below it
      suffice for the new endpoints that come before it. */
  lemma ServedExactly(q: Request, others: set<nat>, n: nat)
    requires n <= |q.endpoints|
    ensures Hosts(q, others, n).Some? <==> CanServe(q, others, n)
  {
    if CanServe(q, others, n) {
      ServesAll(q, others, n, n);
    }
    if Hosts(q, others, n).Some? {
      AllocationIsSafe(q, others, n);
      ServedMeansEnough(q, others, n);
      forall i | 0 <= i < n ensures Unreached(q, others, n, i) {
        ServedMeansUnreached(q, others, n, i);
      }
    }
  }

  /** No endpoint with a selected port of the pool comes after a new one. */
  predicate NewComeLast(q: Request, n: nat)
    requires n <= |q.endpoints|
  {
    forall i | 0 <= i < n && Selected(q, q.endpoints[i]).Some? && InPool(q, Selected(q, q.endpoints[i]).value) ::
      New(q, i) == 0
  }

  /** Then only the number of spare ports matters. */
  lemma NewLastServed(q: Request, others: set<nat>, n: nat)
    requires n <= |q.endpoints| && NewComeLast(q, n)
    ensures Hosts(q, others, n).Some? <==>
              SelectedFit(q, others, n) && SpareBelow(q, others, n, q.last + 1) >= New(q, n)
  {
    ServedExactly(q, others, n);
  }

  lemma {:induction false} AllNew(q: Request, n: nat)
    requires n <= |q.endpoints| && forall i | 0 <= i < n :: Selected(q, q.endpoints[i]).None?
    ensures New(q, n) == n
    decreases n
  {
    if n > 0 {
      AllNew(q, n - 1);
    }
  }

  /** A fresh room, with nothing selected, is served exactly if the pool has a free port for each endpoint. */
  lemma FreshRoomServed(q: Request, others: set<nat>)
    requires forall i | 0 <= i < |q.endpoints| :: Selected(q, q.endpoints[i]).None?
    ensures Hosts(q, others, |q.endpoints|).Some? <==> FreeBelow(q, others, q.last + 1) >= |q.endpoints|
  {
    AllNew(q, |q.endpoints|);
    ServedExactly(q, others, |q.endpoints|);
    FreshSpare(q, others, q.last + 1);
  }

  /** How many free ports the pool has below `x`. */
  function FreeBelow(q: Request, others: set<nat>, x: nat): nat
    decreases x
  {
    if x <= q.first then 0
    else FreeBelow(q, others, x - 1) + (if InPool(q, x - 1) && Free(q, others, x - 1) then 1 else 0)
  }

  lemma {:induction false} FreshSpare(q: Request, others: set<nat>, x: nat)
    requires forall i | 0 <= i < |q.endpoints| :: Selected(q, q.endpoints[i]).None?
    ensures SpareBelow(q, others, |q.endpoints|, x) == FreeBelow(q, others, x)
    decreases x
  {
    if x > q.first {
      FreshSpare(q, others, x - 1);
    }
  }

  lemma {:induction false} NoneNew(q: Request, n: nat)
    requires n <= |q.endpoints| && forall i | 0 <= i < n :: Selected(q, q.endpoints[i]).Some?
    ensures New(q, n) == 0
    decreases n
  {
    if n > 0 {
      NoneNew(q, n - 1);
    }
  }

  /** Without new endpoints only the selected hosts matter. */
  lemma SelectedSucceeds(q: Request, others: set<nat>, n: nat)
    requires n <= |q.endpoints| && forall i | 0 <= i < n :: Selected(q, q.endpoints[i]).Some?
    ensures Hosts(q, others, n).Some? <==> SelectedFit(q, others, n)
  {
    ServedExactly(q, others, n);
    forall i | 0 <= i <= n ensures New(q, i) == 0 {
      NoneNew(q, i);
    }
  }
}
