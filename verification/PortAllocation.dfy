/** Choosing the UDP host ports of a room's endpoints. */
module PortAllocation {
  import opened Options

  datatype Protocol = Udp | Tcp

  datatype Mapping = Mapping(host: nat, container: nat, protocol: Protocol)

  /** What the choice depends on: the container ports to publish in order, the explicit requests, the room's own
      earlier mappings, the pool, and which ports the host can bind, a fixed predicate while the lock is held. */
  datatype Request = Request(
    endpoints: seq<nat>,
    explicit: map<nat, nat>,
    earlier: map<nat, nat>,
    first: nat,
    last: nat,
    available: nat -> bool)

  // ----- Explicit requests

  predicate Acceptable(m: Mapping, containers: set<nat>) {
    m.host >= 1024 && m.container >= 1024 && m.protocol.Udp? && m.container in containers
  }

  method CollectExplicit(requested: seq<Mapping>, containers: set<nat>) returns (r: Option<map<nat, nat>>)
    ensures r.Some? <==>
              && (forall i | 0 <= i < |requested| ::
                    && requested[i].host >= 1024 && requested[i].container >= 1024
                    && requested[i].protocol.Udp? && requested[i].container in containers)
              && (forall i, j | 0 <= i < j < |requested| :: requested[i].container != requested[j].container)
    ensures r.Some? ==> r.value.Keys <= containers
    ensures r.Some? ==> forall c | c in r.value :: exists i | 0 <= i < |requested| :: requested[i].container == c
    ensures r.Some? ==> forall i | 0 <= i < |requested| ::
              requested[i].container in r.value && r.value[requested[i].container] == requested[i].host
  {
    var explicit: map<nat, nat> := map[];
    for i := 0 to |requested|
      invariant forall j | 0 <= j < i :: Acceptable(requested[j], containers)
      invariant forall j, k | 0 <= j < k < i :: requested[j].container != requested[k].container
      invariant explicit.Keys <= containers
      invariant forall j | 0 <= j < i ::
                  requested[j].container in explicit && explicit[requested[j].container] == requested[j].host
      invariant forall c | c in explicit :: exists j | 0 <= j < i :: requested[j].container == c
    {
      var m := requested[i];
      if !Acceptable(m, containers) || m.container in explicit {
        return None;
      }
      explicit := explicit[m.container := m.host];
    }
    return Some(explicit);
  }

  // ----- The reference: every search starts at the beginning of the pool

  function Owned(q: Request): set<nat> {
    set c | c in q.earlier :: q.earlier[c]
  }

  predicate Bindable(q: Request, host: nat) {
    host in Owned(q) || q.available(host)
  }

  predicate Free(q: Request, occupied: set<nat>, host: nat) {
    host !in occupied && Bindable(q, host)
  }

  /** An explicit request wins; otherwise the endpoint keeps its earlier host port. */
  function Selected(q: Request, container: nat): Option<nat> {
    if container in q.explicit then Some(q.explicit[container])
    else if container in q.earlier then Some(q.earlier[container])
    else None
  }

  function LeastFree(q: Request, occupied: set<nat>, from: nat): (r: Option<nat>)
    ensures r.Some? ==> from <= r.value <= q.last && Free(q, occupied, r.value)
    ensures r.Some? ==> forall p: nat | from <= p < r.value :: !Free(q, occupied, p)
    ensures r.None? ==> forall p: nat | from <= p <= q.last :: !Free(q, occupied, p)
    decreases q.last + 1 - from
  {
    if from > q.last then None
    else if Free(q, occupied, from) then Some(from)
    else LeastFree(q, occupied, from + 1)
  }

  function Choose(q: Request, occupied: set<nat>, container: nat): Option<nat> {
    var selected := Selected(q, container);
    if selected.Some? then (if Free(q, occupied, selected.value) then selected else None)
    else LeastFree(q, occupied, q.first)
  }

  /** The hosts of the first `n` endpoints. */
  function Hosts(q: Request, occupied: set<nat>, n: nat): (r: Option<seq<nat>>)
    requires n <= |q.endpoints|
    ensures r.Some? ==> |r.value| == n
  {
    if n == 0 then Some([])
    else
      var earlier := Hosts(q, occupied, n - 1);
      if earlier.None? then None
      else
        var host := Choose(q, Taken(occupied, earlier.value), q.endpoints[n - 1]);
        if host.None? then None else Some(earlier.value + [host.value])
  }

  function Taken(occupied: set<nat>, hosts: seq<nat>): set<nat> {
    if hosts == [] then occupied else Taken(occupied, hosts[..|hosts| - 1]) + {hosts[|hosts| - 1]}
  }

  lemma TakenMore(occupied: set<nat>, hosts: seq<nat>, host: nat)
    ensures Taken(occupied, hosts + [host]) == Taken(occupied, hosts) + {host}
  {
    assert (hosts + [host])[..|hosts|] == hosts;
  }

  lemma {:induction false} TakenExactly(occupied: set<nat>, hosts: seq<nat>, h: nat)
    ensures h in Taken(occupied, hosts) <==> h in occupied || h in hosts
    decreases |hosts|
  {
    if hosts != [] {
      TakenExactly(occupied, hosts[..|hosts| - 1], h);
      assert hosts == hosts[..|hosts| - 1] + [hosts[|hosts| - 1]];
    }
  }

  // ----- The loop, with a cursor that only moves forward

  /** Every candidate before the cursor has failed, and so fails from now on: ports only become taken. */
  ghost predicate Passed(q: Request, occupied: set<nat>, cursor: nat) {
    q.first <= cursor && forall p: nat | q.first <= p < cursor :: !Free(q, occupied, p)
  }

  lemma StaysPassed(q: Request, occupied: set<nat>, cursor: nat, host: nat)
    requires Passed(q, occupied, cursor)
    ensures Passed(q, occupied + {host}, cursor)
  {
    forall p: nat | q.first <= p < cursor ensures !Free(q, occupied + {host}, p) {
      assert !Free(q, occupied, p);
    }
  }

  /** The pool iterator's search goes on from where the previous one ended. */
  method FindFree(q: Request, occupied: set<nat>, cursor: nat) returns (r: Option<nat>)
    requires Passed(q, occupied, cursor)
    ensures r == LeastFree(q, occupied, q.first)
    ensures r.Some? ==> Passed(q, occupied + {r.value}, r.value + 1)
  {
    SearchSplit(q, occupied, q.first, cursor);
    var candidate := cursor;
    while candidate <= q.last && !Free(q, occupied, candidate)
      invariant LeastFree(q, occupied, q.first) == LeastFree(q, occupied, candidate)
      invariant Passed(q, occupied, candidate)
      decreases q.last + 1 - candidate
    {
      candidate := candidate + 1;
    }
    if candidate > q.last {
      return None;
    }
    StaysPassed(q, occupied, candidate, candidate);
    return Some(candidate);
  }

  /** The host of one endpoint, and how far the pool has been searched. */
  method ChooseHost(q: Request, occupied: set<nat>, container: nat, cursor: nat) returns (r: Option<nat>, next: nat)
    requires Passed(q, occupied, cursor)
    ensures r == Choose(q, occupied, container)
    ensures r.Some? ==> Passed(q, occupied + {r.value}, next)
  {
    var selected := Selected(q, container);
    if selected.None? {
      r := FindFree(q, occupied, cursor);
      next := if r.Some? then r.value + 1 else cursor;
    } else if Free(q, occupied, selected.value) {
      r, next := selected, cursor;
      StaysPassed(q, occupied, cursor, selected.value);
    } else {
      r, next := None, cursor;
    }
  }

  /** The mappings of the first endpoints, in their order. */
  function Published(q: Request, hosts: seq<nat>): seq<Mapping>
    requires |hosts| <= |q.endpoints|
  {
    seq(|hosts|, i requires 0 <= i < |hosts| => Mapping(hosts[i], q.endpoints[i], Udp))
  }

  method Reserve(q: Request, others: set<nat>) returns (r: Option<seq<Mapping>>)
    ensures var hosts := Hosts(q, others, |q.endpoints|);
            && (r.Some? <==> hosts.Some?)
            && (r.Some? ==>
                  && |r.value| == |hosts.value| == |q.endpoints|
                  && forall i | 0 <= i < |r.value| ::
                       && r.value[i].host == hosts.value[i] && r.value[i].container == q.endpoints[i]
                       && r.value[i].protocol.Udp?)
  {
    var occupied := others;
    var mappings: seq<Mapping> := [];
    ghost var hosts: seq<nat> := [];
    var cursor: nat := q.first;
    for i := 0 to |q.endpoints|
      invariant Hosts(q, others, i) == Some(hosts) && mappings == Published(q, hosts)
      invariant occupied == Taken(others, hosts)
      invariant Passed(q, occupied, cursor)
    {
      var host;
      host, cursor := ChooseHost(q, occupied, q.endpoints[i], cursor);
      if host.None? {
        FailedEarly(q, others, i + 1);
        return None;
      }
      TakenMore(others, hosts, host.value);
      PublishedMore(q, hosts, host.value);
      occupied := occupied + {host.value};
      mappings := mappings + [Mapping(host.value, q.endpoints[i], Udp)];
      hosts := hosts + [host.value];
    }
    return Some(mappings);
  }

  lemma PublishedMore(q: Request, hosts: seq<nat>, host: nat)
    requires |hosts| < |q.endpoints|
    ensures Published(q, hosts + [host]) == Published(q, hosts) + [Mapping(host, q.endpoints[|hosts|], Udp)]
  {}

  /** Candidates that failed before can be skipped. */
  lemma {:induction false} SearchSplit(q: Request, occupied: set<nat>, from: nat, cursor: nat)
    requires from <= cursor
    requires forall p: nat | from <= p < cursor :: !Free(q, occupied, p)
    ensures LeastFree(q, occupied, from) == LeastFree(q, occupied, cursor)
    decreases cursor - from
  {
    if from < cursor {
      SearchSplit(q, occupied, from, cursor - 1);
    }
  }

  lemma {:induction false} FailedEarly(q: Request, others: set<nat>, n: nat)
    requires n <= |q.endpoints| && Hosts(q, others, n).None?
    ensures Hosts(q, others, |q.endpoints|).None?
    decreases |q.endpoints| - n
  {
    if n < |q.endpoints| {
      FailedEarly(q, others, n + 1);
    }
  }

  // ----- What a successful allocation promises

  /** One host for each endpoint: all different, none used by another room, each owned or bindable; an explicit
      request wins, otherwise the earlier host is kept, and a new endpoint gets a port of the pool. */
  ghost predicate Safe(q: Request, others: set<nat>, hosts: seq<nat>) {
    && |hosts| <= |q.endpoints|
    && (forall i, j | 0 <= i < j < |hosts| :: hosts[i] != hosts[j])
    && (forall i | 0 <= i < |hosts| ::
          && hosts[i] !in others
          && (q.available(hosts[i]) || exists c | c in q.earlier :: q.earlier[c] == hosts[i]))
    && (forall i | 0 <= i < |hosts| ::
          var container := q.endpoints[i];
          if container in q.explicit then hosts[i] == q.explicit[container]
          else if container in q.earlier then hosts[i] == q.earlier[container]
          else q.first <= hosts[i] <= q.last)
  }

  /** What the choice of a host goes by: the explicit request comes before the earlier host, and a host is free if
      nobody has it and the room had it before or it can be bound. */
  lemma ChoiceExactly(q: Request, occupied: set<nat>, container: nat, host: nat)
    ensures Selected(q, container) == Some(host) <==>
              || (container in q.explicit && q.explicit[container] == host)
              || (container !in q.explicit && container in q.earlier && q.earlier[container] == host)
    ensures Free(q, occupied, host) <==>
              host !in occupied && (q.available(host) || exists c | c in q.earlier :: q.earlier[c] == host)
  {}

  /** The last host of a successful allocation was chosen after the earlier ones. */
  lemma HostsLast(q: Request, others: set<nat>, n: nat)
    requires 0 < n <= |q.endpoints| && Hosts(q, others, n).Some?
    ensures Hosts(q, others, n - 1).Some?
    ensures var earlier := Hosts(q, others, n - 1).value;
            var host := Choose(q, Taken(others, earlier), q.endpoints[n - 1]);
            host.Some? && Hosts(q, others, n).value == earlier + [host.value]
  {}

  lemma {:induction false} AllocationIsSafe(q: Request, others: set<nat>, n: nat)
    requires n <= |q.endpoints| && Hosts(q, others, n).Some?
    ensures |Hosts(q, others, n).value| == n && Safe(q, others, Hosts(q, others, n).value)
    decreases n
  {
    if n > 0 {
      HostsLast(q, others, n);
      AllocationIsSafe(q, others, n - 1);
      var earlier := Hosts(q, others, n - 1).value;
      SafeMore(q, others, earlier, Choose(q, Taken(others, earlier), q.endpoints[n - 1]).value);
    }
  }

  lemma SafeMore(q: Request, others: set<nat>, hosts: seq<nat>, host: nat)
    requires Safe(q, others, hosts) && |hosts| < |q.endpoints|
    requires Choose(q, Taken(others, hosts), q.endpoints[|hosts|]) == Some(host)
    ensures Safe(q, others, hosts + [host])
  {
    ChoiceIsSafe(q, Taken(others, hosts), q.endpoints[|hosts|]);
    TakenExactly(others, hosts, host);
    assert forall i | 0 <= i < |hosts| :: hosts[i] in hosts;
  }

  lemma ChoiceIsSafe(q: Request, occupied: set<nat>, container: nat)
    requires Choose(q, occupied, container).Some?
    ensures var host, selected := Choose(q, occupied, container).value, Selected(q, container);
            && host !in occupied && Bindable(q, host)
            && (if selected.Some? then host == selected.value else q.first <= host <= q.last)
  {}

  /** A new endpoint gets the least port of the pool that is not taken by then. */
  lemma NewGetsLeast(q: Request, others: set<nat>, n: nat, p: nat)
    requires n < |q.endpoints| && Hosts(q, others, n + 1).Some? && Selected(q, q.endpoints[n]).None?
    requires q.first <= p < Hosts(q, others, n + 1).value[n] && Bindable(q, p)
    ensures p in others || p in Hosts(q, others, n + 1).value[..n]
  {
    HostsLast(q, others, n + 1);
    var earlier := Hosts(q, others, n).value;
    assert Hosts(q, others, n + 1).value[..n] == earlier;
    assert Choose(q, Taken(others, earlier), q.endpoints[n]) == Some(Hosts(q, others, n + 1).value[n]);
    assert !Free(q, Taken(others, earlier), p);
    TakenExactly(others, earlier, p);
  }

  /** A new endpoint before one that has a port of the pool. */
  function Growing(): Request {
    Request([2000, 2001], map[], map[2001 := 5000], 5000, 5001, _ => true)
  }

  /** With a new endpoint first, a redeployment can fail although a working choice exists: the new endpoint takes
      the port of the later one. */
  lemma NewCanTakeOwned()
    ensures Hosts(Growing(), {}, 2).None?
    ensures Selected(Growing(), 2001) == Some(5000) && Free(Growing(), {}, 5000) && Free(Growing(), {}, 5001)
  {
    var q := Growing();
    assert Taken({}, []) == {} && Hosts(q, {}, 0) == Some([]);
    assert Choose(q, Taken({}, []), 2000) == Some(5000);
    assert Hosts(q, {}, 1) == Some([] + [5000]);
    TakenMore({}, [], 5000);
    assert Choose(q, Taken({}, [] + [5000]), 2001) == None;
  }
}
