/** How simulation/scratch/third.cc starts the flows of its input file, and the ports it gives them. */
module FlowInput {
  import opened Common
  import opened TrafficGen

  datatype Pair = Pair(src: nat, dst: nat)

  // A client that is installed: its flow, its source port and the time.
  datatype Start = Start(flow: Flow, port: nat, time: real)

  const FIRST_PORT: nat := 10000
  const PORTS: nat := 0x1_0000

  function PairOf(f: Flow): Pair {
    Pair(f.src, f.dst)
  }

  // The flows of a pair.
  function Count(flows: seq<Flow>, p: Pair): nat {
    if flows == [] then 0
    else Count(flows[..|flows| - 1], p) + if PairOf(flows[|flows| - 1]) == p then 1 else 0
  }

  // The uint16_t counter of the pair when flow i is started.
  function PortOf(flows: seq<Flow>, i: nat): nat
    requires i < |flows|
  {
    (FIRST_PORT + Count(flows[..i], PairOf(flows[i]))) % PORTS
  }

  // Every one of the first n flows is started, at its start time.
  function Starts(flows: seq<Flow>, n: nat): (s: seq<Start>)
    requires n <= |flows|
    ensures |s| == n
    ensures forall i :: 0 <= i < n ==> s[i] == Start(flows[i], PortOf(flows, i), flows[i].t)
  {
    seq(n, i requires 0 <= i < n => Start(flows[i], PortOf(flows, i), flows[i].t))
  }

  lemma CountMore(flows: seq<Flow>, n: nat, p: Pair)
    requires n < |flows|
    ensures Count(flows[..n + 1], p) == Count(flows[..n], p) + if PairOf(flows[n]) == p then 1 else 0
  {
    assert flows[..n + 1][..n] == flows[..n];
  }

  // The counters when the first n flows are started.
  ghost predicate Counted(flows: seq<Flow>, n: nat, ports: map<Pair, nat>)
    requires n <= |flows|
  {
    && (forall i :: 0 <= i < |flows| ==> PairOf(flows[i]) in ports)
    && (forall p :: p in ports ==> ports[p] == (FIRST_PORT + Count(flows[..n], p)) % PORTS)
  }

  lemma NextPort(a: nat)
    ensures (a % PORTS + 1) % PORTS == (a + 1) % PORTS
  {
  }

  lemma CountedMore(flows: seq<Flow>, n: nat, ports: map<Pair, nat>)
    requires n < |flows| && Counted(flows, n, ports)
    ensures PairOf(flows[n]) in ports && ports[PairOf(flows[n])] == PortOf(flows, n)
    ensures var p := PairOf(flows[n]); Counted(flows, n + 1, ports[p := (ports[p] + 1) % PORTS])
  {
    var q := PairOf(flows[n]);
    var ports' := ports[q := (ports[q] + 1) % PORTS];
    forall p | p in ports'
      ensures ports'[p] == (FIRST_PORT + Count(flows[..n + 1], p)) % PORTS
    {
      CountMore(flows, n, p);
      NextPort(FIRST_PORT + Count(flows[..n], p));
    }
  }

  // The delay until flow n starts.
  function Due(flows: seq<Flow>, n: nat, now: real): Option<real> {
    if n < |flows| then Some(flows[n].t - now) else None
  }

  // The state when the first n flows are started.
  ghost predicate Kept(flows: seq<Flow>, n: nat, ports: map<Pair, nat>, started: seq<Start>) {
    n <= |flows| && started == Starts(flows, n) && Counted(flows, n, ports)
  }

  lemma KeptMore(flows: seq<Flow>, n: nat, ports: map<Pair, nat>, started: seq<Start>)
    requires n < |flows| && Kept(flows, n, ports, started)
    ensures var p := PairOf(flows[n]);
            && p in ports
            && Kept(flows, n + 1, ports[p := (ports[p] + 1) % PORTS],
                    started + [Start(flows[n], ports[p], flows[n].t)])
  {
    CountedMore(flows, n, ports);
    assert Starts(flows, n + 1) == Starts(flows, n) + [Start(flows[n], PortOf(flows, n), flows[n].t)];
  }

  // The flows from n up to m start at time t.
  ghost predicate AllAt(flows: seq<Flow>, n: nat, m: nat, t: real) {
    n <= m <= |flows| && forall i :: n <= i < m ==> flows[i].t == t
  }

  class Simulation {
    const flows: seq<Flow>
    var idx: nat
    var portNumber: map<Pair, nat>
    var now: real
    var started: seq<Start>

    // Every pair of the flows has a counter.
    constructor (flows: seq<Flow>, pairs: set<Pair>)
      requires forall i :: 0 <= i < |flows| ==> PairOf(flows[i]) in pairs
      ensures this.flows == flows && Valid() && idx == 0 && now == 0.0
    {
      this.flows, idx, now, started := flows, 0, 0.0, [];
      portNumber := map p | p in pairs :: FIRST_PORT;
    }

    ghost predicate Valid()
      reads this
    {
      Kept(flows, idx, portNumber, started)
    }

    // The flow that is due takes the port of its pair.
    method TakePort()
      requires Valid() && idx < |flows| && flows[idx].t == now
      modifies this`idx, this`portNumber, this`started
      ensures Valid() && idx == old(idx) + 1
    {
      KeptMore(flows, idx, portNumber, started);
      var p := PairOf(flows[idx]);
      started := started + [Start(flows[idx], portNumber[p], now)];
      portNumber := portNumber[p := (portNumber[p] + 1) % PORTS];
      idx := idx + 1;
    }

    // One event: the flows that start now, and the delay until the next event.
    method ScheduleFlowInputs() returns (delay: Option<real>)
      requires Valid()
      modifies this`idx, this`portNumber, this`started
      ensures Valid() && AllAt(flows, old(idx), idx, now)
      ensures delay == Due(flows, idx, now) && (idx < |flows| ==> flows[idx].t != now)
    {
      ghost var start := idx;
      while idx < |flows| && flows[idx].t == now
        invariant Valid() && AllAt(flows, old(idx), idx, now)
        decreases |flows| - idx
      {
        ghost var before := idx;
        TakePort();
        AllAtMore(flows, start, before, now);
      }
      return if idx < |flows| then Some(flows[idx].t - now) else None;
    }

    // The simulator's clock moves on to the event.
    method NextEvent(delay: real) returns (next: Option<real>)
      requires Valid() && InTime(flows, idx, now) && Due(flows, idx, now) == Some(delay) && delay >= 0.0
      modifies this
      ensures Valid() && InTime(flows, idx, now) && idx > old(idx) && next == Due(flows, idx, now)
    {
      ghost var before, was := idx, now;
      now := now + delay;
      next := ScheduleFlowInputs();
      InTimeUpTo(flows, before, idx, was, now);
    }

    /** All the events. The run comes to its end exactly when the flows are sorted from time zero on; otherwise
        an event would have to be scheduled in the past. At the end every flow is started once, in its turn. */
    method Run() returns (ended: bool)
      requires Valid() && idx == 0 && now == 0.0
      modifies this
      ensures Valid()
      ensures ended <==> Sorted(flows)
      ensures ended ==> started == Starts(flows, |flows|)
    {
      if flows == [] {
        return true;
      }
      var delay := Some(flows[0].t - now);
      while delay.Some?
        invariant Valid() && InTime(flows, idx, now)
        invariant delay == Due(flows, idx, now)
        decreases |flows| - idx
      {
        if delay.value < 0.0 {
          return false;
        }
        delay := NextEvent(delay.value);
      }
      return true;
    }
  }

  lemma AllAtMore(flows: seq<Flow>, n: nat, m: nat, t: real)
    requires AllAt(flows, n, m, t) && m < |flows| && flows[m].t == t
    ensures AllAt(flows, n, m + 1, t)
  {
  }

  // Flows up to n are sorted and the last of them started just now.
  ghost predicate InTime(flows: seq<Flow>, n: nat, now: real) {
    n <= |flows| && InOrder(flows[..n]) && if n == 0 then now == 0.0 else flows[0].t >= 0.0 && flows[n - 1].t == now
  }

  ghost predicate Sorted(flows: seq<Flow>) {
    InOrder(flows) && (flows != [] ==> flows[0].t >= 0.0)
  }

  lemma InTimeUpTo(flows: seq<Flow>, n: nat, m: nat, was: real, t: real)
    requires InTime(flows, n, was) && was <= t && n < m && AllAt(flows, n, m, t)
    ensures InTime(flows, m, t)
  {
  }

  // ----- Ports -----

  lemma {:induction false} CountGrows(flows: seq<Flow>, n: nat, m: nat, p: Pair)
    requires n <= m <= |flows|
    ensures Count(flows[..n], p) <= Count(flows[..m], p) <= Count(flows[..n], p) + (m - n)
  {
    if n < m {
      CountGrows(flows, n, m - 1, p);
      CountMore(flows, m - 1, p);
    }
  }

  // Somewhere among the flows of a pair is the one with k before it.
  lemma {:induction false} KthOfPair(flows: seq<Flow>, n: nat, p: Pair, k: nat) returns (i: nat)
    requires n <= |flows| && k < Count(flows[..n], p)
    ensures i < n && PairOf(flows[i]) == p && Count(flows[..i], p) == k
  {
    CountMore(flows, n - 1, p);
    if k < Count(flows[..n - 1], p) {
      i := KthOfPair(flows, n - 1, p, k);
    } else {
      i := n - 1;
    }
  }

  ghost predicate PortsDiffer(flows: seq<Flow>) {
    forall i, j :: 0 <= i < j < |flows| && PairOf(flows[i]) == PairOf(flows[j]) ==> PortOf(flows, i) != PortOf(flows, j)
  }

  ghost predicate AtMost(flows: seq<Flow>, n: nat) {
    forall p :: Count(flows, p) <= n
  }

  lemma Wraps(a: nat, b: nat)
    requires a < b < a + PORTS
    ensures (FIRST_PORT + a) % PORTS != (FIRST_PORT + b) % PORTS
  {
  }

  /** Flows of the same pair get different ports exactly when no pair has more than 65536 of them. */
  lemma PortsDifferIff(flows: seq<Flow>)
    ensures PortsDiffer(flows) <==> AtMost(flows, PORTS)
  {
    assert flows[..|flows|] == flows;
    if AtMost(flows, PORTS) {
      forall i, j | 0 <= i < j < |flows| && PairOf(flows[i]) == PairOf(flows[j])
        ensures PortOf(flows, i) != PortOf(flows, j)
      {
        var p := PairOf(flows[i]);
        CountMore(flows, i, p);
        CountGrows(flows, i + 1, j, p);
        CountMore(flows, j, p);
        CountGrows(flows, j + 1, |flows|, p);
        Wraps(Count(flows[..i], p), Count(flows[..j], p));
      }
    } else {
      var p :| Count(flows, p) > PORTS;
      var i := KthOfPair(flows, |flows|, p, 0);
      var j := KthOfPair(flows, |flows|, p, PORTS);
      if j <= i {
        CountGrows(flows, j, i, p);
      }
      assert PortOf(flows, i) == PortOf(flows, j);
    }
  }

  /** No flow gets a port below the first exactly when no pair has more than 55536 flows. */
  lemma PortsDoNotWrapIff(flows: seq<Flow>)
    ensures (forall i :: 0 <= i < |flows| ==> PortOf(flows, i) >= FIRST_PORT) <==> AtMost(flows, PORTS - FIRST_PORT)
  {
    assert flows[..|flows|] == flows;
    if AtMost(flows, PORTS - FIRST_PORT) {
      forall i | 0 <= i < |flows|
        ensures PortOf(flows, i) >= FIRST_PORT
      {
        var p := PairOf(flows[i]);
        CountMore(flows, i, p);
        CountGrows(flows, i + 1, |flows|, p);
      }
    } else {
      var p :| Count(flows, p) > PORTS - FIRST_PORT;
      var i := KthOfPair(flows, |flows|, p, PORTS - FIRST_PORT);
      assert PortOf(flows, i) == 0;
    }
  }

  // Flows of one pair.
  lemma {:induction false} CountAlike(flows: seq<Flow>, p: Pair)
    requires forall i :: 0 <= i < |flows| ==> PairOf(flows[i]) == p
    ensures Count(flows, p) == |flows|
  {
    if flows != [] {
      CountAlike(flows[..|flows| - 1], p);
    }
  }

  // One flow too many from host 0 to host 1: the last has the port of the first, and one has port 0.
  lemma ManyFlowsShareAPort(flows: seq<Flow>)
    requires |flows| == PORTS + 1 && forall i :: 0 <= i < |flows| ==> flows[i] == Flow(0, 1, 3, 100, 1000, 2.0)
    ensures PortOf(flows, 0) == PortOf(flows, PORTS) == FIRST_PORT
    ensures PortOf(flows, PORTS - FIRST_PORT) == 0
  {
    CountAlike(flows[..0], Pair(0, 1));
    CountAlike(flows[..PORTS], Pair(0, 1));
    CountAlike(flows[..PORTS - FIRST_PORT], Pair(0, 1));
  }
  // The first n flows that go from the same host to the same host as flow i.
  ghost function Alike(flows: seq<Flow>, i: nat, n: nat): set<int>
    requires n <= i < |flows|
  {
    set j | 0 <= j < n && flows[j].src == flows[i].src && flows[j].dst == flows[i].dst
  }

  lemma AlikeNext(flows: seq<Flow>, i: nat, n: nat)
    requires n < i < |flows|
    ensures |Alike(flows, i, n + 1)| == |Alike(flows, i, n)| + if PairOf(flows[n]) == PairOf(flows[i]) then 1 else 0
  {
    var fewer := Alike(flows, i, n);
    assert n !in fewer;
    assert Alike(flows, i, n + 1) == if PairOf(flows[n]) == PairOf(flows[i]) then fewer + {n} else fewer;
  }

  lemma {:induction false} CountIsNumber(flows: seq<Flow>, i: nat, n: nat)
    requires n <= i < |flows|
    ensures Count(flows[..n], PairOf(flows[i])) == |Alike(flows, i, n)|
  {
    if n > 0 {
      CountIsNumber(flows, i, n - 1);
      CountMore(flows, n - 1, PairOf(flows[i]));
      AlikeNext(flows, i, n - 1);
    } else {
      assert Alike(flows, i, 0) == {};
    }
  }

  /** Flow i gets port 10000, plus one for each flow before it from the same host to the same host, in 16 bits. */
  lemma PortIs(flows: seq<Flow>, i: nat)
    requires i < |flows|
    ensures PortOf(flows, i) == (10000 + |Alike(flows, i, i)|) % 0x1_0000
  {
    CountIsNumber(flows, i, i);
  }
}
