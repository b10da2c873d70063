/** The event loop of traffic_gen/traffic_gen.py, which generates the flows.

    Every host has at most one arrival on the heap. The earliest becomes a flow and makes room for the host's
    next one; if that would be past the end, both are dropped. */
module TrafficGen {

  // A line of the flow file.
  datatype Flow = Flow(src: nat, dst: nat, pg: nat, dport: nat, size: int, t: real)

  // An entry of the heap: the next arrival at a host.
  datatype Arrival = Arrival(t: int, src: nat)

  // The random choices of one round: the time to the next arrival, the destinations that are tried until
  // one is not the source, and the size.
  datatype Choice = Choice(inter: nat, tries: seq<nat>, size: int)

  // What a round makes of them.
  datatype Draw = Draw(inter: nat, dst: nat, size: int)

  // The first destination that is not the source; without one there is no end to the trying.
  function Tries(tries: seq<nat>, src: nat): (k: nat)
    ensures k <= |tries| && (k < |tries| ==> tries[k] != src) && forall j :: 0 <= j < k ==> tries[j] == src
  {
    if tries == [] || tries[0] != src then 0 else Tries(tries[1..], src) + 1
  }

  // Tuples are compared by time, then by host.
  predicate Before(a: Arrival, b: Arrival) {
    a.t < b.t || (a.t == b.t && a.src <= b.src)
  }

  ghost predicate IsFirst(heap: set<Arrival>, a: Arrival) {
    a in heap && forall b :: b in heap ==> Before(a, b)
  }

  lemma {:induction false} HasFirst(heap: set<Arrival>)
    requires heap != {}
    ensures exists a :: IsFirst(heap, a)
  {
    var x :| x in heap;
    if heap - {x} == {} {
      assert heap == {x};
      assert IsFirst(heap, x);
    } else {
      HasFirst(heap - {x});
      var a :| IsFirst(heap - {x}, a);
      assert forall b :: b in heap <==> b in heap - {x} || b == x;
      if Before(x, a) {
        assert IsFirst(heap, x);
      } else {
        assert IsFirst(heap, a);
      }
    }
  }

  // Nanoseconds to seconds.
  function Seconds(t: int): real {
    t as real * 0.000000001
  }

  function FlowAt(src: nat, d: Draw, t: int): Flow {
    Flow(src, d.dst, 3, 100, if d.size <= 0 then 1 else d.size, Seconds(t))
  }

  ghost predicate InOrder(flows: seq<Flow>) {
    forall i, j :: 0 <= i < j < |flows| ==> flows[i].t <= flows[j].t
  }

  // A flow of host src at this time may follow f: it is later, or at the same time and from no lower host.
  ghost predicate MayFollow(f: Flow, t: real, src: nat) {
    f.t < t || (f.t == t && f.src <= src)
  }

  // Flows at the same time are in the order of their hosts.
  ghost predicate InTurn(flows: seq<Flow>) {
    forall i, j :: 0 <= i < j < |flows| ==> MayFollow(flows[i], flows[j].t, flows[j].src)
  }

  // ----- A host on its own -----

  // The arrival that follows the arrivals of the draws.
  function After(t: int, draws: seq<Draw>): int {
    if draws == [] then t else After(t, draws[..|draws| - 1]) + draws[|draws| - 1].inter
  }

  // The flows a host sends whose first arrival is at t: an arrival counts if the next is not past the end.
  function HostFlows(src: nat, t: int, draws: seq<Draw>, end: int): seq<Flow> {
    if draws == [] then []
    else
      var d, earlier := draws[|draws| - 1], draws[..|draws| - 1];
      HostFlows(src, t, earlier, end) + if After(t, draws) > end then [] else [FlowAt(src, d, After(t, earlier))]
  }

  // The flows of one host among those of all, and its draws.
  function FlowsOf(flows: seq<Flow>, src: nat): seq<Flow> {
    if flows == [] then []
    else
      var f := flows[|flows| - 1];
      FlowsOf(flows[..|flows| - 1], src) + if f.src == src then [f] else []
  }

  function DrawsOf(draws: seq<Draw>, owners: seq<nat>, src: nat): seq<Draw>
    requires |draws| == |owners|
  {
    if draws == [] then []
    else
      var n := |draws| - 1;
      DrawsOf(draws[..n], owners[..n], src) + if owners[n] == src then [draws[n]] else []
  }

  // ----- The event loop -----

  ghost predicate Known(hosts: set<Arrival>, src: nat) {
    exists h :: h in hosts && h.src == src
  }

  ghost predicate OneEach(heap: set<Arrival>) {
    forall a, b :: a in heap && b in heap && a.src == b.src ==> a == b
  }

  // A host has sent what it would send alone, and waits where it would.
  ghost predicate HostKept(start: Arrival, heap: set<Arrival>, draws: seq<Draw>, owners: seq<nat>, flows: seq<Flow>,
                           end: int)
    requires |draws| == |owners|
  {
    var own := DrawsOf(draws, owners, start.src);
    && FlowsOf(flows, start.src) == HostFlows(start.src, start.t, own, end)
    && (forall a :: a in heap && a.src == start.src ==> a.t == After(start.t, own))
    && ((forall a :: a in heap ==> a.src != start.src) ==> After(start.t, own) > end)
  }

  ghost predicate Emitting(hosts: set<Arrival>, heap: set<Arrival>, draws: seq<Draw>, owners: seq<nat>,
                           flows: seq<Flow>, end: int) {
    && |draws| == |owners| && OneEach(hosts) && OneEach(heap)
    && (forall a :: a in heap ==> Known(hosts, a.src)) && (forall i :: 0 <= i < |flows| ==> Known(hosts, flows[i].src))
    && (forall h :: h in hosts ==> HostKept(h, heap, draws, owners, flows, end))
    && InTurn(flows) && (forall i, a :: 0 <= i < |flows| && a in heap ==> MayFollow(flows[i], Seconds(a.t), a.src))
    && (forall i :: 0 <= i < |flows| ==> flows[i].t <= Seconds(end) && flows[i].size >= 1)
  }

  // The heap and the flows after a round for a.
  function Heap(heap: set<Arrival>, a: Arrival, d: Draw, end: int): set<Arrival> {
    if a.t + d.inter > end then heap - {a} else heap - {a} + {Arrival(a.t + d.inter, a.src)}
  }

  function Sent(flows: seq<Flow>, a: Arrival, d: Draw, end: int): seq<Flow> {
    if a.t + d.inter > end then flows else flows + [FlowAt(a.src, d, a.t)]
  }

  // A round for the host of the first arrival: it sends a flow and waits on, or it is done.
  lemma RoundKeepsHost(h: Arrival, heap: set<Arrival>, draws: seq<Draw>, owners: seq<nat>, flows: seq<Flow>,
                       end: int, a: Arrival, d: Draw)
    requires |draws| == |owners| && HostKept(h, heap, draws, owners, flows, end) && OneEach(heap) && a in heap
    ensures HostKept(h, Heap(heap, a, d, end), draws + [d], owners + [a.src], Sent(flows, a, d, end), end)
  {
    if h.src == a.src {
    } else {
      assert DrawsOf(draws, owners, h.src) + [] == DrawsOf(draws, owners, h.src);
      assert FlowsOf(flows, h.src) + [] == FlowsOf(flows, h.src);
      assert forall b: Arrival :: b.src == h.src ==> (b in heap <==> b in Heap(heap, a, d, end));
    }
  }

  lemma FirstIsEarliest(heap: set<Arrival>, a: Arrival, n: nat)
    requires IsFirst(heap, a)
    ensures forall b :: b in heap ==> Seconds(a.t) < Seconds(b.t) || (Seconds(a.t) == Seconds(b.t) && a.src <= b.src)
    ensures Seconds(a.t) <= Seconds(a.t + n)
  {
  }

  lemma RoundKeepsHeap(hosts: set<Arrival>, heap: set<Arrival>, a: Arrival, d: Draw, end: int)
    requires OneEach(heap) && a in heap && forall b :: b in heap ==> Known(hosts, b.src)
    ensures OneEach(Heap(heap, a, d, end))
    ensures forall b :: b in Heap(heap, a, d, end) ==> Known(hosts, b.src)
  {
  }

  lemma RoundKeepsOrder(heap: set<Arrival>, flows: seq<Flow>, a: Arrival, d: Draw, end: int)
    requires IsFirst(heap, a) && InTurn(flows)
    requires forall i, b :: 0 <= i < |flows| && b in heap ==> MayFollow(flows[i], Seconds(b.t), b.src)
    requires forall i :: 0 <= i < |flows| ==> flows[i].t <= Seconds(end) && flows[i].size >= 1
    ensures var flows', heap' := Sent(flows, a, d, end), Heap(heap, a, d, end);
            && InTurn(flows')
            && (forall i, b :: 0 <= i < |flows'| && b in heap' ==> MayFollow(flows'[i], Seconds(b.t), b.src))
            && forall i :: 0 <= i < |flows'| ==> flows'[i].t <= Seconds(end) && flows'[i].size >= 1
  {
    FirstIsEarliest(heap, a, d.inter);
    var next := Arrival(a.t + d.inter, a.src);
    assert Seconds(a.t) <= Seconds(next.t);
    assert forall b :: b in Heap(heap, a, d, end) ==> b in heap || b == next;
    if a.t + d.inter <= end {
      assert Seconds(a.t) <= Seconds(end);
    }
  }

  lemma RoundKeepsEmitting(hosts: set<Arrival>, heap: set<Arrival>, draws: seq<Draw>, owners: seq<nat>,
                           flows: seq<Flow>, end: int, a: Arrival, d: Draw)
    requires Emitting(hosts, heap, draws, owners, flows, end) && IsFirst(heap, a)
    ensures Emitting(hosts, Heap(heap, a, d, end), draws + [d], owners + [a.src], Sent(flows, a, d, end), end)
  {
    RoundKeepsHeap(hosts, heap, a, d, end);
    RoundKeepsOrder(heap, flows, a, d, end);
    forall h | h in hosts
      ensures HostKept(h, Heap(heap, a, d, end), draws + [d], owners + [a.src], Sent(flows, a, d, end), end)
    {
      RoundKeepsHost(h, heap, draws, owners, flows, end, a, d);
    }
  }

  function DrawFor(c: Choice, src: nat): Draw
    requires Tries(c.tries, src) < |c.tries|
  {
    Draw(c.inter, c.tries[Tries(c.tries, src)], c.size)
  }

  ghost predicate IsFirstOther(tries: seq<nat>, src: nat, k: nat) {
    k < |tries| && tries[k] != src && forall j :: 0 <= j < k ==> tries[j] == src
  }

  // A draw for a host has the time and the size that were chosen, and the first destination but the host itself.
  ghost predicate IsDraw(c: Choice, src: nat, d: Draw) {
    && d.inter == c.inter && d.size == c.size
    && exists k :: 0 <= k < |c.tries| && IsFirstOther(c.tries, src, k) && c.tries[k] == d.dst
  }

  // The draws of the rounds so far come from the choices, each for the host whose round it was.
  ghost predicate Made(choices: seq<Choice>, draws: seq<Draw>, owners: seq<nat>) {
    && |draws| == |owners| && |draws| <= |choices|
    && forall k :: 0 <= k < |draws| ==> IsDraw(choices[k], owners[k], draws[k])
  }

  // When round k of a host begins.
  function Arrives(t: int, draws: seq<Draw>, k: nat): int
    requires k <= |draws|
  {
    if k == 0 then t else Arrives(t, draws, k - 1) + draws[k - 1].inter
  }

  // Of the first n rounds of a host, just those whose next arrival is not past the end make a flow: from the host to
  // the destination of the round, of its size but at least 1, at the time of the arrival that the round begins with.
  ghost predicate SendsRounds(h: Arrival, draws: seq<Draw>, n: nat, flows: seq<Flow>, end: int) {
    |flows| <= n <= |draws| && forall k :: 0 <= k < n ==> SendsRound(h, draws, k, flows, end)
  }

  ghost predicate SendsRound(h: Arrival, draws: seq<Draw>, k: nat, flows: seq<Flow>, end: int)
    requires k < |draws|
  {
    && (k < |flows| <==> Arrives(h.t, draws, k) + draws[k].inter <= end)
    && (k < |flows| ==> RoundMakes(h, draws[k], Arrives(h.t, draws, k), flows[k]))
  }

  ghost predicate SendsAll(h: Arrival, draws: seq<Draw>, flows: seq<Flow>, end: int) {
    SendsRounds(h, draws, |draws|, flows, end)
  }

  ghost predicate RoundMakes(h: Arrival, d: Draw, t: int, f: Flow) {
    && f.src == h.src && f.dst == d.dst && f.pg == 3 && f.dport == 100
    && (d.size >= 1 ==> f.size == d.size) && (d.size < 1 ==> f.size == 1)
    && f.t == t as real * 0.000000001
  }

  lemma FlowAtIsMade(h: Arrival, d: Draw, t: int)
    ensures RoundMakes(h, d, t, FlowAt(h.src, d, t))
  {
  }

  lemma {:induction false} ArrivesIsAfter(t: int, draws: seq<Draw>, n: nat)
    requires n <= |draws|
    ensures Arrives(t, draws, n) == After(t, draws[..n])
  {
    if n > 0 {
      ArrivesIsAfter(t, draws, n - 1);
      assert draws[..n][..n - 1] == draws[..n - 1];
    }
  }

  lemma NextRound(h: Arrival, draws: seq<Draw>, n: nat, flows: seq<Flow>, end: int)
    requires n < |draws| && SendsRounds(h, draws, n, flows, end)
    ensures var t := Arrives(h.t, draws, n);
            var last := if t + draws[n].inter > end then [] else [FlowAt(h.src, draws[n], t)];
            SendsRounds(h, draws, n + 1, flows + last, end)
  {
    var t := Arrives(h.t, draws, n);
    if t + draws[n].inter > end {
      assert flows + [] == flows;
    } else {
      var last := FlowAt(h.src, draws[n], t);
      NoneAfterTheEnd(h, draws, n, flows, end);
      FlowAtIsMade(h, draws[n], t);
      forall k | 0 <= k < n
        ensures SendsRound(h, draws, k, flows + [last], end)
      {
        assert SendsRound(h, draws, k, flows, end) && (flows + [last])[k] == flows[k];
      }
    }
  }

  lemma {:induction false} HostSendsRounds(h: Arrival, draws: seq<Draw>, n: nat, end: int)
    requires n <= |draws|
    ensures SendsRounds(h, draws, n, HostFlows(h.src, h.t, draws[..n], end), end)
  {
    if n > 0 {
      HostSendsRounds(h, draws, n - 1, end);
      ArrivesIsAfter(h.t, draws, n);
      ArrivesIsAfter(h.t, draws, n - 1);
      assert draws[..n][..n - 1] == draws[..n - 1] && draws[..n][n - 1] == draws[n - 1];
      NextRound(h, draws, n - 1, HostFlows(h.src, h.t, draws[..n - 1], end), end);
    }
  }

  // If the next round is in time, so were all before it.
  lemma NoneAfterTheEnd(h: Arrival, draws: seq<Draw>, n: nat, flows: seq<Flow>, end: int)
    requires n < |draws| && SendsRounds(h, draws, n, flows, end)
    requires Arrives(h.t, draws, n) + draws[n].inter <= end
    ensures |flows| == n
  {
    if n > 0 {
      assert SendsRound(h, draws, n - 1, flows, end);
      assert Arrives(h.t, draws, n) == Arrives(h.t, draws, n - 1) + draws[n - 1].inter;
    }
  }

  ghost predicate NoLoops(flows: seq<Flow>) {
    forall i :: 0 <= i < |flows| ==> flows[i].dst != flows[i].src
  }

  // Flows come out in order of time, and of hosts at the same time, and not past the end; those of each host are
  // just what it would send on its own with the draws made for it.
  ghost predicate Interleaved(hosts: set<Arrival>, draws: seq<Draw>, owners: seq<nat>, flows: seq<Flow>, end: int) {
    && |draws| == |owners| && InOrder(flows) && InTurn(flows) && NoLoops(flows)
    && (forall i :: 0 <= i < |flows| ==> flows[i].t <= Seconds(end) && flows[i].size >= 1)
    && (forall i :: 0 <= i < |flows| ==> Known(hosts, flows[i].src))
    && forall h :: h in hosts ==> SendsAll(h, DrawsOf(draws, owners, h.src), FlowsOf(flows, h.src), end)
  }

  // Every host has come to an arrival past the end.
  ghost predicate AllPast(hosts: set<Arrival>, draws: seq<Draw>, owners: seq<nat>, end: int)
    requires |draws| == |owners|
  {
    forall h :: h in hosts ==>
      var own := DrawsOf(draws, owners, h.src);
      Arrives(h.t, own, |own|) > end
  }

  lemma EmittedAll(hosts: set<Arrival>, heap: set<Arrival>, draws: seq<Draw>, owners: seq<nat>, flows: seq<Flow>,
                   end: int)
    requires Emitting(hosts, heap, draws, owners, flows, end) && NoLoops(flows)
    ensures Interleaved(hosts, draws, owners, flows, end)
    ensures heap == {} ==> AllPast(hosts, draws, owners, end)
  {
    forall h | h in hosts
      ensures var own := DrawsOf(draws, owners, h.src);
              && SendsAll(h, own, FlowsOf(flows, h.src), end)
              && (heap == {} ==> Arrives(h.t, own, |own|) > end)
    {
      assert HostKept(h, heap, draws, owners, flows, end);
      var own := DrawsOf(draws, owners, h.src);
      HostSendsRounds(h, own, |own|, end);
      ArrivesIsAfter(h.t, own, |own|);
      assert own[..|own|] == own;
    }
  }

  // The choices have run out, or the next one never comes to another destination.
  ghost predicate OutOfChoices(choices: seq<Choice>, n: nat) {
    n < |choices| ==> exists src :: Tries(choices[n].tries, src) == |choices[n].tries|
  }

  lemma MadeMore(choices: seq<Choice>, draws: seq<Draw>, owners: seq<nat>, d: Draw, src: nat)
    requires Made(choices, draws, owners) && |draws| < |choices|
    requires var c := choices[|draws|];
             Tries(c.tries, src) < |c.tries| && d == DrawFor(c, src)
    ensures Made(choices, draws + [d], owners + [src])
  {
    var c := choices[|draws|];
    assert IsFirstOther(c.tries, src, Tries(c.tries, src)) && IsDraw(c, src, d);
  }

  method FirstOf(heap: set<Arrival>) returns (a: Arrival)
    requires heap != {}
    ensures IsFirst(heap, a)
  {
    HasFirst(heap);
    a :| a in heap && forall b :: b in heap ==> Before(a, b);
  }

  // The host of the first arrival sends a flow and waits for its next, or has come to the end.
  method TakeTurn(heap: set<Arrival>, flows: seq<Flow>, nFlow: nat, a: Arrival, d: Draw, end: int)
    returns (heap': set<Arrival>, flows': seq<Flow>, nFlow': nat)
    requires nFlow == |flows| && d.dst != a.src
    ensures heap' == Heap(heap, a, d, end) && flows' == Sent(flows, a, d, end) && nFlow' == |flows'|
    ensures NoLoops(flows) ==> NoLoops(flows')
  {
    if a.t + d.inter > end {
      return heap - {a}, flows, nFlow;
    }
    return heap - {a} + {Arrival(a.t + d.inter, a.src)}, flows + [FlowAt(a.src, d, a.t)], nFlow + 1;
  }

  /** The loop over the heap, for as long as the choices last. */
  method EmitFlows(hosts: set<Arrival>, choices: seq<Choice>, end: int)
    returns (flows: seq<Flow>, nFlow: nat, heap: set<Arrival>, ghost draws: seq<Draw>, ghost owners: seq<nat>)
    requires OneEach(hosts)
    ensures Made(choices, draws, owners) && Interleaved(hosts, draws, owners, flows, end) && nFlow == |flows|
    ensures if heap == {} then AllPast(hosts, draws, owners, end) else OutOfChoices(choices, |draws|)
  {
    flows, nFlow, heap, draws, owners := [], 0, hosts, [], [];
    var k := 0;
    while heap != {} && k < |choices|
      invariant Emitting(hosts, heap, draws, owners, flows, end) && Made(choices, draws, owners) && NoLoops(flows)
      invariant k == |draws| && nFlow == |flows|
      decreases |choices| - k
    {
      var a := FirstOf(heap);
      if Tries(choices[k].tries, a.src) == |choices[k].tries| {
        break;
      }
      var d := DrawFor(choices[k], a.src);
      RoundKeepsEmitting(hosts, heap, draws, owners, flows, end, a, d);
      MadeMore(choices, draws, owners, d, a.src);
      draws, owners := draws + [d], owners + [a.src];
      heap, flows, nFlow := TakeTurn(heap, flows, nFlow, a, d, end);
      k := k + 1;
    }
    EmittedAll(hosts, heap, draws, owners, flows, end);
  }
}
