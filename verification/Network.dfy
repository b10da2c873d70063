/** The topology of the simulated data centre and its shortest host-to-node routes.

    This is what the routing of scratch/third.cc is meant to compute, stated without its search: a route goes
    over links that are up, passes switches only, and is shortest if no other has fewer links. The next hops of
    a node towards a host are its neighbours one link nearer to it. Delay, transmission time and bandwidth are
    those of a route as a whole. */
module Network {
  import opened Common

  datatype NodeId = NodeId(id: nat)

  // GetNodeType() is 0 for a host and 1 for a switch.
  datatype Kind = Host | Switch

  // One end of a link. delay and bw are 64-bit quantities in the program.
  datatype Interface = Interface(idx: nat, up: bool, delay: nat, bw: nat)

  type Links = map<NodeId, map<NodeId, Interface>>

  // payload is packet_payload_size, a 32-bit quantity.
  datatype Net = Net(kind: map<NodeId, Kind>, links: Links, payload: nat)

  const TWO_64: nat := 0x1_0000_0000_0000_0000

  predicate Up(links: Links, a: NodeId, b: NodeId) {
    a in links && b in links[a] && links[a][b].up
  }

  predicate IsSwitch(net: Net, n: NodeId) {
    n in net.kind && net.kind[n] == Switch
  }

  predicate IsHost(net: Net, n: NodeId) {
    n in net.kind && net.kind[n] == Host
  }

  // Links are set up in both directions at once, between known nodes, and have a bandwidth.
  ghost predicate WellFormed(net: Net) {
    && (forall a, b :: Up(net.links, a, b) ==>
          Up(net.links, b, a) && b in net.kind && 0 < net.links[a][b].bw < TWO_64)
  }

  // ----- Routes -----

  // A walk over links that are up.
  ghost predicate Linked(net: Net, p: seq<NodeId>) {
    forall i :: 0 <= i < |p| - 1 ==> Up(net.links, p[i], p[i + 1])
  }

  // Nothing but switches strictly between the two ends.
  ghost predicate TransitsSwitches(net: Net, p: seq<NodeId>) {
    forall i :: 0 < i < |p| - 1 ==> p[i] in net.kind && net.kind[p[i]] == Switch
  }

  ghost predicate Route(net: Net, host: NodeId, n: NodeId, p: seq<NodeId>) {
    |p| > 0 && p[0] == host && p[|p| - 1] == n && Linked(net, p) && TransitsSwitches(net, p)
  }

  ghost predicate Reached(net: Net, host: NodeId, n: NodeId) {
    exists p :: Route(net, host, n, p)
  }

  // d links are the least that take one from host to n.
  ghost predicate Dist(net: Net, host: NodeId, n: NodeId, d: nat) {
    && (exists p :: Route(net, host, n, p) && |p| == d + 1)
    && (forall p :: Route(net, host, n, p) ==> |p| > d)
  }

  // Routes go on through the host they start from and through switches only.
  predicate Relays(net: Net, host: NodeId, u: NodeId) {
    u == host || IsSwitch(net, u)
  }

  // u is a neighbour of n one step nearer to the host, from which the host can be reached.
  ghost predicate IsNextHop(net: Net, host: NodeId, n: NodeId, u: NodeId) {
    && Relays(net, host, u)
    && Up(net.links, u, n)
    && exists d: nat :: Dist(net, host, u, d) && Dist(net, host, n, d + 1)
  }

  // The equal-cost next hops of n towards host, each once.
  ghost predicate NextHopList(net: Net, host: NodeId, n: NodeId, hops: seq<NodeId>) {
    Distinct(hops) && forall u :: u in hops <==> IsNextHop(net, host, n, u)
  }

  lemma DistUnique(net: Net, host: NodeId, n: NodeId, d: nat, e: nat)
    requires Dist(net, host, n, d) && Dist(net, host, n, e)
    ensures d == e
  {
  }

  lemma RouteExtend(net: Net, host: NodeId, u: NodeId, n: NodeId, p: seq<NodeId>)
    requires Route(net, host, u, p) && Up(net.links, u, n)
    requires IsSwitch(net, u) || |p| == 1
    ensures Route(net, host, n, p + [n])
  {
    var q := p + [n];
    forall i | 0 <= i < |q| - 1
      ensures Up(net.links, q[i], q[i + 1])
    {
      if i < |p| - 1 {
        assert Up(net.links, p[i], p[i + 1]);
      }
    }
    forall i | 0 < i < |q| - 1
      ensures IsSwitch(net, q[i])
    {
      if i < |p| - 1 {
        assert IsSwitch(net, p[i]);
      }
    }
  }

  lemma RoutePrefix(net: Net, host: NodeId, n: NodeId, p: seq<NodeId>)
    requires Route(net, host, n, p) && |p| > 1
    ensures Route(net, host, p[|p| - 2], p[..|p| - 1])
    ensures Up(net.links, p[|p| - 2], n) && Relays(net, host, p[|p| - 2])
  {
    var q := p[..|p| - 1];
    assert Up(net.links, p[|p| - 2], p[|p| - 1]);
    forall i | 0 <= i < |q| - 1
      ensures Up(net.links, q[i], q[i + 1])
    {
      assert Up(net.links, p[i], p[i + 1]);
    }
  }

  // A node d + 1 links away has a next hop.
  lemma HasNextHop(net: Net, host: NodeId, n: NodeId, d: nat) returns (u: NodeId)
    requires Dist(net, host, n, d + 1)
    ensures IsNextHop(net, host, n, u) && Dist(net, host, u, d)
  {
    var p :| Route(net, host, n, p) && |p| == d + 2;
    u := p[d];
    RoutePrefix(net, host, n, p);
    forall r | Route(net, host, u, r)
      ensures |r| > d
    {
      if |r| == 1 || IsSwitch(net, u) {
        RouteExtend(net, host, u, n, r);
      }
    }
    assert Dist(net, host, u, d) && Dist(net, host, n, d + 1);
  }

  lemma DistZero(net: Net, host: NodeId, n: NodeId)
    ensures Dist(net, host, n, 0) <==> n == host
  {
    if n == host {
      assert Route(net, host, n, [n]);
    }
  }

  // ----- Quantities along a route -----

  // A link that is up, as its near end sees it.
  function LinkOf(net: Net, a: NodeId, b: NodeId): Interface {
    if Up(net.links, a, b) then net.links[a][b] else Interface(0, false, 0, 1)
  }

  // packet_payload_size * 1000000000lu * 8 / bw, in 64-bit arithmetic.
  function TxTime(payload: nat, bw: nat): nat
    requires bw > 0
  {
    payload * 1000000000 % TWO_64 * 8 % TWO_64 / bw
  }

  // Without overflow, TxTime is the time in nanoseconds that the payload takes at bw bits per second, rounded down.
  lemma TxTimeIsFloor(payload: nat, bw: nat)
    requires bw > 0
    ensures var bits := payload * 8 * 1000000000 % TWO_64;
            TxTime(payload, bw) * bw <= bits < (TxTime(payload, bw) + 1) * bw
  {
    var a := payload * 1000000000;
    TimesEight(a);
    var bits := a * 8 % TWO_64;
    assert payload * 8 * 1000000000 == a * 8;
    assert TxTime(payload, bw) == bits / bw;
    FloorOf(bits, bw);
  }

  lemma TimesEight(a: nat)
    ensures a % TWO_64 * 8 % TWO_64 == a * 8 % TWO_64
  {
    var q := a / TWO_64;
    assert a * 8 == a % TWO_64 * 8 + q * 8 * TWO_64;
  }

  lemma FloorOf(a: nat, b: nat)
    requires b > 0
    ensures a / b * b <= a < (a / b + 1) * b
  {
  }

  ghost function SumDelay(net: Net, p: seq<NodeId>): nat {
    if |p| <= 1 then 0
    else SumDelay(net, p[..|p| - 1]) + LinkOf(net, p[|p| - 2], p[|p| - 1]).delay
  }

  ghost function SumTx(net: Net, p: seq<NodeId>): nat
    requires WellFormed(net)
  {
    if |p| <= 1 then 0
    else SumTx(net, p[..|p| - 1]) + TxTime(net.payload, LinkOf(net, p[|p| - 2], p[|p| - 1]).bw)
  }

  function Min(a: nat, b: nat): nat {
    if b < a then b else a
  }

  // The narrowest link, or the largest 64-bit number for a route without links.
  ghost function Bottleneck(net: Net, p: seq<NodeId>): nat {
    if |p| <= 1 then TWO_64 - 1
    else Min(Bottleneck(net, p[..|p| - 1]), LinkOf(net, p[|p| - 2], p[|p| - 1]).bw)
  }

  ghost function BwAt(net: Net, p: seq<NodeId>, i: nat): nat
    requires i + 1 < |p|
  {
    LinkOf(net, p[i], p[i + 1]).bw
  }

  lemma {:induction false} BottleneckIsNarrowest(net: Net, p: seq<NodeId>)
    requires |p| > 1 && forall i :: 0 <= i < |p| - 1 ==> BwAt(net, p, i) < TWO_64
    ensures forall i :: 0 <= i < |p| - 1 ==> Bottleneck(net, p) <= BwAt(net, p, i)
    ensures exists i :: 0 <= i < |p| - 1 && Bottleneck(net, p) == BwAt(net, p, i)
  {
    var q := p[..|p| - 1];
    assert Bottleneck(net, p) == Min(Bottleneck(net, q), BwAt(net, p, |p| - 2));
    if |q| > 1 {
      assert forall i :: 0 <= i < |q| - 1 ==> BwAt(net, q, i) == BwAt(net, p, i);
      BottleneckIsNarrowest(net, q);
    }
  }
}
