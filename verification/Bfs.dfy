/** The invariants of the breadth-first search in CalculateRoute of scratch/third.cc. */
module Bfs {
  import opened Common
  import opened Network

  // The queue and distances of the search, a witness route for each distance,
  // and the directed links that have been looked at.
  datatype Search = Search(q: seq<NodeId>, dis: map<NodeId, nat>, wit: map<NodeId, seq<NodeId>>,
                           seen: set<(NodeId, NodeId)>)

  ghost predicate WitnessInv(net: Net, host: NodeId, s: Search) {
    && s.dis.Keys == s.wit.Keys
    && host in s.dis && s.dis[host] == 0
    && forall n :: n in s.dis ==> Route(net, host, n, s.wit[n]) && |s.wit[n]| == s.dis[n] + 1
  }

  // The queue holds what routes may pass through, in order of distance; position i is being served.
  ghost predicate QueueInv(net: Net, host: NodeId, s: Search, i: nat) {
    && Distinct(s.q) && |s.q| > 0
    && (forall n :: n in s.q <==> n in s.dis && Relays(net, host, n))
    && (forall j, k :: 0 <= j <= k < |s.q| ==> s.dis[s.q[j]] <= s.dis[s.q[k]])
    && (i < |s.q| ==> forall n :: n in s.dis ==> s.dis[n] <= s.dis[s.q[i]] + 1)
  }

  ghost predicate SeenInv(net: Net, host: NodeId, s: Search, i: nat) {
    && (forall u, v :: (u, v) in s.seen ==>
          u in s.dis && v in s.dis && Up(net.links, u, v) && Relays(net, host, u) && s.dis[v] <= s.dis[u] + 1)
    && (forall j, v :: 0 <= j < i && j < |s.q| && Up(net.links, s.q[j], v) ==> (s.q[j], v) in s.seen)
  }

  ghost predicate SearchInv(net: Net, host: NodeId, s: Search, i: nat) {
    WitnessInv(net, host, s) && QueueInv(net, host, s, i) && SeenInv(net, host, s, i)
  }

  ghost function Start(host: NodeId): Search {
    Search([host], map[host := 0], map[host := [host]], {})
  }

  // Looking at the link from the node being served to next.
  ghost function Visit(net: Net, s: Search, now: NodeId, next: NodeId): Search
    requires now in s.dis && now in s.wit
  {
    if next in s.dis then s.(seen := s.seen + {(now, next)})
    else Search(if IsSwitch(net, next) then s.q + [next] else s.q,
                s.dis[next := s.dis[now] + 1],
                s.wit[next := s.wit[now] + [next]],
                s.seen + {(now, next)})
  }

  lemma VisitWitness(net: Net, host: NodeId, s: Search, i: nat, next: NodeId)
    requires SearchInv(net, host, s, i) && i < |s.q| && Up(net.links, s.q[i], next)
    ensures s.q[i] in s.q && s.q[i] in s.dis
    ensures WitnessInv(net, host, Visit(net, s, s.q[i], next))
  {
    var now := s.q[i];
    assert now in s.q;
    RouteExtend(net, host, now, next, s.wit[now]);
  }

  lemma VisitQueue(net: Net, host: NodeId, s: Search, i: nat, next: NodeId)
    requires SearchInv(net, host, s, i) && i < |s.q| && s.q[i] in s.dis && s.q[i] in s.wit
    ensures QueueInv(net, host, Visit(net, s, s.q[i], next), i)
  {
    var now := s.q[i];
    var t := Visit(net, s, now, next);
    if next !in s.dis {
      assert next !in s.q && next != host;
      forall j, k | 0 <= j <= k < |t.q|
        ensures t.dis[t.q[j]] <= t.dis[t.q[k]]
      {
        assert t.q[j] in t.q && t.q[k] in t.q;
        if j < |s.q| {
          assert s.q[j] in s.q;
        }
        if k < |s.q| {
          assert s.q[k] in s.q;
        }
      }
    }
  }

  lemma VisitInv(net: Net, host: NodeId, s: Search, i: nat, next: NodeId)
    requires SearchInv(net, host, s, i) && i < |s.q| && Up(net.links, s.q[i], next)
    ensures s.q[i] in s.q && s.q[i] in s.dis
    ensures SearchInv(net, host, Visit(net, s, s.q[i], next), i)
  {
    VisitWitness(net, host, s, i, next);
    VisitQueue(net, host, s, i, next);
    VisitSeen(net, host, s, i, next);
  }

  lemma VisitSeen(net: Net, host: NodeId, s: Search, i: nat, next: NodeId)
    requires SearchInv(net, host, s, i) && i < |s.q| && Up(net.links, s.q[i], next)
    requires s.q[i] in s.q && s.q[i] in s.dis
    ensures SeenInv(net, host, Visit(net, s, s.q[i], next), i)
  {
    var now := s.q[i];
    var t := Visit(net, s, now, next);
    assert forall j :: 0 <= j < |s.q| ==> t.q[j] == s.q[j];
    assert t.dis[next] <= t.dis[now] + 1;
  }

  lemma ServeNextSeen(net: Net, host: NodeId, s: Search, i: nat)
    requires SeenInv(net, host, s, i) && i < |s.q|
    requires forall v :: Up(net.links, s.q[i], v) ==> (s.q[i], v) in s.seen
    ensures SeenInv(net, host, s, i + 1)
  {
  }

  lemma ServeNext(net: Net, host: NodeId, s: Search, i: nat)
    requires SearchInv(net, host, s, i) && i < |s.q|
    requires forall v :: Up(net.links, s.q[i], v) ==> (s.q[i], v) in s.seen
    ensures SearchInv(net, host, s, i + 1)
  {
    ServeNextSeen(net, host, s, i);
    if i + 1 < |s.q| {
      assert s.q[i] in s.q && s.q[i + 1] in s.q;
    }
  }

  // ----- What a finished search has found -----

  ghost predicate Finished(net: Net, host: NodeId, s: Search) {
    SearchInv(net, host, s, |s.q|)
  }

  lemma {:induction false} ReachesAll(net: Net, host: NodeId, s: Search, n: NodeId, p: seq<NodeId>)
    requires Finished(net, host, s) && Route(net, host, n, p)
    ensures n in s.dis && s.dis[n] <= |p| - 1
    decreases |p|
  {
    if |p| > 1 {
      RoutePrefix(net, host, n, p);
      var u := p[|p| - 2];
      ReachesAll(net, host, s, u, p[..|p| - 1]);
      assert u in s.q;
      var j :| 0 <= j < |s.q| && s.q[j] == u;
      assert (s.q[j], n) in s.seen;
    }
  }

  // The distances are exact, and defined only for what can be reached.
  lemma SearchIsExact(net: Net, host: NodeId, s: Search)
    requires Finished(net, host, s)
    ensures forall n :: n in s.dis <==> Reached(net, host, n)
    ensures forall n :: n in s.dis ==> Dist(net, host, n, s.dis[n])
  {
    forall n
      ensures n in s.dis <==> Reached(net, host, n)
      ensures n in s.dis ==> Dist(net, host, n, s.dis[n])
    {
      forall p | Route(net, host, n, p)
        ensures n in s.dis && s.dis[n] < |p|
      {
        ReachesAll(net, host, s, n, p);
      }
    }
  }

  // u was looked at as a neighbour of n and is one step nearer.
  ghost predicate Tight(s: Search, u: NodeId, n: NodeId) {
    (u, n) in s.seen && u in s.dis && n in s.dis && s.dis[u] + 1 == s.dis[n]
  }

  lemma TightIsNextHop(net: Net, host: NodeId, s: Search, u: NodeId, n: NodeId)
    requires Finished(net, host, s)
    ensures Tight(s, u, n) <==> IsNextHop(net, host, n, u)
  {
    SearchIsExact(net, host, s);
    if IsNextHop(net, host, n, u) {
      var d: nat :| Dist(net, host, u, d) && Dist(net, host, n, d + 1);
      var p :| Route(net, host, u, p) && |p| == d + 1;
      assert u in s.dis;
      DistUnique(net, host, u, d, s.dis[u]);
      var q :| Route(net, host, n, q) && |q| == d + 2;
      assert n in s.dis;
      DistUnique(net, host, n, d + 1, s.dis[n]);
      assert u in s.q;
      var j :| 0 <= j < |s.q| && s.q[j] == u;
      assert (s.q[j], n) in s.seen;
    }
  }

  // ----- The next hops recorded so far -----

  ghost function Added(added: map<NodeId, seq<NodeId>>, n: NodeId): seq<NodeId> {
    if n in added then added[n] else []
  }

  ghost predicate AddedInv(s: Search, added: map<NodeId, seq<NodeId>>) {
    forall n {:trigger Added(added, n)} ::
      Distinct(Added(added, n)) && forall u :: u in Added(added, n) <==> Tight(s, u, n)
  }

  // Looking at a link makes nothing tight but that link.
  lemma VisitTight(net: Net, host: NodeId, s: Search, i: nat, next: NodeId)
    requires SearchInv(net, host, s, i) && i < |s.q| && s.q[i] in s.dis && s.q[i] in s.wit
    requires (s.q[i], next) !in s.seen
    ensures var now := s.q[i];
            var t := Visit(net, s, now, next);
            && !Tight(s, now, next)
            && forall u, n :: Tight(t, u, n) <==> Tight(s, u, n) || (u == now && n == next && Tight(t, now, next))
  {
  }

  lemma VisitAdded(net: Net, host: NodeId, s: Search, i: nat, next: NodeId, added: map<NodeId, seq<NodeId>>,
                   added': map<NodeId, seq<NodeId>>)
    requires SearchInv(net, host, s, i) && i < |s.q| && s.q[i] in s.dis && s.q[i] in s.wit
    requires AddedInv(s, added) && (s.q[i], next) !in s.seen
    requires added' == if Tight(Visit(net, s, s.q[i], next), s.q[i], next)
                       then added[next := Added(added, next) + [s.q[i]]] else added
    ensures AddedInv(Visit(net, s, s.q[i], next), added')
  {
    var now := s.q[i];
    var t := Visit(net, s, now, next);
    VisitTight(net, host, s, i, next);
    forall n
      ensures Distinct(Added(added', n)) && forall u :: u in Added(added', n) <==> Tight(t, u, n)
    {
      assert Distinct(Added(added, n)) && forall u :: u in Added(added, n) <==> Tight(s, u, n);
    }
  }

  lemma AddedIsNextHops(net: Net, host: NodeId, s: Search, added: map<NodeId, seq<NodeId>>)
    requires Finished(net, host, s) && AddedInv(s, added)
    ensures forall n {:trigger Added(added, n)} :: NextHopList(net, host, n, Added(added, n))
  {
    forall n
      ensures NextHopList(net, host, n, Added(added, n))
    {
      forall u {
        TightIsNextHop(net, host, s, u, n);
      }
    }
  }

  // ----- Termination and order of service -----

  // Only nodes served before position i have been looked from.
  ghost predicate SeenBefore(s: Search, i: nat) {
    i <= |s.q| && forall u, v :: (u, v) in s.seen ==> u in s.q[..i]
  }

  lemma NotYetServed(net: Net, host: NodeId, s: Search, i: nat)
    requires QueueInv(net, host, s, i) && SeenBefore(s, i) && i < |s.q|
    ensures forall v :: (s.q[i], v) !in s.seen
  {
    assert s.q[i] !in s.q[..i];
  }

  lemma ServedNow(s: Search, s': Search, i: nat)
    requires SeenBefore(s, i) && i < |s.q| && s.q <= s'.q
    requires forall u, v :: (u, v) in s'.seen ==> (u, v) in s.seen || u == s.q[i]
    ensures SeenBefore(s', i + 1)
  {
    assert s'.q[..i + 1] == s.q[..i] + [s.q[i]];
  }

  lemma QueueIsShort(net: Net, host: NodeId, s: Search, i: nat)
    requires QueueInv(net, host, s, i)
    ensures |s.q| <= |net.kind.Keys + {host}|
  {
    DistinctCard(s.q, net.kind.Keys + {host});
  }
}
