/** Route computation, table set-up and link failure in scratch/third.cc. */
module Routing {
  import opened Common
  import opened Network
  import opened Bfs

  // Two-level tables, map<Ptr<Node>, map<Ptr<Node>, V>>; operator[] creates missing levels.
  type Table<V> = map<NodeId, map<NodeId, V>>

  function Get<V>(t: Table<V>, a: NodeId, b: NodeId, default: V): V {
    if a in t && b in t[a] then t[a][b] else default
  }

  function Put<V>(t: Table<V>, a: NodeId, b: NodeId, v: V): Table<V> {
    t[a := (if a in t then t[a] else map[])[b := v]]
  }

  lemma GetPut<V>(t: Table<V>, a: NodeId, b: NodeId, v: V)
    ensures forall x, y, d :: Get(Put(t, a, b, v), x, y, d) == if x == a && y == b then v else Get(t, x, y, d)
  {
  }

  function Hops(t: Table<seq<NodeId>>, n: NodeId, host: NodeId): seq<NodeId> {
    Get(t, n, host, [])
  }

  // What CalculateRoute keeps for a node besides its distance: delay, txDelay and bw.
  datatype Quantities = Quantities(delay: nat, txDelay: nat, bw: nat)

  // The local variables of CalculateRoute. Its maps delay, txDelay and bw always have
  // the same keys; they are kept here as one map.
  datatype Progress = Progress(q: seq<NodeId>, dis: map<NodeId, nat>, kept: map<NodeId, Quantities>)

  function AtHost(): Quantities {
    Quantities(0, 0, TWO_64 - 1)
  }

  // One more link, in 64-bit arithmetic.
  function AcrossLink(net: Net, k: Quantities, link: Interface): Quantities
    requires link.bw > 0
  {
    Quantities((k.delay + link.delay) % TWO_64, (k.txDelay + TxTime(net.payload, link.bw)) % TWO_64,
               Min(k.bw, link.bw))
  }

  ghost function Along(net: Net, p: seq<NodeId>): Quantities
    requires WellFormed(net)
  {
    if |p| <= 1 then AtHost()
    else AcrossLink(net, Along(net, p[..|p| - 1]), LinkOf(net, p[|p| - 2], p[|p| - 1]))
  }

  lemma ModAdd(a: nat, b: nat)
    ensures (a % TWO_64 + b) % TWO_64 == (a + b) % TWO_64
  {
  }

  lemma AlongNext(net: Net, q: seq<NodeId>, u: NodeId)
    requires WellFormed(net) && |q| > 0
    ensures Along(net, q + [u]) == AcrossLink(net, Along(net, q), LinkOf(net, q[|q| - 1], u))
  {
    var p := q + [u];
    assert p[..|p| - 1] == q && p[|p| - 2] == q[|q| - 1] && p[|p| - 1] == u;
  }

  lemma SumsNext(net: Net, q: seq<NodeId>, u: NodeId)
    requires WellFormed(net) && |q| > 0
    ensures var p, link := q + [u], LinkOf(net, q[|q| - 1], u);
            && SumDelay(net, p) == SumDelay(net, q) + link.delay
            && SumTx(net, p) == SumTx(net, q) + TxTime(net.payload, link.bw)
            && Bottleneck(net, p) == Min(Bottleneck(net, q), link.bw)
  {
    var p := q + [u];
    assert p[..|p| - 1] == q && p[|p| - 2] == q[|q| - 1] && p[|p| - 1] == u;
  }

  // The link-by-link updates amount to sums and a minimum over the whole route.
  lemma {:induction false} AlongIsSums(net: Net, p: seq<NodeId>)
    requires WellFormed(net)
    ensures Along(net, p) == Quantities(SumDelay(net, p) % TWO_64, SumTx(net, p) % TWO_64, Bottleneck(net, p))
  {
    if |p| > 1 {
      var q, u := p[..|p| - 1], p[|p| - 1];
      AlongIsSums(net, q);
      AlongNext(net, q, u);
      SumsNext(net, q, u);
      AcrossSums(net, SumDelay(net, q), SumTx(net, q), Bottleneck(net, q), LinkOf(net, q[|q| - 1], u));
      assert p == q + [u];
    }
  }

  lemma AcrossSums(net: Net, delay: nat, txDelay: nat, bw: nat, link: Interface)
    requires link.bw > 0
    ensures AcrossLink(net, Quantities(delay % TWO_64, txDelay % TWO_64, bw), link)
            == Quantities((delay + link.delay) % TWO_64, (txDelay + TxTime(net.payload, link.bw)) % TWO_64,
                          Min(bw, link.bw))
  {
    ModAdd(delay, link.delay);
    ModAdd(txDelay, TxTime(net.payload, link.bw));
  }

  // The quantities kept for n are those of its witness route.
  ghost predicate KeptInv(net: Net, wit: map<NodeId, seq<NodeId>>, kept: map<NodeId, Quantities>)
    requires WellFormed(net)
  {
    && kept.Keys == wit.Keys
    && forall n :: n in kept ==> kept[n] == Along(net, wit[n])
  }

  // Reaching a node for the first time: its distance and the quantities of the route to it.
  // Only switches are enqueued, so that no packet goes through a host in the middle.
  function Discover(net: Net, r: Progress, now: NodeId, next: NodeId): Progress
    requires Up(net.links, now, next) && net.links[now][next].bw > 0
    requires now in r.dis && now in r.kept
  {
    Progress(if IsSwitch(net, next) then r.q + [next] else r.q,
             r.dis[next := r.dis[now] + 1],
             r.kept[next := AcrossLink(net, r.kept[now], net.links[now][next])])
  }

  lemma KeepOneMore(net: Net, wit: map<NodeId, seq<NodeId>>, kept: map<NodeId, Quantities>, now: NodeId, next: NodeId)
    requires WellFormed(net) && KeptInv(net, wit, kept)
    requires now in kept && Up(net.links, now, next)
    requires |wit[now]| > 0 && wit[now][|wit[now]| - 1] == now
    ensures KeptInv(net, wit[next := wit[now] + [next]],
                    kept[next := AcrossLink(net, kept[now], net.links[now][next])])
  {
    AlongNext(net, wit[now], next);
  }

  // nextHop is what it was in base, with the lists in added appended for host.
  ghost predicate HopsInv(base: Table<seq<NodeId>>, nextHop: Table<seq<NodeId>>, host: NodeId,
                          added: map<NodeId, seq<NodeId>>) {
    forall n, h {:trigger Hops(nextHop, n, h)} ::
      Hops(nextHop, n, h) == Hops(base, n, h) + if h == host then Added(added, n) else []
  }

  lemma PushHop(base: Table<seq<NodeId>>, nextHop: Table<seq<NodeId>>, host: NodeId,
                added: map<NodeId, seq<NodeId>>, next: NodeId, now: NodeId)
    requires HopsInv(base, nextHop, host, added)
    ensures HopsInv(base, Put(nextHop, next, host, Hops(nextHop, next, host) + [now]), host,
                    added[next := Added(added, next) + [now]])
  {
    var nextHop' := Put(nextHop, next, host, Hops(nextHop, next, host) + [now]);
    var added' := added[next := Added(added, next) + [now]];
    forall n, h
      ensures Hops(nextHop', n, h) == Hops(base, n, h) + if h == host then Added(added', n) else []
    {
      assert Hops(nextHop, n, h) == Hops(base, n, h) + if h == host then Added(added, n) else [];
    }
  }

  // What holds of CalculateRoute's variables while position i of the queue is served.
  ghost predicate ProgressInv(net: Net, host: NodeId, s: Search, i: nat, r: Progress) {
    && WellFormed(net)
    && SearchInv(net, host, s, i)
    && KeptInv(net, s.wit, r.kept)
    && r.q == s.q && r.dis == s.dis
  }

  ghost predicate TableInv(s: Search, base: Table<seq<NodeId>>, nextHop: Table<seq<NodeId>>, host: NodeId,
                           added: map<NodeId, seq<NodeId>>) {
    HopsInv(base, nextHop, host, added) && AddedInv(s, added)
  }

  function VisitProgress(net: Net, r: Progress, now: NodeId, next: NodeId): Progress
    requires Up(net.links, now, next) && net.links[now][next].bw > 0
    requires now in r.dis && now in r.kept
  {
    if next in r.dis then r else Discover(net, r, now, next)
  }

  function VisitTable(nextHop: Table<seq<NodeId>>, host: NodeId, r: Progress, now: NodeId, next: NodeId)
    : Table<seq<NodeId>>
    requires now in r.dis && next in r.dis
  {
    if r.dis[now] + 1 == r.dis[next] then Put(nextHop, next, host, Hops(nextHop, next, host) + [now]) else nextHop
  }

  lemma VisitKeeps(net: Net, s: Search, r: Progress, now: NodeId, next: NodeId)
    requires WellFormed(net) && KeptInv(net, s.wit, r.kept) && r.q == s.q && r.dis == s.dis
    requires now in s.dis && now in s.wit && |s.wit[now]| > 0 && s.wit[now][|s.wit[now]| - 1] == now
    requires Up(net.links, now, next)
    ensures var (s', r') := (Visit(net, s, now, next), VisitProgress(net, r, now, next));
            KeptInv(net, s'.wit, r'.kept) && r'.q == s'.q && r'.dis == s'.dis
  {
    KeepOneMore(net, s.wit, r.kept, now, next);
  }

  lemma WitnessEndsAt(net: Net, host: NodeId, s: Search, i: nat)
    requires SearchInv(net, host, s, i) && i < |s.q|
    ensures s.q[i] in s.dis && s.q[i] in s.wit
    ensures |s.wit[s.q[i]]| > 0 && s.wit[s.q[i]][|s.wit[s.q[i]]| - 1] == s.q[i]
  {
    assert s.q[i] in s.q;
  }

  lemma ProgressStep(net: Net, host: NodeId, s: Search, i: nat, r: Progress, next: NodeId)
    requires ProgressInv(net, host, s, i, r) && i < |s.q| && Up(net.links, s.q[i], next)
    ensures s.q[i] in s.dis && s.q[i] in s.wit
    ensures ProgressInv(net, host, Visit(net, s, s.q[i], next), i, VisitProgress(net, r, s.q[i], next))
  {
    WitnessEndsAt(net, host, s, i);
    VisitKeeps(net, s, r, s.q[i], next);
    VisitInv(net, host, s, i, next);
  }

  lemma TableStep(net: Net, host: NodeId, s: Search, i: nat, r: Progress, next: NodeId, base: Table<seq<NodeId>>,
                  nextHop: Table<seq<NodeId>>, added: map<NodeId, seq<NodeId>>)
    returns (added': map<NodeId, seq<NodeId>>)
    requires SearchInv(net, host, s, i) && i < |s.q| && s.q[i] in s.dis && s.q[i] in s.wit
    requires (s.q[i], next) !in s.seen && TableInv(s, base, nextHop, host, added)
    requires r.dis == Visit(net, s, s.q[i], next).dis
    ensures TableInv(Visit(net, s, s.q[i], next), base, VisitTable(nextHop, host, r, s.q[i], next), host, added')
  {
    var now := s.q[i];
    PushHop(base, nextHop, host, added, next, now);
    added' := if Tight(Visit(net, s, now, next), now, next) then added[next := Added(added, next) + [now]] else added;
    VisitAdded(net, host, s, i, next, added, added');
  }

  // The body of the neighbour loop of CalculateRoute, for a link that is up.
  method VisitNeighbour(net: Net, host: NodeId, now: NodeId, next: NodeId, r: Progress, nextHop: Table<seq<NodeId>>)
    returns (r': Progress, nextHop': Table<seq<NodeId>>)
    requires Up(net.links, now, next) && net.links[now][next].bw > 0
    requires now in r.dis && now in r.kept
    ensures r' == VisitProgress(net, r, now, next)
    ensures nextHop' == VisitTable(nextHop, host, r', now, next)
  {
    r', nextHop' := r, nextHop;
    // next is reached for the first time
    if next !in r.dis {
      r' := Discover(net, r, now, next);
    }
    // now is one link nearer
    if r'.dis[now] + 1 == r'.dis[next] {
      nextHop' := Put(nextHop, next, host, Hops(nextHop, next, host) + [now]);
    }
  }

  ghost predicate Serving(net: Net, host: NodeId, s: Search, i: nat, r: Progress, base: Table<seq<NodeId>>,
                          nextHop: Table<seq<NodeId>>, added: map<NodeId, seq<NodeId>>) {
    && i < |s.q|
    && ProgressInv(net, host, s, i, r)
    && TableInv(s, base, nextHop, host, added)
  }

  lemma ServingStep(net: Net, host: NodeId, s: Search, i: nat, r: Progress, base: Table<seq<NodeId>>,
                    nextHop: Table<seq<NodeId>>, added: map<NodeId, seq<NodeId>>, next: NodeId)
    returns (added': map<NodeId, seq<NodeId>>)
    requires Serving(net, host, s, i, r, base, nextHop, added)
    requires Up(net.links, s.q[i], next) && (s.q[i], next) !in s.seen
    ensures s.q[i] in s.dis && s.q[i] in s.wit && s.q[i] in r.dis && s.q[i] in r.kept
    ensures net.links[s.q[i]][next].bw > 0
    ensures var (s', r') := (Visit(net, s, s.q[i], next), VisitProgress(net, r, s.q[i], next));
            Serving(net, host, s', i, r', base, VisitTable(nextHop, host, r', s.q[i], next), added')
  {
    WitnessEndsAt(net, host, s, i);
    ProgressStep(net, host, s, i, r, next);
    added' := TableStep(net, host, s, i, VisitProgress(net, r, s.q[i], next), next, base, nextHop, added);
  }

  // The links of now that are not in rest have been looked at, unless they are down.
  ghost predicate SeenFrom(links: map<NodeId, Interface>, rest: set<NodeId>, now: NodeId, s: Search, s': Search) {
    && rest <= links.Keys
    && s.q <= s'.q
    && (forall v :: (now, v) in s'.seen <==> v in links.Keys - rest && links[v].up)
    && (forall u, v :: (u, v) in s'.seen ==> (u, v) in s.seen || u == now)
  }

  // The variables of the loop over the queue.
  datatype Queue = Queue(i: nat, r: Progress, nextHop: Table<seq<NodeId>>)

  // One position of the queue: all the links of one node.
  method ServeNode(net: Net, host: NodeId, x: Queue, ghost s: Search, ghost base: Table<seq<NodeId>>,
                   ghost added: map<NodeId, seq<NodeId>>)
    returns (x': Queue, ghost s': Search, ghost added': map<NodeId, seq<NodeId>>)
    requires Between(net, host, s, x.i, x.r, base, x.nextHop, added) && x.i < |x.r.q|
    ensures Between(net, host, s', x'.i, x'.r, base, x'.nextHop, added')
    ensures x.i < x'.i <= |net.kind.Keys + {host}|
  {
    var i, r', nextHop' := x.i, x.r, x.nextHop;
    QueueBound(net, host, s, i, r', base, nextHop', added);
    s', added' := s, added;
    NotYetServed(net, host, s, i);
    var now := r'.q[i];
    var links := if now in net.links then net.links[now] else map[];
    var rest := links.Keys;
    while rest != {}
      invariant Serving(net, host, s', i, r', base, nextHop', added')
      invariant SeenFrom(links, rest, now, s, s')
    {
      var next :| next in rest;
      SeenOneMore(net, links, rest, now, s, s', next);
      rest := rest - {next};
      if !links[next].up {
        continue;
      }
      ghost var added'' := ServingStep(net, host, s', i, r', base, nextHop', added', next);
      s' := Visit(net, s', now, next);
      r', nextHop' := VisitNeighbour(net, host, now, next, r', nextHop');
      added' := added'';
    }
    ServeEnd(net, host, links, rest, s, s', i, r');
    x' := Queue(i + 1, r', nextHop');
  }

  lemma SeenOneMore(net: Net, links: map<NodeId, Interface>, rest: set<NodeId>, now: NodeId, s: Search, s': Search,
                    next: NodeId)
    requires SeenFrom(links, rest, now, s, s') && next in rest
    ensures (now, next) !in s'.seen
    ensures !links[next].up ==> SeenFrom(links, rest - {next}, now, s, s')
    ensures links[next].up && now in s'.dis && now in s'.wit
            ==> SeenFrom(links, rest - {next}, now, s, Visit(net, s', now, next))
  {
  }

  lemma ServeEnd(net: Net, host: NodeId, links: map<NodeId, Interface>, rest: set<NodeId>, s: Search, s': Search,
                 i: nat, r: Progress)
    requires i < |s'.q| && ProgressInv(net, host, s', i, r) && SeenBefore(s, i) && i < |s.q|
    requires links == (if s.q[i] in net.links then net.links[s.q[i]] else map[])
    requires rest == {} && SeenFrom(links, rest, s.q[i], s, s')
    ensures ProgressInv(net, host, s', i + 1, r) && SeenBefore(s', i + 1)
  {
    ServedNow(s, s', i);
    ServeNext(net, host, s', i);
  }

  // What holds of CalculateRoute's variables before position i of the queue is served.
  ghost predicate Between(net: Net, host: NodeId, s: Search, i: nat, r: Progress, base: Table<seq<NodeId>>,
                          nextHop: Table<seq<NodeId>>, added: map<NodeId, seq<NodeId>>) {
    ProgressInv(net, host, s, i, r) && SeenBefore(s, i) && TableInv(s, base, nextHop, host, added)
  }

  lemma QueueBound(net: Net, host: NodeId, s: Search, i: nat, r: Progress, base: Table<seq<NodeId>>,
                   nextHop: Table<seq<NodeId>>, added: map<NodeId, seq<NodeId>>)
    requires Between(net, host, s, i, r, base, nextHop, added)
    ensures i <= |r.q| <= |net.kind.Keys + {host}|
  {
    QueueIsShort(net, host, s, i);
  }

  // Some state of the search belongs to the variables.
  ghost predicate Underway(net: Net, host: NodeId, base: Table<seq<NodeId>>, x: Queue) {
    exists s, added :: Between(net, host, s, x.i, x.r, base, x.nextHop, added)
  }

  // The queue holds the host.
  method BeginSearch(net: Net, host: NodeId, nextHop: Table<seq<NodeId>>) returns (x: Queue)
    requires WellFormed(net)
    ensures Underway(net, host, nextHop, x)
  {
    x := Queue(0, Progress([host], map[host := 0], map[host := AtHost()]), nextHop);
    ServingStart(net, host, x.r, nextHop);
  }

  // Serving the next position of the queue.
  method ServePosition(net: Net, host: NodeId, x: Queue, ghost base: Table<seq<NodeId>>) returns (x': Queue)
    requires Underway(net, host, base, x) && x.i < |x.r.q|
    ensures Underway(net, host, base, x') && x.i < x'.i <= |net.kind.Keys + {host}|
  {
    ghost var s, added :| Between(net, host, s, x.i, x.r, base, x.nextHop, added);
    x', s, added := ServeNode(net, host, x, s, base, added);
  }

  // The loop over the queue.
  method ServeQueue(net: Net, host: NodeId, nextHop: Table<seq<NodeId>>) returns (x: Queue)
    requires WellFormed(net)
    ensures Underway(net, host, nextHop, x) && x.i >= |x.r.q|
  {
    x := BeginSearch(net, host, nextHop);
    while x.i < |x.r.q|
      invariant Underway(net, host, nextHop, x)
      decreases |net.kind.Keys + {host}| - x.i
    {
      x := ServePosition(net, host, x, nextHop);
    }
  }

  // The whole search from host.
  method ComputeFrom(net: Net, host: NodeId, nextHop: Table<seq<NodeId>>)
    returns (kept: map<NodeId, Quantities>, nextHop': Table<seq<NodeId>>)
    requires WellFormed(net)
    ensures RoutedFrom(net, host, nextHop, nextHop')
    ensures MeasuredAll(net, host, kept)
  {
    var x := ServeQueue(net, host, nextHop);
    ServedAll(net, host, nextHop, x);
    kept, nextHop' := x.r.kept, x.nextHop;
  }

  lemma ServingStart(net: Net, host: NodeId, r: Progress, nextHop: Table<seq<NodeId>>)
    requires WellFormed(net) && r == Progress([host], map[host := 0], map[host := AtHost()])
    ensures Between(net, host, Start(host), 0, r, nextHop, nextHop, map[])
  {
  }

  // For host, every node's next hops are appended to what base lists; nothing else changes.
  ghost predicate RoutedFrom(net: Net, host: NodeId, base: Table<seq<NodeId>>, nextHop: Table<seq<NodeId>>) {
    && (forall n, h {:trigger Hops(nextHop, n, h)} :: h != host ==> Hops(nextHop, n, h) == Hops(base, n, h))
    && (forall n {:trigger Hops(nextHop, n, host)} ::
          && Hops(base, n, host) <= Hops(nextHop, n, host)
          && NextHopList(net, host, n, Hops(nextHop, n, host)[|Hops(base, n, host)|..]))
  }

  lemma SearchEnd(net: Net, host: NodeId, s: Search, r: Progress, base: Table<seq<NodeId>>,
                  nextHop: Table<seq<NodeId>>, added: map<NodeId, seq<NodeId>>)
    requires Between(net, host, s, |r.q|, r, base, nextHop, added)
    ensures Finished(net, host, s) && KeptInv(net, s.wit, r.kept)
    ensures RoutedFrom(net, host, base, nextHop)
  {
    AddedIsNextHops(net, host, s, added);
    forall n
      ensures Hops(base, n, host) <= Hops(nextHop, n, host)
      ensures NextHopList(net, host, n, Hops(nextHop, n, host)[|Hops(base, n, host)|..])
    {
      assert Hops(nextHop, n, host) == Hops(base, n, host) + Added(added, n);
      assert Hops(nextHop, n, host)[|Hops(base, n, host)|..] == Added(added, n);
    }
  }

  // for (auto it : m) t[it.first][host] = it.second;
  method SetColumn(t: Table<nat>, host: NodeId, m: map<NodeId, nat>) returns (t': Table<nat>)
    ensures ColumnSet(t, host, m, t')
  {
    t' := t;
    var rest := m.Keys;
    while rest != {}
      invariant rest <= m.Keys
      invariant forall n, h :: Get(t', n, h, 0) == if h == host && n in m.Keys - rest then m[n] else Get(t, n, h, 0)
    {
      var n :| n in rest;
      rest := rest - {n};
      GetPut(t', n, host, m[n]);
      t' := Put(t', n, host, m[n]);
    }
  }

  // t' is t with the column of host overwritten where m has an entry.
  ghost predicate ColumnSet(t: Table<nat>, host: NodeId, m: map<NodeId, nat>, t': Table<nat>) {
    forall n, h {:trigger Get(t', n, h, 0)} ::
      Get(t', n, h, 0) == if h == host && n in m then m[n] else Get(t, n, h, 0)
  }

  ghost predicate QuantitiesSet(host: NodeId, kept: map<NodeId, Quantities>, delay: Table<nat>, delay': Table<nat>,
                                txDelay: Table<nat>, txDelay': Table<nat>, bw: Table<nat>, bw': Table<nat>) {
    && ColumnSet(delay, host, map n | n in kept :: kept[n].delay, delay')
    && ColumnSet(txDelay, host, map n | n in kept :: kept[n].txDelay, txDelay')
    && ColumnSet(bw, host, map n | n in kept :: kept[n].bw, bw')
  }

  method SetQuantities(host: NodeId, kept: map<NodeId, Quantities>, delay: Table<nat>, txDelay: Table<nat>,
                       bw: Table<nat>) returns (delay': Table<nat>, txDelay': Table<nat>, bw': Table<nat>)
    ensures QuantitiesSet(host, kept, delay, delay', txDelay, txDelay', bw, bw')
  {
    delay' := SetColumn(delay, host, map n | n in kept :: kept[n].delay);
    txDelay' := SetColumn(txDelay, host, map n | n in kept :: kept[n].txDelay);
    bw' := SetColumn(bw, host, map n | n in kept :: kept[n].bw);
  }

  // For host, what is kept for each reached node is measured on one shortest route to it.
  ghost predicate MeasuredFrom(net: Net, host: NodeId, delay: Table<nat>, delay': Table<nat>, txDelay: Table<nat>,
                               txDelay': Table<nat>, bw: Table<nat>, bw': Table<nat>)
    requires WellFormed(net)
  {
    && (forall n, h {:trigger Get(delay', n, h, 0)} :: h != host || !Reached(net, host, n)
          ==> Get(delay', n, h, 0) == Get(delay, n, h, 0))
    && (forall n, h {:trigger Get(txDelay', n, h, 0)} :: h != host || !Reached(net, host, n)
          ==> Get(txDelay', n, h, 0) == Get(txDelay, n, h, 0))
    && (forall n, h {:trigger Get(bw', n, h, 0)} :: h != host || !Reached(net, host, n)
          ==> Get(bw', n, h, 0) == Get(bw, n, h, 0))
    && (forall n {:trigger Reached(net, host, n)} :: Reached(net, host, n)
          ==> MeasuredOnRoute(net, host, n, Get(delay', n, host, 0), Get(txDelay', n, host, 0), Get(bw', n, host, 0)))
  }

  ghost predicate MeasuredOnRoute(net: Net, host: NodeId, n: NodeId, delay: nat, txDelay: nat, bw: nat)
    requires WellFormed(net)
  {
    exists p ::
      && Route(net, host, n, p) && Dist(net, host, n, |p| - 1)
      && delay == SumDelay(net, p) % TWO_64
      && txDelay == SumTx(net, p) % TWO_64
      && bw == Bottleneck(net, p)
  }

  // kept has an entry for just the reached nodes, each measured on a shortest route.
  ghost predicate MeasuredAll(net: Net, host: NodeId, kept: map<NodeId, Quantities>)
    requires WellFormed(net)
  {
    && (forall n :: n in kept <==> Reached(net, host, n))
    && (forall n :: n in kept ==> MeasuredOnRoute(net, host, n, kept[n].delay, kept[n].txDelay, kept[n].bw))
  }

  lemma WitnessMeasures(net: Net, host: NodeId, s: Search, kept: map<NodeId, Quantities>)
    requires WellFormed(net) && Finished(net, host, s) && KeptInv(net, s.wit, kept)
    ensures MeasuredAll(net, host, kept)
  {
    SearchIsExact(net, host, s);
    forall n | n in kept
      ensures MeasuredOnRoute(net, host, n, kept[n].delay, kept[n].txDelay, kept[n].bw)
    {
      AlongIsSums(net, s.wit[n]);
      assert n in s.dis;
      assert Route(net, host, n, s.wit[n]) && Dist(net, host, n, |s.wit[n]| - 1);
    }
  }

  // What the search leaves when the whole queue is served.
  lemma ServedAll(net: Net, host: NodeId, base: Table<seq<NodeId>>, x: Queue)
    requires WellFormed(net) && Underway(net, host, base, x) && x.i >= |x.r.q|
    ensures RoutedFrom(net, host, base, x.nextHop) && MeasuredAll(net, host, x.r.kept)
  {
    var s, added :| Between(net, host, s, x.i, x.r, base, x.nextHop, added);
    QueueBound(net, host, s, x.i, x.r, base, x.nextHop, added);
    assert x.i == |x.r.q|;
    SearchEnd(net, host, s, x.r, base, x.nextHop, added);
    WitnessMeasures(net, host, s, x.r.kept);
  }

  lemma QuantitiesEnd(net: Net, host: NodeId, kept: map<NodeId, Quantities>, delay: Table<nat>,
                      delay': Table<nat>, txDelay: Table<nat>, txDelay': Table<nat>, bw: Table<nat>, bw': Table<nat>)
    requires WellFormed(net) && MeasuredAll(net, host, kept)
    requires QuantitiesSet(host, kept, delay, delay', txDelay, txDelay', bw, bw')
    ensures MeasuredFrom(net, host, delay, delay', txDelay, txDelay', bw, bw')
  {
    forall n | Reached(net, host, n)
      ensures MeasuredOnRoute(net, host, n, Get(delay', n, host, 0), Get(txDelay', n, host, 0), Get(bw', n, host, 0))
    {
      assert n in kept;
    }
  }

  // ----- All hosts -----

  // Every host is routed to exactly once.
  ghost predicate RoutedTo(net: Net, hosts: seq<NodeId>, nextHop: Table<seq<NodeId>>) {
    forall n, h {:trigger Hops(nextHop, n, h)} ::
      if h in hosts && IsHost(net, h) then NextHopList(net, h, n, Hops(nextHop, n, h)) else Hops(nextHop, n, h) == []
  }

  lemma RouteOneMore(net: Net, hosts: seq<NodeId>, i: nat, nextHop: Table<seq<NodeId>>, nextHop': Table<seq<NodeId>>)
    requires i < |hosts| && Distinct(hosts) && RoutedTo(net, hosts[..i], nextHop)
    requires if IsHost(net, hosts[i]) then RoutedFrom(net, hosts[i], nextHop, nextHop') else nextHop' == nextHop
    ensures RoutedTo(net, hosts[..i + 1], nextHop')
  {
    assert hosts[..i + 1] == hosts[..i] + [hosts[i]];
    assert hosts[i] !in hosts[..i];
    forall n, h
      ensures if h in hosts[..i + 1] && IsHost(net, h) then NextHopList(net, h, n, Hops(nextHop', n, h))
              else Hops(nextHop', n, h) == []
    {
      assert h != hosts[i] ==> Hops(nextHop', n, h) == Hops(nextHop, n, h);
      if h == hosts[i] && IsHost(net, h) {
        assert Hops(nextHop, n, h) == [];
        assert Hops(nextHop', n, h)[|Hops(nextHop, n, h)|..] == Hops(nextHop', n, h);
      }
    }
  }

  // For every host, what is kept for each node it reaches is measured on a shortest route, and the rest is as
  // before.
  ghost predicate MeasuredTo(net: Net, hosts: seq<NodeId>, delay: Table<nat>, delay': Table<nat>, txDelay: Table<nat>,
                             txDelay': Table<nat>, bw: Table<nat>, bw': Table<nat>)
    requires WellFormed(net)
  {
    forall n, h {:trigger Reached(net, h, n)} ::
      if h in hosts && IsHost(net, h) && Reached(net, h, n)
      then MeasuredOnRoute(net, h, n, Get(delay', n, h, 0), Get(txDelay', n, h, 0), Get(bw', n, h, 0))
      else Get(delay', n, h, 0) == Get(delay, n, h, 0) && Get(txDelay', n, h, 0) == Get(txDelay, n, h, 0)
           && Get(bw', n, h, 0) == Get(bw, n, h, 0)
  }

  lemma MeasureOneMore(net: Net, hosts: seq<NodeId>, i: nat, delay0: Table<nat>, delay: Table<nat>, delay': Table<nat>,
                       txDelay0: Table<nat>, txDelay: Table<nat>, txDelay': Table<nat>, bw0: Table<nat>,
                       bw: Table<nat>, bw': Table<nat>)
    requires WellFormed(net) && i < |hosts| && Distinct(hosts)
    requires MeasuredTo(net, hosts[..i], delay0, delay, txDelay0, txDelay, bw0, bw)
    requires if IsHost(net, hosts[i]) then MeasuredFrom(net, hosts[i], delay, delay', txDelay, txDelay', bw, bw')
             else delay' == delay && txDelay' == txDelay && bw' == bw
    ensures MeasuredTo(net, hosts[..i + 1], delay0, delay', txDelay0, txDelay', bw0, bw')
  {
    assert hosts[..i + 1] == hosts[..i] + [hosts[i]];
    assert hosts[i] !in hosts[..i];
    forall n, h
      ensures if h in hosts[..i + 1] && IsHost(net, h) && Reached(net, h, n)
              then MeasuredOnRoute(net, h, n, Get(delay', n, h, 0), Get(txDelay', n, h, 0), Get(bw', n, h, 0))
              else Get(delay', n, h, 0) == Get(delay0, n, h, 0) && Get(txDelay', n, h, 0) == Get(txDelay0, n, h, 0)
                   && Get(bw', n, h, 0) == Get(bw0, n, h, 0)
    {
      if h != hosts[i] || !IsHost(net, h) || !Reached(net, h, n) {
        assert Get(delay', n, h, 0) == Get(delay, n, h, 0) && Get(txDelay', n, h, 0) == Get(txDelay, n, h, 0);
        assert Get(bw', n, h, 0) == Get(bw, n, h, 0);
        assert Reached(net, h, n) || !Reached(net, h, n);
      }
    }
  }

  // ----- Routing tables -----

  // nbr2if[node][next].idx; a missing entry would be created with index 0.
  function IndexOf(links: Links, node: NodeId, next: NodeId): nat {
    if node in links && next in links[node] then links[node][next].idx else 0
  }

  // Interface idx of n is the near end of a link to v that is up.
  ghost predicate LeadsTo(links: Links, n: NodeId, idx: nat, v: NodeId) {
    Up(links, n, v) && links[n][v].idx == idx
  }

  // No two links of a node that are up have the same interface there.
  ghost predicate DistinctInterfaces(links: Links) {
    forall n, u, v :: Up(links, n, u) && Up(links, n, v) && links[n][u].idx == links[n][v].idx ==> u == v
  }

  function Indices(links: Links, node: NodeId, hops: seq<NodeId>): (s: seq<nat>)
    ensures |s| == |hops| && forall k :: 0 <= k < |s| ==> s[k] == IndexOf(links, node, hops[k])
    ensures forall k :: 0 <= k < |s| && Up(links, node, hops[k]) ==> LeadsTo(links, node, s[k], hops[k])
  {
    seq(|hops|, k requires 0 <= k < |hops| => IndexOf(links, node, hops[k]))
  }

  function Entries(rt: Table<seq<nat>>, n: NodeId, h: NodeId): seq<nat> {
    Get(rt, n, h, [])
  }

  // The entries for the listed (node, destination) pairs have been added to rt.
  ghost predicate Installed(links: Links, nextHop: Table<seq<NodeId>>, rt: Table<seq<nat>>, rt': Table<seq<nat>>,
                            done: set<(NodeId, NodeId)>) {
    forall n, h {:trigger Entries(rt', n, h)} ::
      Entries(rt', n, h) == Entries(rt, n, h) + if (n, h) in done then Indices(links, n, Hops(nextHop, n, h)) else []
  }

  // The innermost loop: AddTableEntry for each next hop of one node towards one destination.
  method AddEntries(links: Links, node: NodeId, dst: NodeId, nexts: seq<NodeId>, rt: Table<seq<nat>>)
    returns (rt': Table<seq<nat>>)
    ensures forall n, h :: Entries(rt', n, h)
                           == Entries(rt, n, h) + if n == node && h == dst then Indices(links, node, nexts) else []
  {
    rt' := rt;
    for k := 0 to |nexts|
      invariant forall n, h :: Entries(rt', n, h)
                  == Entries(rt, n, h) + if n == node && h == dst then Indices(links, node, nexts)[..k] else []
    {
      var interface := IndexOf(links, node, nexts[k]);
      ghost var idx := Indices(links, node, nexts);
      assert idx[..k + 1] == idx[..k] + [interface];
      GetPut(rt', node, dst, Entries(rt', node, dst) + [interface]);
      rt' := Put(rt', node, dst, Entries(rt', node, dst) + [interface]);
    }
    assert Indices(links, node, nexts)[..|nexts|] == Indices(links, node, nexts);
  }

  lemma InstalledOneMore(links: Links, nextHop: Table<seq<NodeId>>, rt: Table<seq<nat>>, rt': Table<seq<nat>>,
                         rt'': Table<seq<nat>>, done: set<(NodeId, NodeId)>, node: NodeId, dst: NodeId)
    requires Installed(links, nextHop, rt, rt', done) && (node, dst) !in done
    requires forall n, h :: Entries(rt'', n, h) == Entries(rt', n, h)
               + if n == node && h == dst then Indices(links, node, Hops(nextHop, node, dst)) else []
    ensures Installed(links, nextHop, rt, rt'', done + {(node, dst)})
  {
    forall n, h
      ensures Entries(rt'', n, h) == Entries(rt, n, h)
                + if (n, h) in done + {(node, dst)} then Indices(links, n, Hops(nextHop, n, h)) else []
    {
      assert Entries(rt', n, h) == Entries(rt, n, h)
               + if (n, h) in done then Indices(links, n, Hops(nextHop, n, h)) else [];
    }
  }

  ghost function PairsOf(nextHop: Table<seq<NodeId>>, node: NodeId): set<(NodeId, NodeId)> {
    if node in nextHop then set h | h in nextHop[node] :: (node, h) else {}
  }

  // The loop over the destinations of one node.
  method AddNode(links: Links, nextHop: Table<seq<NodeId>>, node: NodeId, rt0: Table<seq<nat>>, rt: Table<seq<nat>>,
                 ghost done: set<(NodeId, NodeId)>) returns (rt': Table<seq<nat>>)
    requires Installed(links, nextHop, rt0, rt, done) && node in nextHop
    requires forall h :: (node, h) !in done
    ensures Installed(links, nextHop, rt0, rt', done + PairsOf(nextHop, node))
  {
    rt' := rt;
    var table := nextHop[node];
    var rest := table.Keys;
    ghost var all := done;
    while rest != {}
      invariant rest <= table.Keys
      invariant forall n, h :: (n, h) in all <==> (n, h) in done || (n == node && h in table.Keys - rest)
      invariant Installed(links, nextHop, rt0, rt', all)
    {
      var dst :| dst in rest;
      rest := rest - {dst};
      ghost var before := rt';
      rt' := AddEntries(links, node, dst, table[dst], rt');
      InstalledOneMore(links, nextHop, rt0, before, rt', all, node, dst);
      all := all + {(node, dst)};
    }
    forall x: (NodeId, NodeId)
      ensures x in all <==> x in done + PairsOf(nextHop, node)
    {
      assert x == (x.0, x.1);
    }
  }

  // SetRoutingEntries.
  method InstallAll(links: Links, nextHop: Table<seq<NodeId>>, rt: Table<seq<nat>>) returns (rt': Table<seq<nat>>)
    ensures forall n, h :: Entries(rt', n, h) == Entries(rt, n, h) + Indices(links, n, Hops(nextHop, n, h))
  {
    rt' := rt;
    var rest := nextHop.Keys;
    ghost var done: set<(NodeId, NodeId)> := {};
    while rest != {}
      invariant rest <= nextHop.Keys
      invariant forall n, h :: (n, h) in done <==> n in nextHop.Keys - rest && h in nextHop[n]
      invariant Installed(links, nextHop, rt, rt', done)
    {
      var node :| node in rest;
      rest := rest - {node};
      rt' := AddNode(links, nextHop, node, rt, rt', done);
      done := done + PairsOf(nextHop, node);
    }
    forall n, h
      ensures Entries(rt', n, h) == Entries(rt, n, h) + Indices(links, n, Hops(nextHop, n, h))
    {
      assert (n, h) !in done ==> Hops(nextHop, n, h) == [];
    }
  }

  // The entries of a node towards a host are just the interfaces of its links to next hops, and there are none
  // towards anything else.
  ghost predicate RightEntries(net: Net, hosts: seq<NodeId>, rt: Table<seq<nat>>) {
    forall n, h {:trigger Entries(rt, n, h)} ::
      if h in hosts && IsHost(net, h)
      then forall idx :: idx in Entries(rt, n, h) <==> IsWayOut(net, h, n, idx)
      else Entries(rt, n, h) == []
  }

  ghost predicate IsWayOut(net: Net, h: NodeId, n: NodeId, idx: nat) {
    exists u :: IsNextHop(net, h, n, u) && LeadsTo(net.links, n, idx, u)
  }

  lemma NextHopIsUp(net: Net, h: NodeId, n: NodeId, u: NodeId)
    requires WellFormed(net) && IsNextHop(net, h, n, u)
    ensures Up(net.links, n, u)
  {
  }

  lemma IndicesAreRight(net: Net, h: NodeId, n: NodeId, hops: seq<NodeId>, idx: nat)
    requires WellFormed(net) && NextHopList(net, h, n, hops)
    ensures idx in Indices(net.links, n, hops) <==> IsWayOut(net, h, n, idx)
  {
    var s := Indices(net.links, n, hops);
    if idx in s {
      var k :| 0 <= k < |s| && s[k] == idx;
      NextHopIsUp(net, h, n, hops[k]);
      assert LeadsTo(net.links, n, idx, hops[k]);
    }
    if IsWayOut(net, h, n, idx) {
      var u :| IsNextHop(net, h, n, u) && LeadsTo(net.links, n, idx, u);
      var k :| 0 <= k < |hops| && hops[k] == u;
      assert LeadsTo(net.links, n, s[k], hops[k]);
    }
  }

  // Entries made from right next hops are right.
  lemma InstalledIsRight(net: Net, hosts: seq<NodeId>, nextHop: Table<seq<NodeId>>, rt: Table<seq<nat>>)
    requires WellFormed(net) && RoutedTo(net, hosts, nextHop)
    requires forall n, h :: Entries(rt, n, h) == Indices(net.links, n, Hops(nextHop, n, h))
    ensures RightEntries(net, hosts, rt)
  {
    forall n, h, idx | h in hosts && IsHost(net, h)
      ensures idx in Entries(rt, n, h) <==> IsWayOut(net, h, n, idx)
    {
      IndicesAreRight(net, h, n, Hops(nextHop, n, h), idx);
    }
    forall n, h | !(h in hosts && IsHost(net, h))
      ensures Entries(rt, n, h) == []
    {
      assert Hops(nextHop, n, h) == [];
    }
  }

  // Where interfaces are distinct, no entry is listed twice.
  lemma EntriesAreDistinct(net: Net, h: NodeId, n: NodeId, hops: seq<NodeId>)
    requires WellFormed(net) && NextHopList(net, h, n, hops) && DistinctInterfaces(net.links)
    ensures Distinct(Indices(net.links, n, hops))
  {
    var s := Indices(net.links, n, hops);
    forall i, j | 0 <= i < j < |s|
      ensures s[i] != s[j]
    {
      NextHopIsUp(net, h, n, hops[i]);
      NextHopIsUp(net, h, n, hops[j]);
      assert LeadsTo(net.links, n, s[i], hops[i]) && LeadsTo(net.links, n, s[j], hops[j]);
    }
  }

  // ----- Link failure -----

  // What operator[] leaves behind for a pair without a link.
  function Touch(links: Links, a: NodeId, b: NodeId): Links {
    if a in links && b in links[a] then links
    else links[a := (if a in links then links[a] else map[])[b := Interface(0, false, 0, 0)]]
  }

  function SetDown(links: Links, a: NodeId, b: NodeId): Links
    requires a in links && b in links[a]
  {
    links[a := links[a][b := links[a][b].(up := false)]]
  }

  // The link between a and b is down, the others are as before.
  ghost predicate TakenDown(links: Links, a: NodeId, b: NodeId, links': Links) {
    && (forall x, y :: Up(links', x, y) <==> Up(links, x, y) && (x, y) != (a, b) && (x, y) != (b, a))
    && (forall x, y :: Up(links', x, y) ==> links'[x][y] == links[x][y])
  }

  lemma SetDownSets(links: Links, a: NodeId, b: NodeId, x: NodeId, y: NodeId)
    requires a in links && b in links[a]
    ensures Up(SetDown(links, a, b), x, y) <==> Up(links, x, y) && (x, y) != (a, b)
    ensures Up(SetDown(links, a, b), x, y) ==> SetDown(links, a, b)[x][y] == links[x][y]
  {
  }

  // Both directions are taken down.
  function Down(links: Links, a: NodeId, b: NodeId): Links
    requires Up(links, a, b) && Up(links, b, a)
  {
    SetDown(SetDown(links, a, b), b, a)
  }

  lemma TakesDown(links: Links, a: NodeId, b: NodeId)
    requires Up(links, a, b) && Up(links, b, a)
    ensures TakenDown(links, a, b, Down(links, a, b))
  {
    forall x, y
      ensures Up(Down(links, a, b), x, y) <==> Up(links, x, y) && (x, y) != (a, b) && (x, y) != (b, a)
      ensures Up(Down(links, a, b), x, y) ==> Down(links, a, b)[x][y] == links[x][y]
    {
      SetDownSets(links, a, b, x, y);
      SetDownSets(SetDown(links, a, b), b, a, x, y);
    }
  }

  lemma TakeDownKeepsShape(net: Net, a: NodeId, b: NodeId)
    requires WellFormed(net) && Up(net.links, a, b)
    ensures Up(net.links, b, a) && TakenDown(net.links, a, b, Down(net.links, a, b))
    ensures WellFormed(net.(links := Down(net.links, a, b)))
    ensures DistinctInterfaces(net.links) ==> DistinctInterfaces(Down(net.links, a, b))
  {
    TakesDown(net.links, a, b);
    var links' := Down(net.links, a, b);
    forall x, y | Up(links', x, y)
      ensures Up(links', y, x) && y in net.kind && 0 < links'[x][y].bw < TWO_64
    {
      assert Up(net.links, x, y) && Up(net.links, y, x);
    }
  }

  // The same links are up, with the same interfaces.
  ghost predicate SameLinks(links: Links, links': Links) {
    && (forall x, y :: Up(links', x, y) <==> Up(links, x, y))
    && (forall x, y :: Up(links', x, y) ==> links'[x][y] == links[x][y])
  }

  lemma TouchKeepsLinks(links: Links, a: NodeId, b: NodeId)
    ensures SameLinks(links, Touch(links, a, b))
    ensures DistinctInterfaces(links) ==> DistinctInterfaces(Touch(links, a, b))
  {
  }

  // No next hop crosses a link that is down.
  lemma DownLinkUnused(net: Net, hosts: seq<NodeId>, nextHop: Table<seq<NodeId>>, a: NodeId, b: NodeId, h: NodeId)
    requires RoutedTo(net, hosts, nextHop) && !Up(net.links, b, a)
    ensures b !in Hops(nextHop, a, h)
  {
  }

  // ----- Forwarding -----

  // A packet for host has gone from node to node by any choice of the listed next hops.
  ghost predicate Forwarded(nextHop: Table<seq<NodeId>>, host: NodeId, f: seq<NodeId>) {
    |f| > 0 && forall k :: 0 <= k < |f| - 1 ==> f[k + 1] in Hops(nextHop, f[k], host)
  }

  // One step: the next hop is nearer by one, over a link that is up, and relays.
  lemma ForwardStep(net: Net, hosts: seq<NodeId>, nextHop: Table<seq<NodeId>>, host: NodeId, n: NodeId, u: NodeId,
                    d: nat)
    requires WellFormed(net) && RoutedTo(net, hosts, nextHop) && host in hosts && IsHost(net, host)
    requires Dist(net, host, n, d) && u in Hops(nextHop, n, host)
    ensures d > 0 && Dist(net, host, u, d - 1) && Up(net.links, n, u) && Relays(net, host, u)
  {
    HopIsNearer(net, host, n, u, d);
  }

  lemma HopIsNearer(net: Net, host: NodeId, n: NodeId, u: NodeId, d: nat)
    requires WellFormed(net) && IsNextHop(net, host, n, u) && Dist(net, host, n, d)
    ensures d > 0 && Dist(net, host, u, d - 1) && Up(net.links, n, u) && Relays(net, host, u)
  {
    var e: nat :| Dist(net, host, u, e) && Dist(net, host, n, e + 1);
    DistUnique(net, host, n, d, e + 1);
  }

  // Only at the host the way is at its end.
  lemma ForwardEnd(net: Net, hosts: seq<NodeId>, nextHop: Table<seq<NodeId>>, host: NodeId, n: NodeId, d: nat)
    requires WellFormed(net) && RoutedTo(net, hosts, nextHop) && host in hosts && IsHost(net, host)
    requires Dist(net, host, n, d)
    ensures d == 0 <==> n == host
    ensures d > 0 ==> Hops(nextHop, n, host) != []
  {
    DistZero(net, host, n);
    if d > 0 {
      var u := HasNextHop(net, host, n, d - 1);
      assert u in Hops(nextHop, n, host);
    }
    if n == host {
      DistUnique(net, host, host, 0, d);
    }
  }

  // From a node d links away, every choice of next hops arrives after exactly d steps, through switches only.
  lemma {:induction false} ForwardingDelivers(net: Net, hosts: seq<NodeId>, nextHop: Table<seq<NodeId>>, host: NodeId,
                                              f: seq<NodeId>, d: nat)
    requires WellFormed(net) && RoutedTo(net, hosts, nextHop) && host in hosts && IsHost(net, host)
    requires Forwarded(nextHop, host, f) && Dist(net, host, f[0], d)
    ensures |f| <= d + 1 && Dist(net, host, f[|f| - 1], d + 1 - |f|)
    ensures forall k :: 0 <= k < |f| - 1 ==> Up(net.links, f[k], f[k + 1])
    ensures forall k :: 0 < k < |f| && k < d ==> f[k] in net.kind && net.kind[f[k]] == Switch
    ensures |f| == d + 1 <==> f[|f| - 1] == host
    ensures |f| < d + 1 ==> Hops(nextHop, f[|f| - 1], host) != []
  {
    var k := |f| - 1;
    if k > 0 {
      var g := f[..k];
      ForwardingDelivers(net, hosts, nextHop, host, g, d);
      assert f[k] in Hops(nextHop, f[k - 1], host);
      ForwardStep(net, hosts, nextHop, host, f[k - 1], f[k], d + 1 - k);
    }
    ForwardEnd(net, hosts, nextHop, host, f[k], d - k);
  }

  // A packet for host has gone from node to node, each time out of a listed interface and over its link.
  ghost predicate Travels(links: Links, rt: Table<seq<nat>>, host: NodeId, f: seq<NodeId>) {
    |f| > 0 && forall k, j :: 0 <= k < |f| - 1 && j == k + 1 ==> Leaves(links, rt, host, f[k], f[j])
  }

  ghost predicate Leaves(links: Links, rt: Table<seq<nat>>, host: NodeId, n: NodeId, v: NodeId) {
    exists idx :: idx in Entries(rt, n, host) && LeadsTo(links, n, idx, v)
  }

  ghost predicate CanLeave(links: Links, rt: Table<seq<nat>>, host: NodeId, n: NodeId) {
    exists v :: Leaves(links, rt, host, n, v)
  }

  lemma LeavesToNextHop(net: Net, hosts: seq<NodeId>, rt: Table<seq<nat>>, host: NodeId, n: NodeId, v: NodeId)
    requires RightEntries(net, hosts, rt) && DistinctInterfaces(net.links) && host in hosts && IsHost(net, host)
    requires Leaves(net.links, rt, host, n, v)
    ensures IsNextHop(net, host, n, v)
  {
    var idx :| idx in Entries(rt, n, host) && LeadsTo(net.links, n, idx, v);
    var u :| IsNextHop(net, host, n, u) && LeadsTo(net.links, n, idx, u);
  }

  // On the way there is an interface to go out of, and every listed one is that of a link.
  lemma MayLeave(net: Net, hosts: seq<NodeId>, rt: Table<seq<nat>>, host: NodeId, n: NodeId, d: nat)
    requires WellFormed(net) && RightEntries(net, hosts, rt) && host in hosts && IsHost(net, host)
    requires Dist(net, host, n, d)
    ensures d > 0 ==> CanLeave(net.links, rt, host, n)
    ensures forall idx :: idx in Entries(rt, n, host) ==> IsWayOut(net, host, n, idx)
    ensures d == 0 <==> n == host
  {
    DistZero(net, host, n);
    if n == host {
      DistUnique(net, host, host, 0, d);
    }
    if d > 0 {
      var u := HasNextHop(net, host, n, d - 1);
      NextHopIsUp(net, host, n, u);
      assert LeadsTo(net.links, n, net.links[n][u].idx, u) && IsWayOut(net, host, n, net.links[n][u].idx);
      assert Leaves(net.links, rt, host, n, u);
    }
  }

  // Where a packet is that has gone some way.
  lemma {:induction false} PacketIsAt(net: Net, hosts: seq<NodeId>, rt: Table<seq<nat>>, host: NodeId,
                                      f: seq<NodeId>, d: nat, k: nat)
    requires WellFormed(net) && RightEntries(net, hosts, rt) && DistinctInterfaces(net.links)
    requires host in hosts && IsHost(net, host) && Travels(net.links, rt, host, f) && Dist(net, host, f[0], d)
    requires k < |f|
    ensures k <= d && Dist(net, host, f[k], d - k) && (k > 0 ==> Relays(net, host, f[k]))
  {
    if k > 0 {
      PacketIsAt(net, hosts, rt, host, f, d, k - 1);
      assert Leaves(net.links, rt, host, f[k - 1], f[k]);
      LeavesToNextHop(net, hosts, rt, host, f[k - 1], f[k]);
      HopIsNearer(net, host, f[k - 1], f[k], d + 1 - k);
    }
  }

  /** What the entries do. Whichever listed interface each node sends a packet out of, from a node d links away it
      arrives after exactly d links, and passes switches only. */
  lemma PacketsArrive(net: Net, hosts: seq<NodeId>, rt: Table<seq<nat>>, host: NodeId, f: seq<NodeId>, d: nat)
    requires WellFormed(net) && RightEntries(net, hosts, rt) && DistinctInterfaces(net.links)
    requires host in hosts && IsHost(net, host) && Travels(net.links, rt, host, f) && Dist(net, host, f[0], d)
    ensures |f| <= d + 1 && Dist(net, host, f[|f| - 1], d + 1 - |f|)
    ensures forall k :: 0 < k < |f| && k < d ==> f[k] in net.kind && net.kind[f[k]] == Switch
    ensures |f| == d + 1 <==> f[|f| - 1] == host
    ensures |f| < d + 1 ==> CanLeave(net.links, rt, host, f[|f| - 1])
  {
    forall k | 0 < k < |f| && k < d
      ensures f[k] in net.kind && net.kind[f[k]] == Switch
    {
      PacketIsAt(net, hosts, rt, host, f, d, k);
      MayLeave(net, hosts, rt, host, f[k], d - k);
    }
    PacketIsAt(net, hosts, rt, host, f, d, |f| - 1);
    MayLeave(net, hosts, rt, host, f[|f| - 1], d + 1 - |f|);
  }

  // Two complete routings of the same network list the same next hops, up to order.
  lemma RoutingIsDetermined(net: Net, hosts: seq<NodeId>, t: Table<seq<NodeId>>, t': Table<seq<NodeId>>, n: NodeId,
                            h: NodeId)
    requires RoutedTo(net, hosts, t) && RoutedTo(net, hosts, t')
    ensures multiset(Hops(t, n, h)) == multiset(Hops(t', n, h))
  {
    var a, b := Hops(t, n, h), Hops(t', n, h);
    if h in hosts && IsHost(net, h) {
      DistinctMultiset(a);
      DistinctMultiset(b);
      assert forall u :: u in a <==> u in b;
    }
  }

  lemma {:induction false} DistinctMultiset(s: seq<NodeId>)
    requires Distinct(s)
    ensures forall u :: multiset(s)[u] == if u in s then 1 else 0
  {
    if s != [] {
      var k := |s| - 1;
      DistinctMultiset(s[..k]);
      assert s == s[..k] + [s[k]];
      assert s[k] !in s[..k];
    }
  }

  // The entry for b in the links of a is i.
  function SetLink(links: Links, a: NodeId, b: NodeId, i: Interface): Links {
    links[a := (if a in links then links[a] else map[])[b := i]]
  }

  lemma SetLinkSets(links: Links, a: NodeId, b: NodeId, i: Interface, x: NodeId, y: NodeId)
    ensures Up(SetLink(links, a, b, i), x, y) <==> if x == a && y == b then i.up else Up(links, x, y)
    ensures Up(SetLink(links, a, b, i), x, y)
            ==> SetLink(links, a, b, i)[x][y] == if x == a && y == b then i else links[x][y]
  {
  }

  // There is a link between a and b with these interfaces, and the others are as before.
  ghost predicate LinkAdded(links: Links, a: NodeId, b: NodeId, atA: Interface, atB: Interface, links': Links) {
    && (forall x, y :: Up(links', x, y) <==> (x, y) == (a, b) || (x, y) == (b, a) || Up(links, x, y))
    && (forall x, y :: Up(links', x, y) ==>
          links'[x][y] == if (x, y) == (b, a) then atB else if (x, y) == (a, b) then atA else links[x][y])
  }

  // The interface idx of n is not that of a link to another node than v.
  ghost predicate FreeFor(links: Links, n: NodeId, idx: nat, v: NodeId) {
    forall u :: Up(links, n, u) && u != v ==> links[n][u].idx != idx
  }

  // The interfaces are new at both ends.
  ghost predicate Fits(links: Links, a: NodeId, b: NodeId, atA: Interface, atB: Interface) {
    DistinctInterfaces(links) && a != b && FreeFor(links, a, atA.idx, b) && FreeFor(links, b, atB.idx, a)
  }

  lemma AddKeepsInterfaces(links: Links, a: NodeId, b: NodeId, atA: Interface, atB: Interface, links': Links)
    requires LinkAdded(links, a, b, atA, atB, links') && Fits(links, a, b, atA, atB)
    ensures DistinctInterfaces(links')
  {
  }

  lemma AddKeepsShape(net: Net, a: NodeId, b: NodeId, atA: Interface, atB: Interface)
    requires WellFormed(net) && a in net.kind && b in net.kind && atA.up && atB.up
    requires 0 < atA.bw < TWO_64 && 0 < atB.bw < TWO_64
    ensures var links := SetLink(SetLink(net.links, a, b, atA), b, a, atB);
            WellFormed(net.(links := links)) && LinkAdded(net.links, a, b, atA, atB, links)
  {
    var first := SetLink(net.links, a, b, atA);
    var links := SetLink(first, b, a, atB);
    forall x, y
      ensures Up(links, x, y) <==> (x == a && y == b) || (x == b && y == a) || Up(net.links, x, y)
      ensures Up(links, x, y) ==>
                links[x][y] == if x == b && y == a then atB else if x == a && y == b then atA else net.links[x][y]
    {
      SetLinkSets(net.links, a, b, atA, x, y);
      SetLinkSets(first, b, a, atB, x, y);
    }
    forall x, y | Up(links, x, y)
      ensures Up(links, y, x) && y in net.kind && 0 < links[x][y].bw < TWO_64
    {
      assert Up(net.links, x, y) ==> Up(net.links, y, x);
    }
  }

  // CalculateRoute on the tables as they are.
  method RouteFrom(net: Net, host: NodeId, nextHop: Table<seq<NodeId>>, delay: Table<nat>, txDelay: Table<nat>,
                   bw: Table<nat>)
    returns (nextHop': Table<seq<NodeId>>, delay': Table<nat>, txDelay': Table<nat>, bw': Table<nat>)
    requires WellFormed(net)
    ensures RoutedFrom(net, host, nextHop, nextHop')
    ensures MeasuredFrom(net, host, delay, delay', txDelay, txDelay', bw, bw')
  {
    var kept;
    kept, nextHop' := ComputeFrom(net, host, nextHop);
    delay', txDelay', bw' := SetQuantities(host, kept, delay, txDelay, bw);
    QuantitiesEnd(net, host, kept, delay, delay', txDelay, txDelay', bw, bw');
  }

  class Simulation {
    const nodes: seq<NodeId>
    const kind: map<NodeId, Kind>
    const payload: nat
    var nbr2if: Links
    var nextHop: Table<seq<NodeId>>
    var pairDelay: Table<nat>
    var pairTxDelay: Table<nat>
    var pairBw: Table<nat>
    // m_rtTable of every switch and of every host's RDMA driver, by destination.
    var rtTable: Table<seq<nat>>

    constructor (nodes: seq<NodeId>, kind: map<NodeId, Kind>, payload: nat)
      requires Distinct(nodes)
      ensures this.nodes == nodes && this.kind == kind && nbr2if == map[] && nextHop == map[] && rtTable == map[]
      ensures this.payload == payload && pairDelay == map[] && pairTxDelay == map[] && pairBw == map[]
      ensures Valid()
    {
      this.nodes, this.kind, this.payload := nodes, kind, payload;
      nbr2if, nextHop, rtTable := map[], map[], map[];
      pairDelay, pairTxDelay, pairBw := map[], map[], map[];
    }

    function Topo(): Net
      reads this`nbr2if
    {
      Net(kind, nbr2if, payload)
    }

    ghost predicate Valid()
      reads this`nbr2if
    {
      WellFormed(Topo()) && Distinct(nodes)
    }

    // A line of the topology file; both ends are up.
    method AddLink(a: NodeId, b: NodeId, atA: Interface, atB: Interface)
      requires Valid() && a in kind && b in kind && atA.up && atB.up
      requires 0 < atA.bw < TWO_64 && 0 < atB.bw < TWO_64
      modifies this`nbr2if
      ensures Valid() && LinkAdded(old(nbr2if), a, b, atA, atB, nbr2if)
      ensures old(Fits(nbr2if, a, b, atA, atB)) ==> DistinctInterfaces(nbr2if)
    {
      AddKeepsShape(Topo(), a, b, atA, atB);
      ghost var before := nbr2if;
      nbr2if := SetLink(nbr2if, a, b, atA);
      nbr2if := SetLink(nbr2if, b, a, atB);
      if Fits(before, a, b, atA, atB) {
        AddKeepsInterfaces(before, a, b, atA, atB, nbr2if);
      }
    }

    method CalculateRoute(host: NodeId)
      requires Valid()
      modifies this`nextHop, this`pairDelay, this`pairTxDelay, this`pairBw
      ensures RoutedFrom(Topo(), host, old(nextHop), nextHop)
      ensures MeasuredFrom(Topo(), host, old(pairDelay), pairDelay, old(pairTxDelay), pairTxDelay, old(pairBw), pairBw)
    {
      var net := Topo();
      nextHop, pairDelay, pairTxDelay, pairBw := RouteFrom(net, host, nextHop, pairDelay, pairTxDelay, pairBw);
      assert Topo() == net;
    }

    // Nothing is recorded yet for any host, as at the start and after nextHop.clear().
    method CalculateRoutes()
      requires Valid()
      requires forall n, h :: Hops(nextHop, n, h) == []
      modifies this`nextHop, this`pairDelay, this`pairTxDelay, this`pairBw
      ensures RoutedTo(Topo(), nodes, nextHop)
      ensures MeasuredTo(Topo(), nodes, old(pairDelay), pairDelay, old(pairTxDelay), pairTxDelay, old(pairBw), pairBw)
    {
      for i := 0 to |nodes|
        invariant Valid() && RoutedTo(Topo(), nodes[..i], nextHop)
        invariant MeasuredTo(Topo(), nodes[..i], old(pairDelay), pairDelay, old(pairTxDelay), pairTxDelay, old(pairBw),
                             pairBw)
      {
        ghost var before, delay, txDelay, bw := nextHop, pairDelay, pairTxDelay, pairBw;
        if nodes[i] in kind && kind[nodes[i]] == Host {
          CalculateRoute(nodes[i]);
        }
        RouteOneMore(Topo(), nodes, i, before, nextHop);
        MeasureOneMore(Topo(), nodes, i, old(pairDelay), delay, pairDelay, old(pairTxDelay), txDelay, pairTxDelay,
                       old(pairBw), bw, pairBw);
      }
      assert nodes[..|nodes|] == nodes;
    }

    method SetRoutingEntries()
      modifies this`rtTable
      ensures forall n, h :: Entries(rtTable, n, h)
                             == Entries(old(rtTable), n, h) + Indices(nbr2if, n, Hops(nextHop, n, h))
      ensures WellFormed(Topo()) && RoutedTo(Topo(), nodes, nextHop) && old(rtTable) == map[] ==>
                RightEntries(Topo(), nodes, rtTable)
    {
      ghost var start := rtTable;
      rtTable := InstallAll(nbr2if, nextHop, rtTable);
      if WellFormed(Topo()) && RoutedTo(Topo(), nodes, nextHop) && start == map[] {
        assert forall n, h :: Entries(start, n, h) == [];
        InstalledIsRight(Topo(), nodes, nextHop, rtTable);
      }
    }

    // Both directions of a link go down.
    method MarkDown(a: NodeId, b: NodeId)
      requires Valid() && Up(nbr2if, a, b)
      modifies this`nbr2if
      ensures Valid() && TakenDown(old(nbr2if), a, b, nbr2if)
      ensures DistinctInterfaces(old(nbr2if)) ==> DistinctInterfaces(nbr2if)
    {
      TakeDownKeepsShape(Topo(), a, b);
      nbr2if := SetDown(nbr2if, a, b);
      nbr2if := SetDown(nbr2if, b, a);
    }

    // The link between a and b fails, and everything is routed again.
    method TakeDownLink(a: NodeId, b: NodeId)
      requires Valid()
      modifies this`nbr2if, this`nextHop, this`pairDelay, this`pairTxDelay, this`pairBw, this`rtTable
      ensures !Up(old(nbr2if), a, b) ==> nbr2if == Touch(old(nbr2if), a, b) && unchanged(this`nextHop)
                                         && unchanged(this`rtTable) && unchanged(this`pairDelay)
                                         && unchanged(this`pairTxDelay) && unchanged(this`pairBw)
                                         && SameLinks(old(nbr2if), nbr2if)
      ensures Up(old(nbr2if), a, b) ==> Valid() && TakenDown(old(nbr2if), a, b, nbr2if)
                                        && RoutedTo(Topo(), nodes, nextHop)
                                        && MeasuredTo(Topo(), nodes, old(pairDelay), pairDelay, old(pairTxDelay),
                                                      pairTxDelay, old(pairBw), pairBw)
      ensures Up(old(nbr2if), a, b) ==>
        forall n, h :: Entries(rtTable, n, h) == Indices(nbr2if, n, Hops(nextHop, n, h))
      ensures Up(old(nbr2if), a, b) ==> RightEntries(Topo(), nodes, rtTable)
      ensures DistinctInterfaces(old(nbr2if)) ==> DistinctInterfaces(nbr2if)
    {
      TouchKeepsLinks(nbr2if, a, b);
      nbr2if := Touch(nbr2if, a, b);
      if !nbr2if[a][b].up {
        return;
      }
      MarkDown(a, b);
      nextHop := map[];
      CalculateRoutes();
      rtTable := map[];
      SetRoutingEntries();
    }
  }
}
