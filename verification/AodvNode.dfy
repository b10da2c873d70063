/** The handlers of one AODV node.

    This is class RoutingProtocol of aodv-routing-protocol.cc, with the routing table operations of
    aodv-rtable.cc that it uses. Each handler is proved against what it does to the routes of the table and to
    the rest of its state, and against everything that it hands to a socket. The RecvAodv methods connect a
    node to the network-wide steps of LoopFreedom.

    Times, the receiving device and the sender of a message are parameters. */
module AodvNode {
  import opened Common
  import opened AodvTable
  import opened IdCaches
  import Discovery
  import Flood
  import LoopFreedom

  // ----- The routing table -----

  // A RoutingTableEntry. dev stands for its device and interface; lifeTime is the moment it expires.
  datatype Entry = Entry(dst: Address, route: Route, rreqCnt: nat, lifeTime: int, unidirectional: bool,
                         precursors: seq<Address>, dev: nat)

  type Table = map<Address, Entry>

  // The entry that a lookup leaves untouched when it finds nothing.
  const NO_ENTRY := Entry(UNSET, Route(false, 0, 0, UNSET, VALID), 0, 0, false, [], 0)

  function Lookup(t: Table, a: Address): Entry {
    if a in t then t[a] else NO_ENTRY
  }

  // A node from which no request is taken.
  predicate Blacklisted(t: Table, a: Address) {
    a in t && t[a].unidirectional
  }

  function WithoutCount(e: Entry): Entry {
    if e.route.flag != IN_SEARCH then e.(rreqCnt := 0) else e
  }

  // RoutingTable::Update
  function Update(t: Table, e: Entry): Table {
    if e.dst in t then t[e.dst := WithoutCount(e)] else t
  }

  // RoutingTable::AddRoute
  function AddRoute(t: Table, e: Entry): Table {
    if e.dst in t then t else t[e.dst := WithoutCount(e)]
  }

  function InsertPrecursor(e: Entry, id: Address): Entry {
    if id in e.precursors then e else e.(precursors := e.precursors + [id])
  }

  // An entry that is there stays, and no precursor is listed twice.
  lemma InsertingKeeps(t: Table, e: Entry, id: Address)
    ensures e.dst in t ==> AddRoute(t, e) == t
    ensures Distinct(e.precursors) ==> Distinct(InsertPrecursor(e, id).precursors)
    ensures forall p :: p in InsertPrecursor(e, id).precursors <==> p == id || p in e.precursors
  {
  }

  // What the table says about forwarding.
  function Routes(t: Table): map<Address, Route> {
    map a | a in t :: t[a].route
  }

  function RouteIn(routes: map<Address, Route>, a: Address): Option<Route> {
    if a in routes then Some(routes[a]) else None
  }

  // Entries are stored under their own destination, and nothing is stored for the unset address.
  ghost predicate Keyed(t: Table) {
    UNSET !in t && forall a :: a in t ==> t[a].dst == a
  }

  // Nothing but the entry of a differs.
  ghost predicate OnlyAt(t: Table, t': Table, a: Address) {
    t' - {a} == t - {a}
  }

  function Max(a: int, b: int): int {
    if a < b then b else a
  }

  // When the entry for a expires at the earliest.
  function Expiry(t: Table, a: Address, lifeTime: int): (x: int)
    ensures lifeTime <= x && (a in t ==> t[a].lifeTime <= x)
    ensures x == lifeTime || (a in t && x == t[a].lifeTime)
  {
    if a in t then Max(lifeTime, t[a].lifeTime) else lifeTime
  }

  // The entry for a, which is not searched, lives on.
  function Refresh(t: Table, a: Address, lifeTime: int): Table
    requires a in t
  {
    t[a := t[a].(lifeTime := Expiry(t, a, lifeTime), rreqCnt := 0)]
  }

  lemma WriteRoute(t: Table, e: Entry)
    requires Keyed(t) && e.dst != UNSET
    ensures Keyed(Update(AddRoute(t, e), e))
    ensures Routes(Update(AddRoute(t, e), e)) == Routes(t)[e.dst := e.route]
    ensures e.dst in t ==> Keyed(Update(t, e)) && Routes(Update(t, e)) == Routes(t)[e.dst := e.route]
    ensures e.dst !in t ==> Keyed(AddRoute(t, e)) && Routes(AddRoute(t, e)) == Routes(t)[e.dst := e.route]
  {
  }

  // Updating lifetimes or precursors leaves all routes alone.
  lemma TouchEntry(t: Table, e: Entry)
    requires Keyed(t) && (e.dst in t ==> e.route == t[e.dst].route)
    ensures Keyed(Update(t, e)) && Routes(Update(t, e)) == Routes(t)
  {
  }

  // e' is e with more precursors; Update also resets the count of an entry that is not searched.
  ghost predicate Grown(e: Entry, e': Entry) {
    e' == e.(precursors := e'.precursors, rreqCnt := e'.rreqCnt) && forall p :: p in e.precursors ==> p in e'.precursors
  }

  ghost predicate PrecursorsGrow(t: Table, t': Table) {
    t'.Keys == t.Keys && forall a :: a in t ==> Grown(t[a], t'[a])
  }

  predicate HasPrecursor(t: Table, a: Address, id: Address) {
    a in t && id in t[a].precursors
  }

  // The next hops of dst and origin are precursors of each other's entries and, where there are entries for them,
  // of each other. When origin is the next hop to dst, the last of these is lost: the code has looked the entry of
  // origin up before it is inserted, and writes it back afterwards.
  ghost predicate Linked(t: Table, t': Table, dst: Address, origin: Address)
    requires dst in t && origin in t
  {
    var viaDst, viaOrigin := t[dst].route.nextHop, t[origin].route.nextHop;
    && HasPrecursor(t', dst, viaOrigin) && HasPrecursor(t', origin, viaDst)
    && (viaOrigin in t ==> HasPrecursor(t', viaOrigin, viaDst))
    && (viaDst in t && viaDst != origin ==> HasPrecursor(t', viaDst, viaOrigin))
  }

  function AddPrecursor(t: Table, a: Address, id: Address): Table {
    Update(t, InsertPrecursor(Lookup(t, a), id))
  }

  // The table after the last part of RecvReply.
  function Link(t: Table, dst: Address, origin: Address): Table
    requires dst in t && origin in t
  {
    var viaDst, viaOrigin := t[dst].route.nextHop, t[origin].route.nextHop;
    var t1 := AddPrecursor(t, dst, viaOrigin);
    var t2 := AddPrecursor(t1, viaDst, viaOrigin);
    var t3 := Update(t2, InsertPrecursor(t[origin], viaDst));
    AddPrecursor(t3, viaOrigin, viaDst)
  }

  // An entry e that has grown since t is written.
  lemma GrowOne(t: Table, t': Table, e: Entry)
    requires Keyed(t) && Keyed(t') && PrecursorsGrow(t, t') && (e.dst in t ==> Grown(t[e.dst], e))
    ensures Keyed(Update(t', e)) && PrecursorsGrow(t, Update(t', e))
    ensures forall p :: e.dst in t && p in e.precursors ==> HasPrecursor(Update(t', e), e.dst, p)
    ensures forall a, p :: a != e.dst && HasPrecursor(t', a, p) ==> HasPrecursor(Update(t', e), a, p)
  {
  }

  lemma AddGrows(t: Table, t': Table, a: Address, id: Address)
    requires Keyed(t) && Keyed(t') && PrecursorsGrow(t, t')
    ensures Keyed(AddPrecursor(t', a, id)) && PrecursorsGrow(t, AddPrecursor(t', a, id))
    ensures a in t ==> HasPrecursor(AddPrecursor(t', a, id), a, id)
    ensures forall b, p :: HasPrecursor(t', b, p) ==> HasPrecursor(AddPrecursor(t', a, id), b, p)
  {
    GrowOne(t, t', InsertPrecursor(Lookup(t', a), id));
  }

  lemma SameRoutes(t: Table, t': Table)
    requires PrecursorsGrow(t, t')
    ensures Routes(t') == Routes(t)
  {
    assert forall a :: a in t ==> Grown(t[a], t'[a]);
  }

  lemma LinkLinks(t: Table, dst: Address, origin: Address)
    requires Keyed(t) && dst in t && origin in t && dst != origin
    ensures Keyed(Link(t, dst, origin)) && PrecursorsGrow(t, Link(t, dst, origin))
    ensures Linked(t, Link(t, dst, origin), dst, origin) && Routes(Link(t, dst, origin)) == Routes(t)
  {
    var viaDst, viaOrigin := t[dst].route.nextHop, t[origin].route.nextHop;
    var t1 := AddPrecursor(t, dst, viaOrigin);
    var t2 := AddPrecursor(t1, viaDst, viaOrigin);
    var t3 := Update(t2, InsertPrecursor(t[origin], viaDst));
    AddGrows(t, t, dst, viaOrigin);
    AddGrows(t, t1, viaDst, viaOrigin);
    GrowOne(t, t2, InsertPrecursor(t[origin], viaDst));
    AddGrows(t, t3, viaOrigin, viaDst);
    SameRoutes(t, Link(t, dst, origin));
  }

  // The precursor is lost unless it was there before, or is the origin itself.
  lemma LinkLosesIff(t: Table, dst: Address, origin: Address)
    requires Keyed(t) && dst in t && origin in t && dst != origin && t[dst].route.nextHop == origin
    ensures var viaOrigin := t[origin].route.nextHop;
            HasPrecursor(Link(t, dst, origin), origin, viaOrigin)
            <==> viaOrigin in t[origin].precursors || viaOrigin == origin
  {
  }

  // A table that loses it: the way to the destination goes over the origin, and the way to the origin over a third
  // node.
  lemma PrecursorIsLost(dst: Address, origin: Address, via: Address)
    requires Distinct([UNSET, dst, origin, via])
    ensures var t := map[dst := Entry(dst, Route(true, 5, 2, origin, VALID), 0, 0, false, [], 0),
                         origin := Entry(origin, Route(true, 3, 2, via, VALID), 0, 0, false, [], 0)];
            Keyed(t) && !HasPrecursor(Link(t, dst, origin), origin, via)
  {
    var all := [UNSET, dst, origin, via];
    assert all[0] != all[1] && all[0] != all[2] && all[1] != all[2] && all[2] != all[3];
    var t := map[dst := Entry(dst, Route(true, 5, 2, origin, VALID), 0, 0, false, [], 0),
                 origin := Entry(origin, Route(true, 3, 2, via, VALID), 0, 0, false, [], 0)];
    LinkLosesIff(t, dst, origin);
  }

  // The table after an answer of an intermediate node.
  function Answered(t: Table, toDst: Entry, toOrigin: Entry): Table {
    Update(Update(t, InsertPrecursor(toDst, toOrigin.route.nextHop)), InsertPrecursor(toOrigin, toDst.route.nextHop))
  }

  lemma AnsweredLinks(t: Table, toDst: Entry, toOrigin: Entry)
    requires Keyed(t) && toDst.dst in t && toOrigin.dst in t
    requires toDst == t[toDst.dst] && toOrigin == t[toOrigin.dst]
    ensures var t' := Answered(t, toDst, toOrigin);
            && Keyed(t') && PrecursorsGrow(t, t') && Routes(t') == Routes(t)
            && HasPrecursor(t', toOrigin.dst, toDst.route.nextHop)
            && (toDst.dst != toOrigin.dst ==> HasPrecursor(t', toDst.dst, toOrigin.route.nextHop))
  {
    var toDst' := InsertPrecursor(toDst, toOrigin.route.nextHop);
    GrowOne(t, t, toDst');
    GrowOne(t, Update(t, toDst'), InsertPrecursor(toOrigin, toDst.route.nextHop));
    SameRoutes(t, Answered(t, toDst, toOrigin));
  }

  // ----- Messages -----

  datatype Rreq = Rreq(id: nat, dst: Address, dstSeqNo: nat, unknownSeqNo: bool, destinationOnly: bool,
                       gratuitous: bool, origin: Address, originSeqNo: nat, hopCount: nat)

  datatype Rrep = Rrep(dst: Address, dstSeqNo: nat, hopCount: nat, origin: Address, lifeTime: int, ackRequired: bool)

  datatype Sent =
    | BroadcastRreq(from: Address, rreq: Rreq)
    | UnicastRrep(rrep: Rrep, to: Address)
    | UnicastAck(to: Address)

  // The same request on every interface.
  function OnAll(own: seq<Address>, h: Rreq): (s: seq<Sent>)
    ensures |s| == |own|
  {
    seq(|own|, i requires 0 <= i < |own| => BroadcastRreq(own[i], h))
  }

  // As above, with the interface's own address as the origin.
  function OnAllAsOrigin(own: seq<Address>, h: Rreq): (s: seq<Sent>)
    ensures |s| == |own|
  {
    seq(|own|, i requires 0 <= i < |own| => BroadcastRreq(own[i], h.(origin := own[i])))
  }

  // ----- What becomes of a request that is new to the node -----

  datatype Reaction =
    | AnswerAsDestination
    | DropIt
    | AnswerFromTable
    | PassOn(rreq: Rreq)

  // h is the request with its hop count incremented; routes already has the reverse route.
  function React(own: seq<Address>, routes: map<Address, Route>, h: Rreq, src: Address): Reaction {
    if h.dst in own then AnswerAsDestination
    else if h.dst !in routes then PassOn(h)
    else
      var r := routes[h.dst];
      if r.nextHop == src then DropIt  // an answer of this node would make a loop
      else if (h.unknownSeqNo || NotOlder(r.seqNo, h.dstSeqNo)) && r.validSeqNo then
        if !h.destinationOnly && r.flag == VALID then AnswerFromTable
        else PassOn(h.(dstSeqNo := r.seqNo, unknownSeqNo := false))
      else PassOn(h)
  }

  // Where a reply goes on to, when the node has a route to the one who asked.
  function Onward(routes: map<Address, Route>, h: Rrep): seq<Sent> {
    if h.origin in routes && routes[h.origin].flag != IN_SEARCH then [UnicastRrep(h, routes[h.origin].nextHop)] else []
  }

  function RoutesAfterReply(own: seq<Address>, routes: map<Address, Route>, h: Rrep, sender: Address)
    : map<Address, Route>
  {
    var hop := (h.hopCount + 1) % 256;
    routes[h.dst := if h.origin in own then AcceptReplyAtOrigin(RouteIn(routes, h.dst), h.dstSeqNo, hop, sender)
                    else AcceptReply(RouteIn(routes, h.dst), h.dstSeqNo, hop, sender)]
  }

  // The table when a reply has gone on, if it does: the route to its origin lives on, and precursors are linked.
  function PassedOn(t: Table, h: Rrep, lifeTime: int): Table {
    if Onward(Routes(t), h) == [] then t
    else
      var t1 := Refresh(t, h.origin, lifeTime);
      if h.dst in t1 && t1[h.dst].route.flag == VALID then Link(t1, h.dst, h.origin) else t1
  }

  // The table after a reply that offers the entry e.
  function TableAfterReply(own: seq<Address>, t: Table, h: Rrep, e: Entry, lifeTime: int): Table {
    var asked := h.origin in own;
    var takes := Adopts(RouteIn(Routes(t), h.dst), e.route.seqNo, e.route.hop)
                 || (asked && Lookup(t, h.dst).route.flag == IN_SEARCH);
    var adopted := if takes then t[h.dst := e] else t;
    if asked then adopted else PassedOn(adopted, h, lifeTime)
  }

  // The entry that a reply offers.
  function Offered(h: Rrep, dev: nat, sender: Address, now: int): Entry {
    Entry(h.dst, Route(true, h.dstSeqNo, (h.hopCount + 1) % 256, sender, VALID), 0, now + h.lifeTime, false, [], dev)
  }

  // A route that a reply brings is over its device and lives as long as the reply says, and is not blacklisted.
  lemma OfferIsKept(own: seq<Address>, t: Table, h: Rrep, dev: nat, sender: Address, now: int, lifeTime: int)
    requires Keyed(t) && h.dst != UNSET && h.dst != h.origin
    ensures var t' := TableAfterReply(own, t, h, Offered(h, dev, sender, now), lifeTime);
            RouteIn(Routes(t'), h.dst) == RouteIn(Routes(t), h.dst)
            || (h.dst in t' && t'[h.dst].lifeTime == now + h.lifeTime && t'[h.dst].dev == dev
                && !t'[h.dst].unidirectional)
  {
    var e := Offered(h, dev, sender, now);
    WriteRoute(t, e);
    KeepsRest(t, h, lifeTime);
    KeepsRest(t[h.dst := e], h, lifeTime);
  }

  // Passing the reply on leaves of its destination's entry all but the precursors and the count.
  lemma KeepsRest(t: Table, h: Rrep, lifeTime: int)
    requires Keyed(t) && h.dst != h.origin
    ensures PassedOn(t, h, lifeTime).Keys == t.Keys
    ensures h.dst in t ==> Grown(t[h.dst], PassedOn(t, h, lifeTime)[h.dst])
  {
    if Onward(Routes(t), h) != [] {
      var t1 := Refresh(t, h.origin, lifeTime);
      if h.dst in t1 && t1[h.dst].route.flag == VALID {
        LinkLinks(t1, h.dst, h.origin);
      }
    }
  }

  // What is handed to the sockets after a reply.
  function SentAfterReply(own: seq<Address>, routes: map<Address, Route>, h: Rrep, sender: Address): seq<Sent> {
    (if h.ackRequired then [UnicastAck(sender)] else [])
    + if h.origin in own then [] else Onward(routes, h.(hopCount := (h.hopCount + 1) % 256, ackRequired := false))
  }

  // The replies of SendReplyByIntermediateNode: one to the origin and, if gratuitous, one to the destination.
  function TableReplies(toDst: Entry, toOrigin: Entry, gratuitous: bool, now: int): seq<Sent> {
    [UnicastRrep(Rrep(toDst.dst, toDst.route.seqNo, toDst.route.hop % 256, toOrigin.dst, toDst.lifeTime - now,
                      toDst.route.hop == 1),
                 toOrigin.route.nextHop)]
    + if gratuitous
      then [UnicastRrep(Rrep(toOrigin.dst, toOrigin.route.seqNo, toOrigin.route.hop % 256, toDst.dst,
                             toOrigin.lifeTime - now, false),
                        toDst.route.nextHop)]
      else []
  }

  // The request that SendRequest makes for dst.
  function RequestFor(routes: map<Address, Route>, dst: Address, seqNo: nat, id: nat, destinationOnly: bool,
                      gratuitous: bool): Rreq {
    var known := dst in routes && routes[dst].validSeqNo;
    Rreq(id, dst, if known then routes[dst].seqNo else 0, !known, destinationOnly, gratuitous, UNSET, seqNo, 0)
  }

  function RoutesAfterRequest(routes: map<Address, Route>, h: Rreq, src: Address): map<Address, Route> {
    routes[h.origin := AcceptRequest(RouteIn(routes, h.origin), h.originSeqNo, h.hopCount, src)]
  }

  // What is handed to the sockets in reaction to a request.
  ghost predicate SentFor(own: seq<Address>, t: Table, h: Rreq, src: Address, seqNo: nat, myRouteTimeout: int, now: int,
                          out: seq<Sent>)
    requires h.origin in t
  {
    match React(own, Routes(t), h, src)
    case AnswerAsDestination =>
      out == [UnicastRrep(Rrep(h.dst, seqNo, 0, h.origin, myRouteTimeout, false), t[h.origin].route.nextHop)]
    case DropIt => out == []
    case PassOn(rreq) => out == OnAll(own, rreq)
    case AnswerFromTable => out == TableReplies(t[h.dst], t[h.origin], h.gratuitous, now)
  }

  // What SendRequest asks on an interface: with its own new number and no hops yet, and with the number of the last
  // route to dst, if one is known.
  ghost predicate AsksFor(m: Sent, iface: Address, routes: map<Address, Route>, dst: Address, seqNo: nat, id: nat,
                          destinationOnly: bool, gratuitous: bool) {
    && m.BroadcastRreq? && m.from == iface && m.rreq.origin == iface && m.rreq.dst == dst && m.rreq.id == id
    && m.rreq.originSeqNo == seqNo && m.rreq.hopCount == 0
    && m.rreq.destinationOnly == destinationOnly && m.rreq.gratuitous == gratuitous
    && (m.rreq.unknownSeqNo <==> !LoopFreedom.KnowsSeqNo(RouteIn(routes, dst)))
    && (!m.rreq.unknownSeqNo ==> m.rreq.dstSeqNo == routes[dst].seqNo)
  }

  ghost predicate AsksOnAll(out: seq<Sent>, own: seq<Address>, routes: map<Address, Route>, dst: Address, seqNo: nat,
                            id: nat, destinationOnly: bool, gratuitous: bool) {
    && |out| == |own|
    && forall i :: 0 <= i < |own| ==> AsksFor(out[i], own[i], routes, dst, seqNo, id, destinationOnly, gratuitous)
  }

  lemma RequestAsks(own: seq<Address>, routes: map<Address, Route>, dst: Address, seqNo: nat, id: nat,
                    destinationOnly: bool, gratuitous: bool, before: seq<Sent>, after: seq<Sent>)
    requires after == before + OnAllAsOrigin(own, RequestFor(routes, dst, seqNo, id, destinationOnly, gratuitous))
    ensures AsksOnAll(after[|before|..], own, routes, dst, seqNo, id, destinationOnly, gratuitous)
  {
    var out := OnAllAsOrigin(own, RequestFor(routes, dst, seqNo, id, destinationOnly, gratuitous));
    assert after[|before|..] == out;
  }

  // A reply that comes along the reverse route of a flood is acknowledged if it asks for that, and passed on along the
  // route, one hop farther, until it has come to the origin.
  lemma ReplyTravelsBack(s: Flood.State, origin: Address, n: Address, p: seq<Address>, i: nat, own: seq<Address>,
                         routes: map<Address, Route>, h: Rrep)
    requires Flood.LeadsBack(origin, s, n, p) && 0 < i < |p| && h.origin == origin && (origin in own <==> i == |p| - 1)
    requires i < |p| - 1 ==> RouteIn(routes, origin) == Some(s.reverse[p[i]]) && s.reverse[p[i]].flag != IN_SEARCH
    ensures var ack := if h.ackRequired then [UnicastAck(p[i - 1])] else [];
            var onward := h.(hopCount := (h.hopCount + 1) % 256, ackRequired := false);
            SentAfterReply(own, routes, h, p[i - 1])
            == if i < |p| - 1 then ack + [UnicastRrep(onward, p[i + 1])] else ack
  {
  }

  // ----- Which requests are answered, by the age of sequence numbers -----

  // The number of a route to the destination of the request, if one is known.
  ghost predicate KnowsOf(t: Table, h: Rreq) {
    h.dst in t && t[h.dst].route.validSeqNo
  }

  // The request asks for no younger number than that of the known route.
  ghost predicate YoungEnough(base: nat, t: Table, h: Rreq) {
    KnowsOf(t, h) && (h.unknownSeqNo || Since(base, h.dstSeqNo) <= Since(base, t[h.dst].route.seqNo))
  }

  // An entry that may be used for the answer: not through the sender, and the request lets others answer.
  ghost predicate MayAnswer(base: nat, t: Table, h: Rreq, src: Address) {
    && YoungEnough(base, t, h) && t[h.dst].route.flag == VALID
    && t[h.dst].route.nextHop != src && !h.destinationOnly
  }

  ghost predicate LeadsBack(t: Table, h: Rreq, src: Address) {
    h.dst in t && t[h.dst].route.nextHop == src
  }

  // A reply about dst.
  predicate IsReplyAbout(m: Sent, dst: Address) {
    m.UnicastRrep? && m.rrep.dst == dst
  }

  // Nothing that is sent for dst names a number that is older than one the request knows.
  ghost predicate NamesNothingOlder(base: nat, h: Rreq, out: seq<Sent>) {
    !h.unknownSeqNo ==> forall m :: m in out ==>
      && (IsReplyAbout(m, h.dst) ==> Since(base, m.rrep.dstSeqNo) >= Since(base, h.dstSeqNo))
      && (m.BroadcastRreq? ==> !m.rreq.unknownSeqNo && Since(base, m.rreq.dstSeqNo) >= Since(base, h.dstSeqNo))
  }

  // The answer from the table goes to the next hop of the reverse route, and a gratuitous one to that of the route.
  ghost predicate AnswersAbout(t: Table, h: Rreq, now: int, out: seq<Sent>)
    requires h.dst in t && h.origin in t
  {
    && |out| == (if h.gratuitous then 2 else 1)
    && TellsAbout(out[0], t[h.dst], h.dst, h.origin, t[h.origin].route.nextHop, now)
    && (out[0].rrep.ackRequired <==> t[h.dst].route.hop == 1)
    && (h.gratuitous ==> TellsAbout(out[1], t[h.origin], h.origin, h.dst, t[h.dst].route.nextHop, now)
                         && !out[1].rrep.ackRequired)
  }

  // A reply to a node tells origin what the entry says about dst.
  ghost predicate TellsAbout(m: Sent, e: Entry, dst: Address, origin: Address, to: Address, now: int) {
    && IsReplyAbout(m, dst) && m.to == to && m.rrep.origin == origin
    && m.rrep.dstSeqNo == e.route.seqNo && m.rrep.hopCount == e.route.hop % 256 && m.rrep.lifeTime == e.lifeTime - now
  }

  // The request goes on, on every interface, with the younger of the two numbers if both are known.
  ghost predicate GoesOn(base: nat, own: seq<Address>, t: Table, h: Rreq, out: seq<Sent>) {
    |out| == |own| && forall i :: 0 <= i < |own| ==> GoesOnAs(base, t, h, own[i], out[i])
  }

  ghost predicate GoesOnAs(base: nat, t: Table, h: Rreq, iface: Address, m: Sent) {
    && m.BroadcastRreq? && m.from == iface
    && m.rreq == h.(dstSeqNo := m.rreq.dstSeqNo, unknownSeqNo := m.rreq.unknownSeqNo)
    && (m.rreq.unknownSeqNo <==> h.unknownSeqNo && !KnowsOf(t, h))
    && (m.rreq.dstSeqNo == h.dstSeqNo || (KnowsOf(t, h) && m.rreq.dstSeqNo == t[h.dst].route.seqNo))
    && (!h.unknownSeqNo ==> Since(base, m.rreq.dstSeqNo) >= Since(base, h.dstSeqNo))
    && (KnowsOf(t, h) && h.unknownSeqNo ==> m.rreq.dstSeqNo == t[h.dst].route.seqNo)
    && (KnowsOf(t, h) ==> Since(base, m.rreq.dstSeqNo) >= Since(base, t[h.dst].route.seqNo))
  }

  // The numbers that are compared lie in a window.
  ghost predicate Comparable(base: nat, t: Table, h: Rreq, seqNo: nat) {
    && base < TWO_32 && InWindow(base, seqNo) && (!h.unknownSeqNo ==> InWindow(base, h.dstSeqNo))
    && (KnowsOf(t, h) ==> InWindow(base, t[h.dst].route.seqNo))
  }

  // What is sent for a request that is new to the node, whose own number was seqNo: the destination answers; another
  // node drops it, answers it, or passes it on.
  ghost predicate TreatedByAge(base: nat, own: seq<Address>, t: Table, h: Rreq, src: Address, seqNo: nat, now: int,
                               out: seq<Sent>)
    requires h.origin in t
  {
    if h.dst in own then
      && |out| == 1 && IsReplyAbout(out[0], h.dst) && out[0].to == t[h.origin].route.nextHop
      && out[0].rrep.origin == h.origin && out[0].rrep.hopCount == 0
      && (Since(base, h.dstSeqNo) <= Since(base, seqNo) + 1 ==> NamesNothingOlder(base, h, out))
    else
      && NamesNothingOlder(base, h, out)
      && ((exists m :: m in out && IsReplyAbout(m, h.dst)) <==> MayAnswer(base, t, h, src))
      && (MayAnswer(base, t, h, src) ==> AnswersAbout(t, h, now, out))
      && (LeadsBack(t, h, src) ==> out == [])
      && (!MayAnswer(base, t, h, src) && !LeadsBack(t, h, src) ==> GoesOn(base, own, t, h, out))
  }

  lemma DestinationTreats(base: nat, own: seq<Address>, t: Table, h: Rreq, src: Address, seqNo: nat, seqNo': nat,
                          myRouteTimeout: int, now: int, out: seq<Sent>)
    requires h.origin in t && Comparable(base, t, h, seqNo) && h.dst in own
    requires SentFor(own, t, h, src, seqNo', myRouteTimeout, now, out)
    requires seqNo' == ReplySeqNo(seqNo, h.unknownSeqNo, h.dstSeqNo)
    ensures TreatedByAge(base, own, t, h, src, seqNo, now, out)
  {
    ReplySeqNoByAge(base, seqNo, h.unknownSeqNo, h.dstSeqNo);
  }

  lemma OtherTreats(base: nat, own: seq<Address>, t: Table, h: Rreq, src: Address, seqNo: nat, seqNo': nat,
                    myRouteTimeout: int, now: int, out: seq<Sent>)
    requires Keyed(t) && h.origin in t && Comparable(base, t, h, seqNo) && h.dst !in own
    requires SentFor(own, t, h, src, seqNo', myRouteTimeout, now, out)
    ensures TreatedByAge(base, own, t, h, src, seqNo, now, out)
  {
    if KnowsOf(t, h) && !h.unknownSeqNo {
      NewerIsLater(base, t[h.dst].route.seqNo, h.dstSeqNo);
    }
    if MayAnswer(base, t, h, src) {
      assert out == TableReplies(t[h.dst], t[h.origin], h.gratuitous, now);
      assert out[0] in out;
    } else if !LeadsBack(t, h, src) {
      var rreq := React(own, Routes(t), h, src).rreq;
      assert out == OnAll(own, rreq);
      assert forall m :: m in out ==> m.BroadcastRreq? && m.rreq == rreq;
    }
  }

  lemma TreatsByAge(own: seq<Address>, t: Table, h: Rreq, src: Address, seqNo: nat, seqNo': nat,
                    myRouteTimeout: int, now: int, out: seq<Sent>)
    requires Keyed(t) && h.origin in t && SentFor(own, t, h, src, seqNo', myRouteTimeout, now, out)
    requires seqNo' == if h.dst in own then ReplySeqNo(seqNo, h.unknownSeqNo, h.dstSeqNo) else seqNo
    ensures TreatsRight(own, t, h, src, seqNo, now, out)
  {
    forall base | Comparable(base, t, h, seqNo)
      ensures TreatedByAge(base, own, t, h, src, seqNo, now, out)
    {
      if h.dst in own {
        DestinationTreats(base, own, t, h, src, seqNo, seqNo', myRouteTimeout, now, out);
      } else {
        OtherTreats(base, own, t, h, src, seqNo, seqNo', myRouteTimeout, now, out);
      }
    }
  }

  // Wherever the numbers are comparable.
  ghost predicate TreatsRight(own: seq<Address>, t: Table, h: Rreq, src: Address, seqNo: nat, now: int, out: seq<Sent>)
    requires h.origin in t
  {
    forall base :: Comparable(base, t, h, seqNo) ==> TreatedByAge(base, own, t, h, src, seqNo, now, out)
  }

  // New precursors make no difference to it.
  lemma SentForGrown(own: seq<Address>, t: Table, t': Table, h: Rreq, src: Address, seqNo: nat, myRouteTimeout: int,
                     now: int, out: seq<Sent>)
    requires h.origin in t && PrecursorsGrow(t, t') && SentFor(own, t, h, src, seqNo, myRouteTimeout, now, out)
    ensures SentFor(own, t', h, src, seqNo, myRouteTimeout, now, out)
  {
    SameRoutes(t, t');
    assert Grown(t[h.origin], t'[h.origin]) && (h.dst in t ==> Grown(t[h.dst], t'[h.dst]));
  }

  // postponed if the rate limit held the retry up
  datatype TimerOutcome = RouteFound | GaveUp | Retried(postponed: bool)

  // SendRequest is called, or the rate timer expires.
  datatype Call = Call(expires: bool, dst: Address, time: int)

  function Kinds(calls: seq<Call>): (kinds: seq<Discovery.Event>)
    ensures |kinds| == |calls|
  {
    seq(|calls|, i requires 0 <= i < |calls| => if calls[i].expires then Discovery.Expire else Discovery.Ask)
  }

  // The rest of a searched entry is as it was; a new one expires at once.
  ghost predicate KeptOrNew(t: Table, e: Entry, now: int) {
    if e.dst in t then e == t[e.dst].(route := e.route, rreqCnt := e.rreqCnt)
    else e.lifeTime == now && e.precursors == [] && !e.unidirectional
  }

  // The entry for dst is searched, with the numbers and the count it had, or a new one.
  ghost predicate Marked(t: Table, t': Table, dst: Address, now: int) {
    && dst in t' && OnlyAt(t, t', dst) && t'[dst].dst == dst && KeptOrNew(t, t'[dst], now)
    && Routes(t') == Routes(t)[dst := BeginSearch(RouteIn(Routes(t), dst))]
    && t'[dst].rreqCnt == Lookup(t, dst).rreqCnt
  }

  // What a request for dst leaves in the table: a searched entry that counts it.
  ghost predicate Requested(t: Table, t': Table, dst: Address, now: int) {
    && dst in t' && OnlyAt(t, t', dst) && t'[dst].dst == dst && KeptOrNew(t, t'[dst], now)
    && Routes(t') == Routes(t)[dst := BeginSearch(RouteIn(Routes(t), dst))]
    && t'[dst].rreqCnt == (Lookup(t, dst).rreqCnt + 1) % 256
  }

  ghost predicate Counted(t: Table, t': Table, dst: Address) {
    && dst in t && dst in t' && t'[dst].rreqCnt == (t[dst].rreqCnt + 1) % 256
    && t' == t[dst := t[dst].(rreqCnt := t'[dst].rreqCnt)]
  }

  lemma CountSearched(t: Table, marked: Table, t': Table, dst: Address, now: int)
    requires Marked(t, marked, dst, now) && Counted(marked, t', dst)
    ensures Requested(t, t', dst, now)
  {
    assert Routes(t') == Routes(marked);
  }

  // ----- Steps of the network-wide system -----

  // The entry for a uses that device.
  predicate OverDevice(t: Table, a: Address, dev: nat) {
    a in t && t[a].dev == dev
  }

  // What a message of a does to the route to a when it is not about that route.
  ghost predicate JustHeard(t: Table, t': Table, a: Address, dev: nat, ack: bool) {
    RouteIn(Routes(t'), a)
    == Some(LoopFreedom.AfterHearing(RouteIn(Routes(t), a), a, OverDevice(t, a, dev), ack))
  }

  ghost predicate NoOther(t: Table, t': Table, changed: set<Address>) {
    forall a :: a !in changed ==> RouteIn(Routes(t'), a) == RouteIn(Routes(t), a)
  }

  // From t to t1 the route to the sender is refreshed, and to t2 its reply is received.
  lemma ReplyMakesStep(own: seq<Address>, t: Table, t1: Table, t2: Table, h: Rrep, sender: Address, dev: nat)
    requires Routes(t1) == Routes(t)[
               sender := RefreshNeighbour(RouteIn(Routes(t), sender), sender, OverDevice(t, sender, dev))]
    requires Routes(t2) == if h.dst == h.origin
                           then Routes(t1)[h.dst := AcceptHello(RouteIn(Routes(t1), h.dst), h.dst, h.dstSeqNo)]
                           else RoutesAfterReply(own, Routes(t1), h, sender)
    ensures MakesReplyStep(t, t2, h, sender, dev, h.origin in own)
  {
    var prior := RouteIn(Routes(t), h.dst);
    assert RouteIn(Routes(t1), h.dst) == LoopFreedom.Heard(prior, h.dst, sender, OverDevice(t, sender, dev));
  }

  ghost predicate MakesReplyStep(t: Table, t': Table, h: Rrep, sender: Address, dev: nat, asked: bool) {
    var prior, same := RouteIn(Routes(t), h.dst), OverDevice(t, sender, dev);
    var m := LoopFreedom.Advert(sender, h.dstSeqNo, h.hopCount);
    && (h.dst != h.origin ==>
          RouteIn(Routes(t'), h.dst) == Some(LoopFreedom.AfterReply(prior, h.dst, m, same, asked)))
    && (h.dst == h.origin == sender ==>
          RouteIn(Routes(t'), h.dst) == Some(LoopFreedom.AfterHello(prior, h.dst, h.dstSeqNo, same)))
    && (sender != h.dst ==> JustHeard(t, t', sender, dev, false))
    && NoOther(t, t', {sender, h.dst})
  }

  // From t to t1 the route to the sender is refreshed, and that is all, or to t2 its request sets the reverse route.
  lemma RequestMakesStep(t: Table, t1: Table, t2: Table, h: Rreq, sender: Address, dev: nat)
    requires Routes(t1) == Routes(t)[
               sender := RefreshNeighbour(RouteIn(Routes(t), sender), sender, OverDevice(t, sender, dev))]
    ensures OnlyHeard(t, t1, sender, dev)
    ensures Routes(t2) == RoutesAfterRequest(Routes(t1), h.(hopCount := (h.hopCount + 1) % 256), sender) ==>
              MakesRequestStep(t, t2, h, sender, dev)
  {
    assert RouteIn(Routes(t1), h.origin)
           == LoopFreedom.Heard(RouteIn(Routes(t), h.origin), h.origin, sender, OverDevice(t, sender, dev));
  }

  ghost predicate OnlyHeard(t: Table, t': Table, sender: Address, dev: nat) {
    JustHeard(t, t', sender, dev, false) && NoOther(t, t', {sender})
  }

  ghost predicate MakesRequestStep(t: Table, t': Table, h: Rreq, sender: Address, dev: nat) {
    && RouteIn(Routes(t'), h.origin)
       == Some(LoopFreedom.AfterRequest(RouteIn(Routes(t), h.origin), h.origin,
                                        LoopFreedom.Advert(sender, h.originSeqNo, h.hopCount),
                                        OverDevice(t, sender, dev)))
    && (sender != h.origin ==> JustHeard(t, t', sender, dev, false))
    && NoOther(t, t', {sender, h.origin})
  }

  // What node n says about d in the replies among these messages.
  function RepliesAbout(n: Address, d: Address, out: seq<Sent>): set<LoopFreedom.Advert> {
    set m | m in out && m.UnicastRrep? && m.rrep.dst == d :: LoopFreedom.Advert(n, m.rrep.dstSeqNo, m.rrep.hopCount)
  }

  // The answer of the destination of a request.
  lemma DestinationAnswers(s: LoopFreedom.Net, d: Address, unknownSeqNo: bool, dstSeqNo: nat, rrep: Rrep, to: Address)
    requires rrep.dst == d && rrep.dstSeqNo == ReplySeqNo(s.destSeqNo, unknownSeqNo, dstSeqNo) && rrep.hopCount == 0
    ensures LoopFreedom.Next(d, s, LoopFreedom.DestReply(unknownSeqNo, dstSeqNo)).replies
            == s.replies + RepliesAbout(d, d, [UnicastRrep(rrep, to)])
  {
    var out := [UnicastRrep(rrep, to)];
    assert out[0] in out;
  }

  // The answers of an intermediate node, about the destination and, if gratuitous, about the origin.
  lemma TableAnswers(s: LoopFreedom.Net, n: Address, d: Address, toDst: Entry, toOrigin: Entry, gratuitous: bool,
                     now: int)
    requires toDst.dst != toOrigin.dst && (d == toDst.dst || (d == toOrigin.dst && gratuitous))
    requires var e := if d == toDst.dst then toDst else toOrigin;
             LoopFreedom.RouteAt(s, n) == Some(e.route) && e.route.hop < 256
    ensures LoopFreedom.Next(d, s, LoopFreedom.IntermediateReply(n)).replies
            == s.replies + RepliesAbout(n, d, TableReplies(toDst, toOrigin, gratuitous, now))
  {
    var out := TableReplies(toDst, toOrigin, gratuitous, now);
    assert out[0] in out && (gratuitous ==> out[1] in out);
  }

  // A reply that goes on, or does not.
  lemma ReplyGoesOn(s: LoopFreedom.Net, n: Address, sender: Address, same: bool, asked: bool, h: Rrep,
                    routes: map<Address, Route>)
    requires h.hopCount < 256
    ensures var onward := Onward(routes, h.(hopCount := (h.hopCount + 1) % 256, ackRequired := false));
            var m := LoopFreedom.Advert(sender, h.dstSeqNo, h.hopCount);
            LoopFreedom.Next(h.dst, s, LoopFreedom.ReceiveReply(n, m, same, asked, onward != [])).replies
            == s.replies + RepliesAbout(n, h.dst, onward)
  {
    var onward := Onward(routes, h.(hopCount := (h.hopCount + 1) % 256, ackRequired := false));
    assert onward != [] ==> onward[0] in onward;
  }

  // ----- Steps of a flood -----

  // The copies of a request among the messages of node n.
  function CopiesIn(n: Address, out: seq<Sent>): set<Flood.Copy> {
    set m | m in out && m.BroadcastRreq? :: Flood.Copy(n, m.rreq.hopCount)
  }

  // In any flood of the request in which the node is n and has the same reverse route, its reception is the step of
  // the flood: it leaves the same reverse route, and adds the copies that have been sent.
  ghost predicate MakesFloodStep(t: Table, t': Table, h: Rreq, sender: Address, same: bool, dup: bool,
                                 blacklisted: bool, out: seq<Sent>) {
    forall s: Flood.State, n: Address {:trigger Flood.ReverseAt(s, n)} ::
      (n in s.seen <==> dup) && Flood.ReverseAt(s, n) == RouteIn(Routes(t), h.origin) ==>
        var outcome := if CopiesIn(n, out) == {} then Flood.AnswersOrDrops else Flood.Rebroadcasts;
        var e := Flood.Receive(n, Flood.Copy(sender, h.hopCount), same, blacklisted, outcome);
        var s' := Flood.Next(h.origin, h.originSeqNo, s, e);
        Flood.ReverseAt(s', n) == RouteIn(Routes(t'), h.origin) && s'.copies == s.copies + CopiesIn(n, out)
  }

  lemma CopiesFor(own: seq<Address>, t: Table, h: Rreq, src: Address, seqNo: nat, myRouteTimeout: int, now: int,
                  out: seq<Sent>, n: Address)
    requires h.origin in t && SentFor(own, t, h, src, seqNo, myRouteTimeout, now, out)
    ensures CopiesIn(n, out) == {} || CopiesIn(n, out) == {Flood.Copy(n, h.hopCount)}
  {
    if CopiesIn(n, out) != {} {
      var c :| c in CopiesIn(n, out);
      var m :| m in out && m.BroadcastRreq? && c == Flood.Copy(n, m.rreq.hopCount);
      assert forall k :: k in out && k.BroadcastRreq? ==> k.rreq.hopCount == h.hopCount;
    }
  }

  lemma IgnoredMakesFloodStep(t: Table, t': Table, h: Rreq, sender: Address, dev: nat, dup: bool, blacklisted: bool)
    requires dup || blacklisted
    requires OnlyHeard(t, t', sender, dev)
    ensures MakesFloodStep(t, t', h, sender, OverDevice(t, sender, dev), dup, blacklisted, [])
  {
  }

  lemma NewRequestMakesFloodStep(own: seq<Address>, t: Table, t': Table, h: Rreq, sender: Address, dev: nat, seqNo: nat,
                                 myRouteTimeout: int, now: int, out: seq<Sent>)
    requires h.origin in t'
    requires SentFor(own, t', h.(hopCount := (h.hopCount + 1) % 256), sender, seqNo, myRouteTimeout, now, out)
    requires MakesRequestStep(t, t', h, sender, dev)
    ensures MakesFloodStep(t, t', h, sender, OverDevice(t, sender, dev), false, false, out)
  {
    forall s: Flood.State, n: Address | n !in s.seen && Flood.ReverseAt(s, n) == RouteIn(Routes(t), h.origin)
      ensures var same := OverDevice(t, sender, dev);
              var outcome := if CopiesIn(n, out) == {} then Flood.AnswersOrDrops else Flood.Rebroadcasts;
              var e := Flood.Receive(n, Flood.Copy(sender, h.hopCount), same, false, outcome);
              var s' := Flood.Next(h.origin, h.originSeqNo, s, e);
              Flood.ReverseAt(s', n) == RouteIn(Routes(t'), h.origin) && s'.copies == s.copies + CopiesIn(n, out)
    {
      CopiesFor(own, t', h.(hopCount := (h.hopCount + 1) % 256), sender, seqNo, myRouteTimeout, now, out, n);
    }
  }

  class RoutingProtocol {
    const own: seq<Address>
    const RreqRetries: nat
    const RreqRateLimit: nat
    const ActiveRouteTimeout: int
    const NetTraversalTime: int
    const NodeTraversalTime: int
    const MyRouteTimeout: int
    const HelloTimeout: int
    const DestinationOnly: bool
    const GratuitousReply: bool

    var routingTable: Table
    var seqNo: nat
    var requestId: nat
    var rreqCount: nat
    // m_addressReqTimer: the delay of the retry timer of each destination that is searched
    var reqTimer: map<Address, int>
    const rreqIdCache: IdCache
    // everything handed to a socket, in order
    var sent: seq<Sent>

    ghost predicate Valid()
      reads this, rreqIdCache
    {
      Keyed(routingTable) && UNSET !in own && seqNo < TWO_32 && rreqIdCache.Valid()
    }

    constructor (own: seq<Address>, retries: nat, rateLimit: nat, destinationOnly: bool, gratuitousReply: bool,
                 cache: IdCache)
      requires UNSET !in own && cache.Valid()
      ensures Valid() && this.own == own && RreqRetries == retries && RreqRateLimit == rateLimit
      ensures routingTable == map[] && seqNo == 0 && requestId == 0 && rreqCount == 0 && sent == []
      ensures DestinationOnly == destinationOnly && GratuitousReply == gratuitousReply && reqTimer == map[]
      ensures rreqIdCache == cache
    {
      this.own, RreqRetries, RreqRateLimit := own, retries, rateLimit;
      DestinationOnly, GratuitousReply := destinationOnly, gratuitousReply;
      routingTable, reqTimer, sent := map[], map[], [];
      seqNo, requestId, rreqCount := 0, 0, 0;
      rreqIdCache := cache;
    }

    method UpdateRouteToNeighbor(sender: Address, dev: nat, now: int)
      requires Valid() && sender != UNSET
      modifies this`routingTable
      ensures Valid()
      ensures var same := sender in old(routingTable) && old(routingTable)[sender].dev == dev;
              Routes(routingTable) == Routes(old(routingTable))[
                sender := RefreshNeighbour(RouteIn(Routes(old(routingTable)), sender), sender, same)]
      ensures OnlyAt(old(routingTable), routingTable, sender)
      ensures sender in routingTable && routingTable[sender].dev == dev
      ensures (sender in old(routingTable) && routingTable[sender] == old(routingTable)[sender])
              || routingTable[sender].lifeTime == Expiry(old(routingTable), sender, now + ActiveRouteTimeout)
      ensures var same := sender in old(routingTable) && old(routingTable)[sender].dev == dev;
              routingTable[sender].unidirectional
              <==> old(Blacklisted(routingTable, sender))
                   && LoopFreedom.KnowsDirect(RouteIn(Routes(old(routingTable)), sender), same)
    {
      var direct := Route(false, 0, 1, sender, VALID);
      if sender !in routingTable {
        var newEntry := Entry(sender, direct, 0, now + ActiveRouteTimeout, false, [], dev);
        WriteRoute(routingTable, newEntry);
        routingTable := AddRoute(routingTable, newEntry);
      } else {
        var toNeighbor := routingTable[sender];
        var lifeTime := if now + ActiveRouteTimeout > toNeighbor.lifeTime then now + ActiveRouteTimeout
                        else toNeighbor.lifeTime;
        if toNeighbor.route.validSeqNo && toNeighbor.route.hop == 1 && toNeighbor.dev == dev {
          // the new lifetime is set on a copy, and lost
        } else {
          var newEntry := Entry(sender, direct, 0, lifeTime, false, [], dev);
          WriteRoute(routingTable, newEntry);
          routingTable := Update(routingTable, newEntry);
        }
      }
    }

    method ProcessHello(h: Rrep, dev: nat, now: int)
      requires Valid() && h.dst != UNSET
      modifies this`routingTable
      ensures Valid()
      ensures Routes(routingTable) == Routes(old(routingTable))[
                h.dst := AcceptHello(RouteIn(Routes(old(routingTable)), h.dst), h.dst, h.dstSeqNo)]
      ensures OnlyAt(old(routingTable), routingTable, h.dst)
      ensures h.dst in routingTable && routingTable[h.dst].dev == dev
      ensures h.dst !in old(routingTable) ==> routingTable[h.dst].route == Route(true, h.dstSeqNo, 1, h.dst, VALID)
      ensures routingTable[h.dst].lifeTime ==
                if h.dst in old(routingTable) then Expiry(old(routingTable), h.dst, now + HelloTimeout)
                else now + h.lifeTime
    {
      if h.dst !in routingTable {
        var newEntry := Entry(h.dst, Route(true, h.dstSeqNo, 1, h.dst, VALID), 0, now + h.lifeTime, false, [], dev);
        WriteRoute(routingTable, newEntry);
        routingTable := AddRoute(routingTable, newEntry);
      } else {
        var toNeighbor := routingTable[h.dst];
        var lifeTime := if now + HelloTimeout > toNeighbor.lifeTime then now + HelloTimeout else toNeighbor.lifeTime;
        toNeighbor := toNeighbor.(route := toNeighbor.route.(seqNo := h.dstSeqNo, validSeqNo := true, flag := VALID),
                                  lifeTime := lifeTime, dev := dev);
        WriteRoute(routingTable, toNeighbor);
        routingTable := Update(routingTable, toNeighbor);
      }
    }

    // The first half of RecvReply: the forward route.
    method AdoptReply(h: Rrep, newEntry: Entry) returns (toDst: Entry)
      requires Valid() && h.dst != UNSET && newEntry.dst == h.dst
      requires newEntry.route.validSeqNo && newEntry.route.seqNo == h.dstSeqNo && newEntry.route.flag == VALID
      modifies this`routingTable
      ensures Valid()
      ensures toDst == Lookup(old(routingTable), h.dst)
      ensures routingTable == if Adopts(RouteIn(Routes(old(routingTable)), h.dst), h.dstSeqNo, newEntry.route.hop)
                              then old(routingTable)[h.dst := newEntry.(rreqCnt := 0)] else old(routingTable)
      ensures Routes(routingTable) == Routes(old(routingTable))[
                h.dst := AcceptReply(RouteIn(Routes(old(routingTable)), h.dst), h.dstSeqNo, newEntry.route.hop,
                                     newEntry.route.nextHop)]
    {
      toDst := Lookup(routingTable, h.dst);
      WriteRoute(routingTable, newEntry);
      if h.dst in routingTable {
        if !toDst.route.validSeqNo {
          routingTable := Update(routingTable, newEntry);
        } else if Newer(h.dstSeqNo, toDst.route.seqNo) {
          routingTable := Update(routingTable, newEntry);
        } else if h.dstSeqNo == toDst.route.seqNo && toDst.route.flag != VALID {
          routingTable := Update(routingTable, newEntry);
        } else if h.dstSeqNo == toDst.route.seqNo && newEntry.route.hop < toDst.route.hop {
          routingTable := Update(routingTable, newEntry);
        }
      } else {
        routingTable := AddRoute(routingTable, newEntry);
      }
    }

    // The last part of RecvReply: precursors along the route.
    method LinkPrecursors(dst: Address, origin: Address)
      requires Valid() && origin in routingTable && dst != origin
      modifies this`routingTable
      ensures Valid() && Routes(routingTable) == Routes(old(routingTable))
      ensures routingTable == if dst in old(routingTable) && old(routingTable)[dst].route.flag == VALID
                              then Link(old(routingTable), dst, origin) else old(routingTable)
    {
      if dst in routingTable && routingTable[dst].route.flag == VALID {
        LinkLinks(routingTable, dst, origin);
        var toOrigin := routingTable[origin];
        var toDst := InsertPrecursor(routingTable[dst], toOrigin.route.nextHop);
        routingTable := Update(routingTable, toDst);

        var toNextHopToDst := InsertPrecursor(Lookup(routingTable, toDst.route.nextHop), toOrigin.route.nextHop);
        routingTable := Update(routingTable, toNextHopToDst);

        toOrigin := InsertPrecursor(toOrigin, toDst.route.nextHop);
        routingTable := Update(routingTable, toOrigin);

        var toNextHopToOrigin := InsertPrecursor(Lookup(routingTable, toOrigin.route.nextHop), toDst.route.nextHop);
        routingTable := Update(routingTable, toNextHopToOrigin);
      }
    }

    // The last part of RecvReply at a node that did not ask: the reply goes on towards its origin,
    // whether it was adopted or not.
    method PassReplyOn(h: Rrep, now: int)
      requires Valid() && h.dst != h.origin
      modifies this`routingTable, this`sent
      ensures Valid() && Routes(routingTable) == Routes(old(routingTable))
      ensures sent == old(sent) + Onward(Routes(old(routingTable)), h)
      ensures routingTable == PassedOn(old(routingTable), h, now + ActiveRouteTimeout)
    {
      if h.origin !in routingTable || routingTable[h.origin].route.flag == IN_SEARCH {
        return;
      }
      var toOrigin := routingTable[h.origin];
      var lifeTime := if now + ActiveRouteTimeout > toOrigin.lifeTime then now + ActiveRouteTimeout
                      else toOrigin.lifeTime;
      toOrigin := toOrigin.(lifeTime := lifeTime);
      TouchEntry(routingTable, toOrigin);
      routingTable := Update(routingTable, toOrigin);
      LinkPrecursors(h.dst, h.origin);
      sent := sent + [UnicastRrep(h, toOrigin.route.nextHop)];
    }

    // The node asked for the route: an entry that it still searches is overwritten, and its timer ends.
    method EndSearch(toDst: Entry, newEntry: Entry)
      requires Valid() && newEntry.dst in routingTable && newEntry.rreqCnt == 0
      modifies this`routingTable, this`reqTimer
      ensures Valid()
      ensures var searched := toDst.route.flag == IN_SEARCH;
              && routingTable == (if searched then old(routingTable)[newEntry.dst := newEntry] else old(routingTable))
              && reqTimer == if searched then old(reqTimer) - {newEntry.dst} else old(reqTimer)
    {
      if toDst.route.flag == IN_SEARCH {
        WriteRoute(routingTable, newEntry);
        routingTable := Update(routingTable, newEntry);
        reqTimer := reqTimer - {newEntry.dst};
      }
    }

    // RecvReply for a RREP that is not a hello.
    method HandleReply(h0: Rrep, dev: nat, sender: Address, now: int)
      requires Valid() && h0.dst != UNSET && h0.dst != h0.origin
      modifies this`routingTable, this`reqTimer, this`sent
      ensures Valid()
      ensures Routes(routingTable) == RoutesAfterReply(own, Routes(old(routingTable)), h0, sender)
      ensures routingTable == TableAfterReply(own, old(routingTable), h0, Offered(h0, dev, sender, now),
                                              now + ActiveRouteTimeout)
      ensures sent == old(sent) + SentAfterReply(own, Routes(routingTable), h0, sender)
      ensures reqTimer == if h0.origin in own && Lookup(old(routingTable), h0.dst).route.flag == IN_SEARCH
                          then old(reqTimer) - {h0.dst} else old(reqTimer)
    {
      var hop := (h0.hopCount + 1) % 256;
      var h := h0.(hopCount := hop);
      var newEntry := Entry(h.dst, Route(true, h.dstSeqNo, hop, sender, VALID), 0, now + h.lifeTime, false, [], dev);
      assert newEntry == Offered(h0, dev, sender, now);
      var toDst := AdoptReply(h, newEntry);
      if h.ackRequired {
        sent := sent + [UnicastAck(sender)];
        h := h.(ackRequired := false);
      }
      if h.origin in own {
        EndSearch(toDst, newEntry);
        return;
      }
      PassReplyOn(h, now);
    }

    method RecvReply(h: Rrep, dev: nat, sender: Address, now: int)
      requires Valid() && h.dst != UNSET
      modifies this`routingTable, this`reqTimer, this`sent
      ensures Valid()
      ensures Routes(routingTable) ==
                if h.dst == h.origin
                then Routes(old(routingTable))[
                       h.dst := AcceptHello(RouteIn(Routes(old(routingTable)), h.dst), h.dst, h.dstSeqNo)]
                else RoutesAfterReply(own, Routes(old(routingTable)), h, sender)
      ensures reqTimer == if h.dst != h.origin && h.origin in own
                             && Lookup(old(routingTable), h.dst).route.flag == IN_SEARCH
                          then old(reqTimer) - {h.dst} else old(reqTimer)
      ensures sent == old(sent) + if h.dst == h.origin then [] else SentAfterReply(own, Routes(routingTable), h, sender)
      ensures if h.dst == h.origin then OnlyAt(old(routingTable), routingTable, h.dst)
              else routingTable == TableAfterReply(own, old(routingTable), h, Offered(h, dev, sender, now),
                                                   now + ActiveRouteTimeout)
    {
      // a hello is a reply about its own origin
      if h.dst == h.origin {
        ProcessHello(h, dev, now);
      } else {
        HandleReply(h, dev, sender, now);
      }
    }

    method SendReply(h: Rreq, toOrigin: Entry)
      requires Valid()
      modifies this`seqNo, this`sent
      ensures Valid() && seqNo == ReplySeqNo(old(seqNo), h.unknownSeqNo, h.dstSeqNo)
      ensures sent == old(sent) + [UnicastRrep(Rrep(h.dst, seqNo, 0, toOrigin.dst, MyRouteTimeout, false),
                                               toOrigin.route.nextHop)]
    {
      if !h.unknownSeqNo && h.dstSeqNo == (seqNo + 1) % TWO_32 {
        seqNo := (seqNo + 1) % TWO_32;
      }
      sent := sent + [UnicastRrep(Rrep(h.dst, seqNo, 0, toOrigin.dst, MyRouteTimeout, false), toOrigin.route.nextHop)];
    }

    method SendReplyByIntermediateNode(toDst: Entry, toOrigin: Entry, gratRep: bool, now: int)
      requires Valid() && toDst.dst in routingTable && toOrigin.dst in routingTable
      requires toDst == routingTable[toDst.dst] && toOrigin == routingTable[toOrigin.dst]
      modifies this`routingTable, this`sent
      ensures Valid() && Routes(routingTable) == Routes(old(routingTable))
      ensures sent == old(sent) + TableReplies(toDst, toOrigin, gratRep, now)
      ensures routingTable == Answered(old(routingTable), toDst, toOrigin)
      ensures PrecursorsGrow(old(routingTable), routingTable)
    {
      var rrep := Rrep(toDst.dst, toDst.route.seqNo, toDst.route.hop % 256, toOrigin.dst, toDst.lifeTime - now, false);
      if toDst.route.hop == 1 {
        rrep := rrep.(ackRequired := true);
      }
      var toDst' := InsertPrecursor(toDst, toOrigin.route.nextHop);
      var toOrigin' := InsertPrecursor(toOrigin, toDst.route.nextHop);
      AnsweredLinks(routingTable, toDst, toOrigin);
      routingTable := Update(routingTable, toDst');
      routingTable := Update(routingTable, toOrigin');
      sent := sent + [UnicastRrep(rrep, toOrigin.route.nextHop)];
      if gratRep {
        sent := sent + [UnicastRrep(Rrep(toOrigin.dst, toOrigin.route.seqNo, toOrigin.route.hop % 256, toDst.dst,
                                         toOrigin.lifeTime - now, false),
                                    toDst.route.nextHop)];
      }
    }

    // The part of RecvRequest that sets up the reverse route.
    method SetReverseRoute(h: Rreq, dev: nat, src: Address, now: int)
      requires Valid() && h.origin != UNSET
      modifies this`routingTable
      ensures Valid()
      ensures Routes(routingTable) == Routes(old(routingTable))[
                h.origin := AcceptRequest(RouteIn(Routes(old(routingTable)), h.origin), h.originSeqNo, h.hopCount, src)]
      ensures OnlyAt(old(routingTable), routingTable, h.origin)
      ensures h.origin in routingTable && routingTable[h.origin].dev == dev
      ensures routingTable[h.origin].lifeTime
              == Expiry(old(routingTable), h.origin, now + 2 * NetTraversalTime - 2 * h.hopCount * NodeTraversalTime)
    {
      var lifeTime := now + 2 * NetTraversalTime - 2 * h.hopCount * NodeTraversalTime;
      if h.origin !in routingTable {
        var newEntry := Entry(h.origin, Route(true, h.originSeqNo, h.hopCount, src, VALID), 0, lifeTime, false, [],
                              dev);
        WriteRoute(routingTable, newEntry);
        routingTable := AddRoute(routingTable, newEntry);
      } else {
        var toOrigin := routingTable[h.origin];
        var r := toOrigin.route;
        if r.validSeqNo {
          if Newer(h.originSeqNo, r.seqNo) {
            r := r.(seqNo := h.originSeqNo);
          }
        } else {
          r := r.(seqNo := h.originSeqNo);
        }
        r := r.(validSeqNo := true, nextHop := src, hop := h.hopCount);
        toOrigin := toOrigin.(route := r, dev := dev,
                              lifeTime := if lifeTime > toOrigin.lifeTime then lifeTime else toOrigin.lifeTime);
        WriteRoute(routingTable, toOrigin);
        routingTable := Update(routingTable, toOrigin);
      }
    }

    // The part of RecvRequest that answers, drops or passes on a request that is new to the node.
    method ReactToRequest(h: Rreq, src: Address, now: int)
      requires Valid() && h.origin in routingTable
      modifies this`routingTable, this`seqNo, this`sent
      ensures Valid() && Routes(routingTable) == Routes(old(routingTable))
      ensures seqNo == if h.dst in own then ReplySeqNo(old(seqNo), h.unknownSeqNo, h.dstSeqNo) else old(seqNo)
      ensures old(sent) <= sent
      ensures SentFor(own, old(routingTable), h, src, seqNo, MyRouteTimeout, now, sent[|old(sent)|..])
      ensures TreatsRight(own, old(routingTable), h, src, old(seqNo), now, sent[|old(sent)|..])
      ensures PrecursorsGrow(old(routingTable), routingTable)
    {
      ghost var t, before, number := routingTable, sent, seqNo;
      var toOrigin := routingTable[h.origin];
      if h.dst in own {
        SendReply(h, toOrigin);
      } else if h.dst !in routingTable {
        sent := sent + OnAll(own, h);
      } else {
        ReactWithRoute(h, src, toOrigin, now);
      }
      TreatsByAge(own, t, h, src, number, seqNo, MyRouteTimeout, now, sent[|before|..]);
    }

    // There is an entry for the destination.
    method ReactWithRoute(h: Rreq, src: Address, toOrigin: Entry, now: int)
      requires Valid() && h.origin in routingTable && toOrigin == routingTable[h.origin]
      requires h.dst !in own && h.dst in routingTable
      modifies this`routingTable, this`sent
      ensures Valid() && Routes(routingTable) == Routes(old(routingTable))
      ensures old(sent) <= sent && PrecursorsGrow(old(routingTable), routingTable)
      ensures SentFor(own, old(routingTable), h, src, seqNo, MyRouteTimeout, now, sent[|old(sent)|..])
    {
      var rreq := h;
      var toDst := routingTable[h.dst];
      if toDst.route.nextHop == src {
        return;
      }
      if (h.unknownSeqNo || NotOlder(toDst.route.seqNo, h.dstSeqNo)) && toDst.route.validSeqNo {
        if !h.destinationOnly && toDst.route.flag == VALID {
          SendReplyByIntermediateNode(toDst, toOrigin, h.gratuitous, now);
          return;
        }
        rreq := rreq.(dstSeqNo := toDst.route.seqNo, unknownSeqNo := false);
      }
      sent := sent + OnAll(own, rreq);
    }

    method RecvRequest(h0: Rreq, dev: nat, src: Address, now: int)
      requires Valid() && h0.origin != UNSET && rreqIdCache.latest <= now
      modifies this`routingTable, this`seqNo, this`sent, rreqIdCache
      ensures Valid()
      // a request from a blacklisted neighbour, or one seen within the lifetime of the cache, changes nothing
      ensures old(Blacklisted(routingTable, src) || rreqIdCache.SeenBefore(h0.origin, h0.id, now)) ==>
                routingTable == old(routingTable) && sent == old(sent) && seqNo == old(seqNo)
      // otherwise the reverse route is set, the request counts as seen, and the node reacts
      ensures old(!Blacklisted(routingTable, src) && !rreqIdCache.SeenBefore(h0.origin, h0.id, now)) ==>
                var h := h0.(hopCount := (h0.hopCount + 1) % 256);
                && Routes(routingTable) == RoutesAfterRequest(Routes(old(routingTable)), h, src)
                && rreqIdCache.SeenBefore(h0.origin, h0.id, now + rreqIdCache.lifetime)
                && seqNo == (if h.dst in own then ReplySeqNo(old(seqNo), h.unknownSeqNo, h.dstSeqNo) else old(seqNo))
                && old(sent) <= sent && h.origin in routingTable
                && SentFor(own, routingTable, h, src, seqNo, MyRouteTimeout, now, sent[|old(sent)|..])
                && TreatsRight(own, routingTable, h, src, old(seqNo), now, sent[|old(sent)|..])
                && routingTable[h.origin].dev == dev
                && routingTable[h.origin].lifeTime
                   == Expiry(old(routingTable), h.origin,
                             now + 2 * NetTraversalTime - 2 * h.hopCount * NodeTraversalTime)
    {
      if src in routingTable && routingTable[src].unidirectional {
        return;
      }
      RecordStays(rreqIdCache.history, UniqueId(h0.origin, h0.id, rreqIdCache.lifetime + now),
                  now + rreqIdCache.lifetime);
      var dup := rreqIdCache.IsDuplicate(h0.origin, h0.id, now);
      if dup {
        return;
      }
      var h := h0.(hopCount := (h0.hopCount + 1) % 256);
      SetReverseRoute(h, dev, src, now);
      ghost var t, before, number := routingTable, sent, seqNo;
      ReactToRequest(h, src, now);
      SentForGrown(own, t, routingTable, h, src, seqNo, MyRouteTimeout, now, sent[|before|..]);
      TreatsByAge(own, routingTable, h, src, number, seqNo, MyRouteTimeout, now, sent[|before|..]);
      assert Grown(t[h.origin], routingTable[h.origin]);
    }

    // The part of SendRequest that marks the entry as searched, or makes one.
    method MarkSearched(dst: Address, now: int)
      requires Valid() && dst != UNSET
      modifies this`routingTable
      ensures Valid() && Marked(old(routingTable), routingTable, dst, now)
      ensures routingTable[dst].route.flag == IN_SEARCH
    {
      if dst in routingTable {
        var rt := routingTable[dst];
        rt := rt.(route := rt.route.(flag := IN_SEARCH));
        WriteRoute(routingTable, rt);
        routingTable := Update(routingTable, rt);
      } else {
        var newEntry := Entry(dst, Route(false, 0, 0, UNSET, IN_SEARCH), 0, now, false, [], 0);
        WriteRoute(routingTable, newEntry);
        routingTable := AddRoute(routingTable, newEntry);
      }
    }

    method ScheduleRreqRetry(dst: Address)
      requires Valid() && dst in routingTable && routingTable[dst].route.flag == IN_SEARCH
      modifies this`routingTable, this`reqTimer
      ensures Valid() && Counted(old(routingTable), routingTable, dst)
      ensures reqTimer == old(reqTimer)[dst := routingTable[dst].rreqCnt * NetTraversalTime]
    {
      var rt := routingTable[dst];
      rt := rt.(rreqCnt := (rt.rreqCnt + 1) % 256);
      TouchEntry(routingTable, rt);
      routingTable := Update(routingTable, rt);
      reqTimer := reqTimer[dst := rt.rreqCnt * NetTraversalTime];
    }

    // One interface: its own address is the origin, and is entered in the cache.
    method BroadcastOn(iface: Address, h: Rreq, now: int)
      requires Valid() && rreqIdCache.latest <= now
      modifies this`sent, rreqIdCache
      ensures Valid() && rreqIdCache.latest <= now && rreqIdCache.lifetime == old(rreqIdCache.lifetime)
      ensures sent == old(sent) + [BroadcastRreq(iface, h.(origin := iface))]
      ensures 0 <= rreqIdCache.lifetime ==> rreqIdCache.SeenBefore(iface, h.id, now)
      ensures forall a, id :: old(rreqIdCache.SeenBefore(a, id, now)) ==> rreqIdCache.SeenBefore(a, id, now)
    {
      RecordStays(rreqIdCache.history, UniqueId(iface, h.id, rreqIdCache.lifetime + now), now);
      var dup := rreqIdCache.IsDuplicate(iface, h.id, now);
      sent := sent + [BroadcastRreq(iface, h.(origin := iface))];
    }

    // The loop over the interfaces: each one's own address is the origin, and is entered in the cache.
    method BroadcastRequest(h: Rreq, now: int)
      requires Valid() && rreqIdCache.latest <= now
      modifies this`sent, rreqIdCache
      ensures Valid() && rreqIdCache.latest <= now && rreqIdCache.lifetime == old(rreqIdCache.lifetime)
      ensures sent == old(sent) + OnAllAsOrigin(own, h)
      ensures 0 <= rreqIdCache.lifetime ==> forall a :: a in own ==> rreqIdCache.SeenBefore(a, h.id, now)
    {
      for i := 0 to |own|
        invariant Valid() && rreqIdCache.latest <= now && rreqIdCache.lifetime == old(rreqIdCache.lifetime)
        invariant sent == old(sent) + OnAllAsOrigin(own, h)[..i]
        invariant 0 <= rreqIdCache.lifetime ==> forall j :: 0 <= j < i ==> rreqIdCache.SeenBefore(own[j], h.id, now)
      {
        BroadcastOn(own[i], h, now);
        assert OnAllAsOrigin(own, h)[..i + 1] == OnAllAsOrigin(own, h)[..i] + [OnAllAsOrigin(own, h)[i]];
      }
    }

    // Returns whether the request had to wait for the rate limit, in which case it is tried again later.
    method SendRequest(dst: Address, now: int) returns (postponed: bool)
      requires Valid() && dst != UNSET && rreqIdCache.latest <= now && rreqCount <= RreqRateLimit < 0x1_0000
      modifies this`routingTable, this`reqTimer, this`seqNo, this`requestId, this`rreqCount, this`sent, rreqIdCache
      ensures Valid() && rreqCount <= RreqRateLimit && rreqIdCache.latest <= now
      ensures postponed <==> old(rreqCount) == RreqRateLimit
      ensures postponed ==> routingTable == old(routingTable) && sent == old(sent) && rreqCount == old(rreqCount)
                            && seqNo == old(seqNo) && requestId == old(requestId) && reqTimer == old(reqTimer)
      ensures !postponed ==>
        && rreqCount == old(rreqCount) + 1
        && seqNo == (old(seqNo) + 1) % TWO_32 && requestId == (old(requestId) + 1) % TWO_32
        && sent == old(sent) + OnAllAsOrigin(own, RequestFor(Routes(old(routingTable)), dst, seqNo, requestId,
                                                             DestinationOnly, GratuitousReply))
        && AsksOnAll(sent[|old(sent)|..], own, Routes(old(routingTable)), dst, seqNo, requestId, DestinationOnly,
                     GratuitousReply)
      ensures !postponed ==>
        && Requested(old(routingTable), routingTable, dst, now)
        && reqTimer == old(reqTimer)[dst := routingTable[dst].rreqCnt * NetTraversalTime]
    {
      if rreqCount == RreqRateLimit {
        return true;
      }
      ghost var before, routes := sent, Routes(routingTable);
      rreqCount := rreqCount + 1;
      var h := RequestFor(Routes(routingTable), dst, (seqNo + 1) % TWO_32, (requestId + 1) % TWO_32, DestinationOnly,
                          GratuitousReply);
      MarkSearched(dst, now);
      ghost var marked := routingTable;
      seqNo := (seqNo + 1) % TWO_32;
      requestId := (requestId + 1) % TWO_32;
      BroadcastRequest(h, now);
      RequestAsks(own, routes, dst, seqNo, requestId, DestinationOnly, GratuitousReply, before, sent);
      ScheduleRreqRetry(dst);
      CountSearched(old(routingTable), marked, routingTable, dst, now);
      return false;
    }

    method RouteRequestTimerExpire(dst: Address, now: int) returns (outcome: TimerOutcome)
      requires Valid() && dst != UNSET && rreqIdCache.latest <= now && rreqCount <= RreqRateLimit < 0x1_0000
      modifies this`routingTable, this`reqTimer, this`seqNo, this`requestId, this`rreqCount, this`sent, rreqIdCache
      ensures Valid() && rreqCount <= RreqRateLimit && rreqIdCache.latest <= now
      ensures var e := Lookup(old(routingTable), dst);
              outcome == if dst in old(routingTable) && e.route.flag == VALID then RouteFound
                         else if e.rreqCnt == RreqRetries || e.route.flag != IN_SEARCH then GaveUp
                         else Retried(old(rreqCount) == RreqRateLimit)
      ensures !outcome.Retried? ==> rreqCount == old(rreqCount) && seqNo == old(seqNo) && requestId == old(requestId)
      ensures outcome.RouteFound? ==>
                routingTable == old(routingTable) && sent == old(sent) && reqTimer == old(reqTimer)
      ensures outcome.GaveUp? ==> routingTable == old(routingTable) - {dst} && reqTimer == old(reqTimer) - {dst}
                                  && sent == old(sent)
      ensures outcome == Retried(true) ==>
                routingTable == old(routingTable) && sent == old(sent) && reqTimer == old(reqTimer)
                && rreqCount == old(rreqCount)
      ensures outcome == Retried(false) ==>
                && rreqCount == old(rreqCount) + 1
                && seqNo == (old(seqNo) + 1) % TWO_32 && requestId == (old(requestId) + 1) % TWO_32
                && sent == old(sent) + OnAllAsOrigin(own, RequestFor(Routes(old(routingTable)), dst, seqNo, requestId,
                                                                     DestinationOnly, GratuitousReply))
                && Requested(old(routingTable), routingTable, dst, now)
                && Routes(routingTable) == Routes(old(routingTable))  // it is searched already
                && reqTimer == old(reqTimer)[dst := routingTable[dst].rreqCnt * NetTraversalTime]
    {
      if dst in routingTable && routingTable[dst].route.flag == VALID {
        return RouteFound;
      }
      var toDst := Lookup(routingTable, dst);
      if toDst.rreqCnt == RreqRetries {
        reqTimer, routingTable := reqTimer - {dst}, routingTable - {dst};
        return GaveUp;
      }
      if toDst.route.flag == IN_SEARCH {
        var postponed := SendRequest(dst, now);
        assert Routes(old(routingTable))[dst] == BeginSearch(RouteIn(Routes(old(routingTable)), dst));
        return Retried(postponed);
      }
      reqTimer, routingTable := reqTimer - {dst}, routingTable - {dst};
      return GaveUp;
    }

    /** A whole discovery that nobody answers. Between two of its wakes the rate timer may expire and other
        discoveries may count, so that rreqCount has any value by the next one. A request that is held up is tried
        again; one that goes out is followed by its wait. When the entry is given up, as many requests as
        Discovery.RequestsMade says have gone out; that happens at the first wake after the last of them, and
        never if the limit does not fit the count. */
    method DiscoverUnanswered(dst: Address, now: int, wakes: seq<Discovery.Wake>)
      returns (requests: nat, waited: nat, gaveUp: bool)
      requires Valid() && dst != UNSET && rreqIdCache.latest <= now && 0 <= NetTraversalTime
      requires Lookup(routingTable, dst).rreqCnt == 0 && RreqRateLimit < 0x1_0000
      requires forall w :: w in wakes ==> w.rreqCount <= RreqRateLimit
      modifies this`routingTable, this`reqTimer, this`seqNo, this`requestId, this`rreqCount, this`sent, rreqIdCache
      ensures Valid() && |sent| == |old(sent)| + requests * |own|
      ensures gaveUp <==> Discovery.Stops(RreqRateLimit, RreqRetries, wakes)
      ensures requests == if gaveUp then Discovery.RequestsMade(RreqRetries) else Discovery.GoOut(RreqRateLimit, wakes)
      ensures waited == Discovery.WaitedAfter(requests, NetTraversalTime)
      ensures requests <= 255 ==> 2 * waited == NetTraversalTime * (requests * (requests + 1))
      ensures gaveUp ==> dst !in routingTable && dst !in reqTimer
    {
      ghost var messages := |sent|;
      var waiting, i, heldUp := false, 0, 0;
      requests, waited, gaveUp := 0, 0, false;
      while i < |wakes| && !gaveUp
        invariant i <= |wakes| && (gaveUp ==> i > 0)
        invariant Discovering(dst, now, wakes, i, requests, waited, heldUp, waiting, gaveUp, messages)
      {
        rreqCount := wakes[i].rreqCount;  // meanwhile
        requests, waited, heldUp, waiting, gaveUp := NextWake(dst, now, wakes, i, requests, waited, heldUp, waiting,
                                                              messages);
        i := i + 1;
      }
      assert !gaveUp ==> wakes[..i] == wakes;
      if requests <= 255 {
        Discovery.WaitIsTriangular(requests, NetTraversalTime);
      }
    }

    // So many requests for dst have gone out, and the retry timer runs, or the next one is held up.
    ghost predicate Asking(dst: Address, requests: nat, waiting: bool, messages: nat)
      reads this, rreqIdCache
    {
      && Valid() && |sent| == messages + requests * |own|
      && Lookup(routingTable, dst).rreqCnt == Discovery.CountAfter(requests)
      && (waiting ==> dst in routingTable && routingTable[dst].route.flag == IN_SEARCH)
    }

    // The discovery after i wakes.
    ghost predicate Discovering(dst: Address, now: int, wakes: seq<Discovery.Wake>, i: nat, requests: nat, waited: nat,
                                heldUp: nat, waiting: bool, gaveUp: bool, messages: nat)
      reads this, rreqIdCache
    {
      && rreqIdCache.latest <= now + waited + heldUp && 0 <= NetTraversalTime
      && waited == Discovery.WaitedAfter(requests, NetTraversalTime)
      && if gaveUp
         then Valid() && |sent| == messages + requests * |own| && dst !in routingTable && dst !in reqTimer
              && Discovery.Stops(RreqRateLimit, RreqRetries, wakes)
              && requests == Discovery.RequestsMade(RreqRetries)
         else Asking(dst, requests, waiting, messages)
              && Discovery.StillAsks(RreqRateLimit, RreqRetries, wakes, i, requests, waiting)
    }

    method NextWake(dst: Address, now: int, wakes: seq<Discovery.Wake>, i: nat, requests: nat, waited: nat,
                    heldUp: nat, waiting: bool, ghost messages: nat)
      returns (requests': nat, waited': nat, heldUp': nat, waiting': bool, gaveUp: bool)
      requires i < |wakes| && rreqCount == wakes[i].rreqCount <= RreqRateLimit < 0x1_0000 && dst != UNSET
      requires Discovering(dst, now, wakes, i, requests, waited, heldUp, waiting, false, messages)
      modifies this`routingTable, this`reqTimer, this`seqNo, this`requestId, this`rreqCount, this`sent, rreqIdCache
      ensures Discovering(dst, now, wakes, i + 1, requests', waited', heldUp', waiting', gaveUp, messages)
    {
      requests', waited', heldUp' := requests, waited, heldUp;
      Discovery.WakeKeepsAsking(RreqRateLimit, RreqRetries, wakes, i, requests, waiting);
      gaveUp, waiting' := WakeUp(dst, now + waited + heldUp, waiting, requests, messages);
      if waiting' {
        requests', waited' := requests + 1, waited + reqTimer[dst];
      } else if !gaveUp {
        heldUp' := heldUp + wakes[i].delay;
      }
    }

    // The timer expires without an answer, or a request that was held up is tried again.
    method WakeUp(dst: Address, now: int, waiting: bool, ghost requests: nat, ghost messages: nat)
      returns (gaveUp: bool, went: bool)
      requires Asking(dst, requests, waiting, messages) && dst != UNSET && rreqIdCache.latest <= now
      requires rreqCount <= RreqRateLimit < 0x1_0000
      modifies this`routingTable, this`reqTimer, this`seqNo, this`requestId, this`rreqCount, this`sent, rreqIdCache
      ensures Valid() && rreqIdCache.latest <= now
      ensures gaveUp <==> waiting && Discovery.CountAfter(requests) == RreqRetries
      ensures went <==> !gaveUp && old(rreqCount) < RreqRateLimit
      ensures !gaveUp ==> Asking(dst, if went then requests + 1 else requests, went, messages)
      ensures gaveUp ==> |sent| == messages + requests * |own| && dst !in routingTable && dst !in reqTimer
      ensures went ==> dst in reqTimer && reqTimer[dst] == Discovery.CountAfter(requests + 1) * NetTraversalTime
    {
      ghost var count := rreqCount;
      assert (requests + 1) * |own| == requests * |own| + |own|;
      if waiting {
        var outcome := RouteRequestTimerExpire(dst, now);
        assert outcome == Retried(false) ==> Routes(routingTable)[dst] == routingTable[dst].route;
        gaveUp, went := outcome.GaveUp?, outcome == Retried(false);
      } else {
        var postponed := SendRequest(dst, now);
        assert !postponed ==> Routes(routingTable)[dst] == routingTable[dst].route;
        gaveUp, went := false, !postponed;
      }
    }

    method PerformOne(call: Call) returns (went: bool)
      requires Valid() && rreqCount <= RreqRateLimit < 0x1_0000
      requires call.dst != UNSET && rreqIdCache.latest <= call.time
      modifies this`routingTable, this`reqTimer, this`seqNo, this`requestId, this`rreqCount, this`sent, rreqIdCache
      ensures Valid() && rreqIdCache.latest <= call.time && (went <==> !call.expires && old(rreqCount) < RreqRateLimit)
      ensures rreqCount == if call.expires then 0 else if went then old(rreqCount) + 1 else old(rreqCount)
      ensures |sent| == |old(sent)| + if went then |own| else 0
    {
      went := false;
      if call.expires {
        RreqRateLimitTimerExpire();
      } else {
        var postponed := SendRequest(call.dst, call.time);
        went := !postponed;
      }
    }

    // Calls of SendRequest and expiries of the rate timer in any order: the count is Discovery's.
    method Perform(calls: seq<Call>) returns (originated: nat)
      requires Valid() && rreqCount == 0 && RreqRateLimit < 0x1_0000
      requires forall i :: 0 <= i < |calls| ==> calls[i].dst != UNSET && rreqIdCache.latest <= calls[i].time
      requires forall i, j :: 0 <= i < j < |calls| ==> calls[i].time <= calls[j].time
      modifies this`routingTable, this`reqTimer, this`seqNo, this`requestId, this`rreqCount, this`sent, rreqIdCache
      ensures Valid() && rreqCount == Discovery.RreqCount(RreqRateLimit, Kinds(calls))
      ensures originated == Discovery.Originated(RreqRateLimit, Kinds(calls), 0, |calls|)
      ensures |sent| == |old(sent)| + originated * |own|
    {
      originated := 0;
      assert Kinds(calls)[..0] == [];
      for i := 0 to |calls|
        invariant Valid() && rreqCount == Discovery.RreqCount(RreqRateLimit, Kinds(calls)[..i]) <= RreqRateLimit
        invariant forall j :: i <= j < |calls| ==> rreqIdCache.latest <= calls[j].time
        invariant originated == Discovery.Originated(RreqRateLimit, Kinds(calls), 0, i)
        invariant |sent| == |old(sent)| + originated * |own|
      {
        Discovery.CountNext(RreqRateLimit, Kinds(calls), i);
        assert (originated + 1) * |own| == originated * |own| + |own|;
        var went := PerformOne(calls[i]);
        originated := if went then originated + 1 else originated;
      }
      assert Kinds(calls)[..|calls|] == Kinds(calls);
    }

    method RreqRateLimitTimerExpire()
      requires Valid()
      modifies this`rreqCount
      ensures Valid() && rreqCount == 0
    {
      rreqCount := 0;
    }

    method RecvReplyAck(neighbor: Address)
      requires Valid()
      modifies this`routingTable
      ensures Valid() && OnlyAt(old(routingTable), routingTable, neighbor)
      ensures Routes(routingTable) == if neighbor in old(routingTable)
                                      then var r := old(routingTable)[neighbor].route;
                                           Routes(old(routingTable))[neighbor := r.(flag := VALID)]
                                      else Routes(old(routingTable))
    {
      if neighbor in routingTable {
        var rt := routingTable[neighbor];
        rt := rt.(route := rt.route.(flag := VALID));
        WriteRoute(routingTable, rt);
        routingTable := Update(routingTable, rt);
      }
    }

    // ----- RecvAodv, as the network-wide system sees it: one step for each destination -----

    method RecvAodvReply(h: Rrep, dev: nat, sender: Address, now: int)
      requires Valid() && sender != UNSET && h.dst != UNSET
      modifies this`routingTable, this`reqTimer, this`sent
      ensures Valid()
      ensures MakesReplyStep(old(routingTable), routingTable, h, sender, dev, h.origin in own)
      // what goes on is what ReplyGoesOn speaks of
      ensures sent == old(sent) + if h.dst == h.origin then [] else SentAfterReply(own, Routes(routingTable), h, sender)
      ensures var heard := LoopFreedom.Heard(RouteIn(Routes(old(routingTable)), h.dst), h.dst, sender,
                                             OverDevice(old(routingTable), sender, dev));
              reqTimer == if h.dst != h.origin && h.origin in own && heard.Some? && heard.value.flag == IN_SEARCH
                          then old(reqTimer) - {h.dst} else old(reqTimer)
    {
      ghost var t := routingTable;
      UpdateRouteToNeighbor(sender, dev, now);
      ghost var t1 := routingTable;
      RecvReply(h, dev, sender, now);
      ReplyMakesStep(own, t, t1, routingTable, h, sender, dev);
    }

    // A request that is ignored still refreshes the route to its sender. Refreshing makes a new entry, which is
    // not blacklisted, except where the sender has a direct route with a known number over the same device.
    method RecvAodvRequest(h: Rreq, dev: nat, sender: Address, now: int)
      requires Valid() && sender != UNSET && h.origin != UNSET && rreqIdCache.latest <= now
      modifies this`routingTable, this`seqNo, this`sent, rreqIdCache
      ensures Valid() && old(sent) <= sent
      ensures var same := OverDevice(old(routingTable), sender, dev);
              var dup := old(rreqIdCache.SeenBefore(h.origin, h.id, now));
              var blacklisted := old(Blacklisted(routingTable, sender))
                                 && LoopFreedom.KnowsDirect(RouteIn(Routes(old(routingTable)), sender), same);
              && MakesFloodStep(old(routingTable), routingTable, h, sender, same, dup, blacklisted, sent[|old(sent)|..])
              && if dup || blacklisted
                 then OnlyHeard(old(routingTable), routingTable, sender, dev) && sent == old(sent)
                      && seqNo == old(seqNo)
                 else MakesRequestStep(old(routingTable), routingTable, h, sender, dev)
                      && rreqIdCache.SeenBefore(h.origin, h.id, now + rreqIdCache.lifetime)
                      && seqNo == (if h.dst in own then ReplySeqNo(old(seqNo), h.unknownSeqNo, h.dstSeqNo)
                                   else old(seqNo))
                      && h.origin in routingTable
                      && SentFor(own, routingTable, h.(hopCount := (h.hopCount + 1) % 256), sender, seqNo,
                                 MyRouteTimeout, now, sent[|old(sent)|..])
                      && TreatsRight(own, routingTable, h.(hopCount := (h.hopCount + 1) % 256), sender, old(seqNo), now,
                                     sent[|old(sent)|..])
    {
      ghost var t, before := routingTable, sent;
      UpdateRouteToNeighbor(sender, dev, now);
      ghost var t1, dup, blacklisted := routingTable, rreqIdCache.SeenBefore(h.origin, h.id, now),
                                        routingTable[sender].unidirectional;
      RecvRequest(h, dev, sender, now);
      RequestMakesStep(t, t1, routingTable, h, sender, dev);
      if dup || blacklisted {
        assert sent[|before|..] == [];
        IgnoredMakesFloodStep(t, routingTable, h, sender, dev, dup, blacklisted);
      } else {
        NewRequestMakesFloodStep(own, t, routingTable, h, sender, dev, seqNo, MyRouteTimeout, now, sent[|before|..]);
      }
    }

    method RecvAodvReplyAck(dev: nat, sender: Address, now: int)
      requires Valid() && sender != UNSET
      modifies this`routingTable
      ensures Valid()
      ensures JustHeard(old(routingTable), routingTable, sender, dev, true)
      ensures NoOther(old(routingTable), routingTable, {sender})
    {
      UpdateRouteToNeighbor(sender, dev, now);
      assert Routes(routingTable)[sender] == routingTable[sender].route;
      RecvReplyAck(sender);
    }
  }
}
