/** Routes of AODV to one destination (sections 6.1, 6.5 and 6.7 of RFC 3561), seen network-wide. */
module LoopFreedom {
  import opened Common
  import opened AodvTable

  // The state is the routes of all nodes to the destination, and the messages that speak of it and are or were
  // on their way. A message that has been sent may be received by any node, any number of times, at any later
  // moment, or never: delay, loss and duplication are all covered.

  // What a RREP for the destination, or a RREQ originated by it, says as it leaves sender.
  datatype Advert = Advert(sender: Address, seqNo: nat, hopCount: nat)

  // hellos are the sequence numbers in hellos of the destination; destSeqNo is its m_seqNo.
  datatype Net = Net(routes: map<Address, Route>, replies: set<Advert>, requests: set<Advert>, hellos: set<nat>,
                     destSeqNo: nat)

  function RouteAt(s: Net, n: Address): Option<Route> {
    if n in s.routes then Some(s.routes[n]) else None
  }

  ghost predicate Usable(s: Net, n: Address) {
    n in s.routes && s.routes[n].flag == VALID
  }

  // ----- Steps -----

  datatype Event =
    | OwnRequest                                  // SendRequest at the destination, for another node
    | DestReply(unknownSeqNo: bool, dstSeqNo: nat)  // SendReply
    | SendHello                                   // at the destination
    // SendReplyByIntermediateNode, about the destination of a request or, if gratuitous, about its origin
    | IntermediateReply(node: Address)
    // RecvAodv with a RREP, a RREQ, a hello of the destination, and any other message of the destination, which
    // may be an acknowledgement; same says whether a direct route uses the receiving device
    | ReceiveReply(node: Address, reply: Advert, same: bool, asked: bool, forwards: bool)
    | ReceiveRequest(node: Address, request: Advert, same: bool, forwards: bool)
    | ReceiveHello(node: Address, seqNo: nat, same: bool)
    | HearNeighbour(node: Address, same: bool, ack: bool)
    | Search(node: Address)                       // SendRequest for the destination
    | GiveUp(node: Address)                       // RouteRequestTimerExpire drops the entry

  // RecvAodv refreshes the route to the sender before it looks at the message.
  function Heard(prior: Option<Route>, d: Address, sender: Address, same: bool): Option<Route> {
    if sender == d then Some(RefreshNeighbour(prior, d, same)) else prior
  }

  function AfterReply(prior: Option<Route>, d: Address, m: Advert, same: bool, asked: bool): Route {
    var hop := (m.hopCount + 1) % 256;
    if asked then AcceptReplyAtOrigin(Heard(prior, d, m.sender, same), m.seqNo, hop, m.sender)
    else AcceptReply(Heard(prior, d, m.sender, same), m.seqNo, hop, m.sender)
  }

  function AfterRequest(prior: Option<Route>, d: Address, m: Advert, same: bool): Route {
    AcceptRequest(Heard(prior, d, m.sender, same), m.seqNo, (m.hopCount + 1) % 256, m.sender)
  }

  function AfterHello(prior: Option<Route>, d: Address, seqNo: nat, same: bool): Route {
    AcceptHello(Heard(prior, d, d, same), d, seqNo)
  }

  function AfterHearing(prior: Option<Route>, d: Address, same: bool, ack: bool): Route {
    var r := RefreshNeighbour(prior, d, same);
    if ack then r.(flag := VALID) else r
  }

  // What each event requires: what its handler tests, and that sequence numbers stay in a window of 2^31.
  ghost predicate Possible(d: Address, base: nat, s: Net, e: Event) {
    match e
    case OwnRequest => InWindow(base, (s.destSeqNo + 1) % TWO_32)
    case DestReply(unknown, dstSeqNo) => InWindow(base, ReplySeqNo(s.destSeqNo, unknown, dstSeqNo))
    case IntermediateReply(n) => n in s.routes && s.routes[n].validSeqNo
    case ReceiveReply(_, m, _, asked, forwards) => m in s.replies && !(asked && forwards)
    case ReceiveRequest(n, m, _, _) => m in s.requests && n != d  // it knows its own requests
    case ReceiveHello(_, seqNo, _) => seqNo in s.hellos
    case GiveUp(n) => n in s.routes && !Usable(s, n)
    case _ => true
  }

  // ----- When a handler takes care of what is known -----

  predicate KnowsSeqNo(prior: Option<Route>) {
    prior.Some? && prior.value.validSeqNo
  }

  predicate KnowsDirect(prior: Option<Route>, same: bool) {
    KnowsSeqNo(prior) && prior.value.hop == 1 && same
  }

  // The freshness test of section 6.2 of RFC 3561.
  predicate NotStale(prior: Option<Route>, seqNo: nat, hop: nat) {
    KnowsSeqNo(prior) ==>
      Newer(seqNo, prior.value.seqNo) || (seqNo == prior.value.seqNo && hop <= prior.value.hop)
  }

  // RecvReply makes the test except where the entry is searched: then its asker takes any reply, and other nodes
  // take one that is as fresh and farther.
  predicate CarefulReply(prior: Option<Route>, d: Address, m: Advert, same: bool, asked: bool) {
    if m.sender == d && !KnowsDirect(prior, same) then NotStale(prior, m.seqNo, m.hopCount + 1)
    else KnowsSeqNo(prior) && prior.value.flag != VALID ==>
      || NotStale(prior, m.seqNo, m.hopCount + 1)
      || (!asked && Newer(prior.value.seqNo, m.seqNo))
  }

  // RecvRequest makes no test.
  predicate CarefulRequest(prior: Option<Route>, d: Address, m: Advert, same: bool) {
    (m.sender == d && KnowsDirect(prior, same)) || NotStale(prior, m.seqNo, m.hopCount + 1)
  }

  // Neither does ProcessHello; UpdateRouteToNeighbor forgets numbers, and so does giving up. The 8-bit hop counts of
  // replies and requests must not wrap around.
  predicate Careful(d: Address, s: Net, e: Event) {
    match e
    case ReceiveReply(n, m, same, asked, _) => m.hopCount < 255 && CarefulReply(RouteAt(s, n), d, m, same, asked)
    case ReceiveRequest(n, m, same, _) => m.hopCount < 255 && CarefulRequest(RouteAt(s, n), d, m, same)
    case ReceiveHello(n, seqNo, _) => NotStale(RouteAt(s, n), seqNo, 1)
    case HearNeighbour(n, same, _) => KnowsSeqNo(RouteAt(s, n)) ==> KnowsDirect(RouteAt(s, n), same)
    case GiveUp(n) => !KnowsSeqNo(RouteAt(s, n))
    case _ => true
  }

  ghost predicate Enabled(d: Address, base: nat, s: Net, e: Event) {
    Possible(d, base, s, e) && Careful(d, s, e)
  }

  function Next(d: Address, s: Net, e: Event): Net {
    match e
    case OwnRequest =>
      var seqNo := (s.destSeqNo + 1) % TWO_32;
      s.(destSeqNo := seqNo, requests := s.requests + {Advert(d, seqNo, 0)})
    case DestReply(unknown, dstSeqNo) =>
      var seqNo := ReplySeqNo(s.destSeqNo, unknown, dstSeqNo);
      s.(destSeqNo := seqNo, replies := s.replies + {Advert(d, seqNo, 0)})
    case IntermediateReply(n) =>
      if n in s.routes then s.(replies := s.replies + {Advert(n, s.routes[n].seqNo, s.routes[n].hop)}) else s
    case ReceiveReply(n, m, same, asked, forwards) =>
      s.(routes := s.routes[n := AfterReply(RouteAt(s, n), d, m, same, asked)],
         replies := if forwards then s.replies + {Advert(n, m.seqNo, (m.hopCount + 1) % 256)} else s.replies)
    case ReceiveRequest(n, m, same, forwards) =>
      s.(routes := s.routes[n := AfterRequest(RouteAt(s, n), d, m, same)],
         requests := if forwards then s.requests + {Advert(n, m.seqNo, (m.hopCount + 1) % 256)} else s.requests)
    case SendHello => s.(hellos := s.hellos + {s.destSeqNo})
    case ReceiveHello(n, seqNo, same) => s.(routes := s.routes[n := AfterHello(RouteAt(s, n), d, seqNo, same)])
    case HearNeighbour(n, same, ack) => s.(routes := s.routes[n := AfterHearing(RouteAt(s, n), d, same, ack)])
    case Search(n) => s.(routes := s.routes[n := BeginSearch(RouteAt(s, n))])
    case GiveUp(n) => s.(routes := s.routes - {n})
  }

  ghost predicate Init(base: nat, s: Net) {
    && s.routes == map[] && s.replies == {} && s.requests == {} && s.hellos == {}
    && base < TWO_32 && InWindow(base, s.destSeqNo)
  }

  // A run of handlers that take care: states and the events between them.
  ghost predicate Run(d: Address, base: nat, states: seq<Net>, events: seq<Event>) {
    && |states| == |events| + 1
    && Init(base, states[0])
    && forall i :: 0 <= i < |events| ==>
         Enabled(d, base, states[i], events[i]) && states[i + 1] == Next(d, states[i], events[i])
  }

  // ----- Invariant -----

  // (seqNo, hop) of r is at least as fresh and as near as the given pair.
  ghost predicate AtLeast(base: nat, r: Route, seqNo: nat, hop: nat) {
    r.validSeqNo && (Since(base, r.seqNo) > Since(base, seqNo) || (r.seqNo == seqNo && r.hop <= hop))
  }

  ghost predicate Better(base: nat, r: Route, seqNo: nat, hop: nat) {
    r.validSeqNo && (Since(base, r.seqNo) > Since(base, seqNo) || (r.seqNo == seqNo && r.hop < hop))
  }

  ghost predicate Known(base: nat, s: Net, seqNo: nat) {
    InWindow(base, seqNo) && Since(base, seqNo) <= Since(base, s.destSeqNo)
  }

  // Whoever sent a message is the destination, or holds a route no worse than the message said.
  ghost predicate AdvertOk(d: Address, base: nat, s: Net, m: Advert) {
    && Known(base, s, m.seqNo) && m.hopCount < 256
    && (m.sender != d ==>
          m.hopCount > 0 && m.sender in s.routes && AtLeast(base, s.routes[m.sender], m.seqNo, m.hopCount))
  }

  // Only entries that are searched are not valid. A route with a sequence number, searched or not, leads to the
  // destination, or to a node with a better one; a valid one without is direct.
  ghost predicate RouteOk(d: Address, base: nat, s: Net, r: Route) {
    && r.flag != INVALID
    && (r.flag == VALID && !r.validSeqNo ==> r.nextHop == d)
    && (r.validSeqNo ==>
          && Known(base, s, r.seqNo) && 0 < r.hop < 256
          && (r.hop == 1 ==> r.nextHop == d)
          && (r.nextHop != d ==> r.nextHop in s.routes && Better(base, s.routes[r.nextHop], r.seqNo, r.hop)))
  }

  ghost predicate Inv(d: Address, base: nat, s: Net) {
    && base < TWO_32 && InWindow(base, s.destSeqNo)
    && (forall m :: m in s.replies + s.requests ==> AdvertOk(d, base, s, m))
    && (forall m :: m in s.requests && m.sender == d ==> m.hopCount == 0)
    && (forall h :: h in s.hellos ==> Known(base, s, h))
    && (forall n :: n in s.routes ==> RouteOk(d, base, s, s.routes[n]))
  }

  // ----- Every event keeps the invariant -----

  // A route with a known sequence number is replaced by nothing older or farther.
  ghost predicate Improves(base: nat, prior: Option<Route>, r: Route) {
    KnowsSeqNo(prior) ==> AtLeast(base, r, prior.value.seqNo, prior.value.hop)
  }

  lemma ImprovedRouteKeepsInv(d: Address, base: nat, s: Net, n: Address, r: Route)
    requires Inv(d, base, s) && Improves(base, RouteAt(s, n), r)
    requires RouteOk(d, base, s.(routes := s.routes[n := r]), r)
    ensures Inv(d, base, s.(routes := s.routes[n := r]))
  {
    var s' := s.(routes := s.routes[n := r]);
    forall m | m in s'.replies + s'.requests
      ensures AdvertOk(d, base, s', m)
    {
      assert AdvertOk(d, base, s, m);
    }
    forall k | k in s'.routes
      ensures RouteOk(d, base, s', s'.routes[k])
    {
      if k != n {
        assert RouteOk(d, base, s, s.routes[k]);
      }
    }
  }

  lemma NewAdvertKeepsInv(d: Address, base: nat, s: Net, m: Advert, s': Net)
    requires Inv(d, base, s) && AdvertOk(d, base, s, m)
    requires s' == s.(replies := s.replies + {m})
             || (s' == s.(requests := s.requests + {m}) && (m.sender == d ==> m.hopCount == 0))
    ensures Inv(d, base, s')
  {
    forall k | k in s'.replies + s'.requests
      ensures AdvertOk(d, base, s', k)
    {
      assert AdvertOk(d, base, s, k);
    }
    forall k | k in s'.routes
      ensures RouteOk(d, base, s', s'.routes[k])
    {
      assert RouteOk(d, base, s, s.routes[k]);
    }
  }

  lemma NextSeqNoIsLater(base: nat, seqNo: nat)
    requires base < TWO_32 && InWindow(base, seqNo)
    ensures Since(base, (seqNo + 1) % TWO_32) == Since(base, seqNo) + 1
  {
  }

  // Whether it is adopted or not, the receiver ends up with a route no worse than the message offers.
  ghost predicate Matched(d: Address, base: nat, s: Net, n: Address, m: Advert, r: Route) {
    && Improves(base, RouteAt(s, n), r)
    && AtLeast(base, r, m.seqNo, m.hopCount + 1)
    && RouteOk(d, base, s.(routes := s.routes[n := r]), r)
  }

  lemma MatchFacts(d: Address, base: nat, s: Net, n: Address, m: Advert)
    requires Inv(d, base, s) && m in s.replies + s.requests && m.hopCount < 255
    ensures AdvertOk(d, base, s, m) && (m.hopCount + 1) % 256 == m.hopCount + 1
    ensures n in s.routes ==> RouteOk(d, base, s, s.routes[n])
    ensures n in s.routes && s.routes[n].validSeqNo ==>
              && (Newer(m.seqNo, s.routes[n].seqNo) <==> Since(base, m.seqNo) > Since(base, s.routes[n].seqNo))
              && (m.seqNo == s.routes[n].seqNo <==> Since(base, m.seqNo) == Since(base, s.routes[n].seqNo))
  {
    assert AdvertOk(d, base, s, m);
    if n in s.routes {
      assert RouteOk(d, base, s, s.routes[n]);
      if s.routes[n].validSeqNo {
        NewerIsLater(base, m.seqNo, s.routes[n].seqNo);
      }
    }
  }

  lemma ReplyIsMatched(d: Address, base: nat, s: Net, n: Address, m: Advert, same: bool, asked: bool)
    requires Inv(d, base, s) && m in s.replies && m.hopCount < 255 && CarefulReply(RouteAt(s, n), d, m, same, asked)
    ensures Matched(d, base, s, n, m, AfterReply(RouteAt(s, n), d, m, same, asked))
  {
    MatchFacts(d, base, s, n, m);
  }

  lemma RequestIsMatched(d: Address, base: nat, s: Net, n: Address, m: Advert, same: bool, forwards: bool)
    requires Inv(d, base, s) && Enabled(d, base, s, ReceiveRequest(n, m, same, forwards))
    ensures Matched(d, base, s, n, m, AfterRequest(RouteAt(s, n), d, m, same))
  {
    MatchFacts(d, base, s, n, m);
  }

  // Taking in a matched route and passing the message on, one hop farther.
  lemma PassOnKeepsInv(d: Address, base: nat, s: Net, n: Address, m: Advert, r: Route, s': Net)
    requires Inv(d, base, s) && m in s.replies + s.requests && m.hopCount < 255 && Matched(d, base, s, n, m, r)
    requires var t := s.(routes := s.routes[n := r]);
             var on := Advert(n, m.seqNo, m.hopCount + 1);
             s' == t || s' == t.(replies := t.replies + {on}) || (s' == t.(requests := t.requests + {on}) && n != d)
    ensures Inv(d, base, s')
  {
    var t := s.(routes := s.routes[n := r]);
    ImprovedRouteKeepsInv(d, base, s, n, r);
    if s' != t {
      var on := Advert(n, m.seqNo, m.hopCount + 1);
      assert AdvertOk(d, base, t, on) by {
        assert AdvertOk(d, base, s, m);
      }
      NewAdvertKeepsInv(d, base, t, on, s');
    }
  }

  lemma ReceiveKeepsInv(d: Address, base: nat, s: Net, e: Event)
    requires Inv(d, base, s) && (e.ReceiveReply? || e.ReceiveRequest?) && Enabled(d, base, s, e)
    ensures Inv(d, base, Next(d, s, e))
  {
    if e.ReceiveReply? {
      assert (e.reply.hopCount + 1) % 256 == e.reply.hopCount + 1;
      ReplyIsMatched(d, base, s, e.node, e.reply, e.same, e.asked);
      PassOnKeepsInv(d, base, s, e.node, e.reply, AfterReply(RouteAt(s, e.node), d, e.reply, e.same, e.asked),
                     Next(d, s, e));
    } else {
      assert (e.request.hopCount + 1) % 256 == e.request.hopCount + 1;
      RequestIsMatched(d, base, s, e.node, e.request, e.same, e.forwards);
      PassOnKeepsInv(d, base, s, e.node, e.request, AfterRequest(RouteAt(s, e.node), d, e.request, e.same),
                     Next(d, s, e));
    }
  }

  lemma HelloKeepsInv(d: Address, base: nat, s: Net, n: Address, seqNo: nat, same: bool)
    requires Inv(d, base, s) && seqNo in s.hellos && NotStale(RouteAt(s, n), seqNo, 1)
    ensures Inv(d, base, Next(d, s, ReceiveHello(n, seqNo, same)))
  {
    if n in s.routes {
      assert RouteOk(d, base, s, s.routes[n]);
      if s.routes[n].validSeqNo {
        NewerIsLater(base, seqNo, s.routes[n].seqNo);
      }
    }
    var r := AfterHello(RouteAt(s, n), d, seqNo, same);
    assert r == Route(true, seqNo, 1, d, VALID);
    ImprovedRouteKeepsInv(d, base, s, n, r);
  }

  lemma HearNeighbourKeepsInv(d: Address, base: nat, s: Net, n: Address, same: bool, ack: bool)
    requires Inv(d, base, s) && (KnowsSeqNo(RouteAt(s, n)) ==> KnowsDirect(RouteAt(s, n), same))
    ensures Inv(d, base, Next(d, s, HearNeighbour(n, same, ack)))
  {
    if n in s.routes {
      assert RouteOk(d, base, s, s.routes[n]);
    }
    ImprovedRouteKeepsInv(d, base, s, n, AfterHearing(RouteAt(s, n), d, same, ack));
  }

  lemma SearchKeepsInv(d: Address, base: nat, s: Net, n: Address)
    requires Inv(d, base, s)
    ensures Inv(d, base, Next(d, s, Search(n)))
  {
    if n in s.routes {
      assert RouteOk(d, base, s, s.routes[n]);
    }
    ImprovedRouteKeepsInv(d, base, s, n, BeginSearch(RouteAt(s, n)));
  }

  lemma StepKeepsInv(d: Address, base: nat, s: Net, e: Event)
    requires Inv(d, base, s) && Enabled(d, base, s, e)
    ensures Inv(d, base, Next(d, s, e))
  {
    match e
    case OwnRequest =>
      var seqNo := (s.destSeqNo + 1) % TWO_32;
      NextSeqNoIsLater(base, s.destSeqNo);
      NewAdvertKeepsInv(d, base, s.(destSeqNo := seqNo), Advert(d, seqNo, 0), Next(d, s, e));
    case DestReply(unknown, dstSeqNo) =>
      var seqNo := ReplySeqNo(s.destSeqNo, unknown, dstSeqNo);
      NextSeqNoIsLater(base, s.destSeqNo);
      NewAdvertKeepsInv(d, base, s.(destSeqNo := seqNo), Advert(d, seqNo, 0), Next(d, s, e));
    case IntermediateReply(n) =>
      assert RouteOk(d, base, s, s.routes[n]);
      NewAdvertKeepsInv(d, base, s, Advert(n, s.routes[n].seqNo, s.routes[n].hop), Next(d, s, e));
    case ReceiveReply(_, _, _, _, _) => ReceiveKeepsInv(d, base, s, e);
    case ReceiveRequest(_, _, _, _) => ReceiveKeepsInv(d, base, s, e);
    case SendHello =>
    case ReceiveHello(n, seqNo, same) => HelloKeepsInv(d, base, s, n, seqNo, same);
    case HearNeighbour(n, same, ack) => HearNeighbourKeepsInv(d, base, s, n, same, ack);
    case Search(n) => SearchKeepsInv(d, base, s, n);
    case GiveUp(_) =>
  }

  lemma {:induction false} RunKeepsInv(d: Address, base: nat, states: seq<Net>, events: seq<Event>, i: nat)
    requires Run(d, base, states, events) && i < |states|
    ensures Inv(d, base, states[i])
  {
    if i > 0 {
      RunKeepsInv(d, base, states, events, i - 1);
      StepKeepsInv(d, base, states[i - 1], events[i - 1]);
    }
  }

  // ----- No loops, and arrival -----

  // p follows next hops of usable routes and does not go on from the destination.
  ghost predicate Follows(d: Address, s: Net, p: seq<Address>) {
    && |p| > 0
    && forall i :: 0 <= i < |p| - 1 ==> p[i] != d && Usable(s, p[i]) && s.routes[p[i]].nextHop == p[i + 1]
  }

  // Falls from hop to hop: fresher first, then nearer.
  ghost function Rank(d: Address, base: nat, s: Net, n: Address): nat {
    if n == d then 0
    else if n in s.routes && s.routes[n].validSeqNo && s.routes[n].hop < 256 && InWindow(base, s.routes[n].seqNo)
      then (TWO_31 - 1 - Since(base, s.routes[n].seqNo)) * 256 + s.routes[n].hop + 1
    else TWO_31 * 256 + 1
  }

  lemma {:induction false} RankFalls(d: Address, base: nat, s: Net, p: seq<Address>, i: nat, j: nat)
    requires Inv(d, base, s) && Follows(d, s, p) && i < j < |p|
    ensures Rank(d, base, s, p[j]) < Rank(d, base, s, p[i])
    decreases j - i
  {
    if i < j - 1 {
      RankFalls(d, base, s, p, i, j - 1);
    }
  }

  // Following next hops never comes back to a node.
  lemma RunHasNoLoops(d: Address, base: nat, states: seq<Net>, events: seq<Event>, k: nat, p: seq<Address>)
    requires Run(d, base, states, events) && k < |states| && Follows(d, states[k], p)
    ensures forall i, j :: 0 <= i < j < |p| ==> p[i] != p[j]
  {
    RunKeepsInv(d, base, states, events, k);
    forall i, j | 0 <= i < j < |p|
      ensures p[i] != p[j]
    {
      RankFalls(d, base, states[k], p, i, j);
    }
  }

  ghost predicate Searched(s: Net, n: Address) {
    n in s.routes && s.routes[n].flag == IN_SEARCH
  }

  // p follows next hops from n to the destination, or to a node that is searching for it.
  ghost predicate LeadsOn(d: Address, s: Net, n: Address, p: seq<Address>) {
    Follows(d, s, p) && p[0] == n && (p[|p| - 1] == d || Searched(s, p[|p| - 1]))
  }

  lemma {:induction false} FollowOn(d: Address, base: nat, s: Net, n: Address)
    requires Inv(d, base, s) && (n == d || Usable(s, n))
    ensures exists p :: LeadsOn(d, s, n, p)
    decreases Rank(d, base, s, n)
  {
    if n == d {
      assert LeadsOn(d, s, n, [n]);
    } else {
      assert RouteOk(d, base, s, s.routes[n]);
      var m := s.routes[n].nextHop;
      if Searched(s, m) && m != d {
        assert LeadsOn(d, s, n, [n, m]);
      } else {
        FollowOn(d, base, s, m);
        var q :| LeadsOn(d, s, m, q);
        assert LeadsOn(d, s, n, [n] + q);
      }
    }
  }

  // From every node with a usable route, next hops lead to the destination or to a node that is searching.
  lemma RunLeadsOn(d: Address, base: nat, states: seq<Net>, events: seq<Event>, k: nat, n: Address)
    requires Run(d, base, states, events) && k < |states| && Usable(states[k], n)
    ensures exists p :: LeadsOn(d, states[k], n, p)
  {
    RunKeepsInv(d, base, states, events, k);
    FollowOn(d, base, states[k], n);
  }

  ghost predicate Delivers(d: Address, s: Net, n: Address, p: seq<Address>) {
    Follows(d, s, p) && p[0] == n && p[|p| - 1] == d
  }

  // No usable route goes over a node that is searching.
  ghost predicate NextHopsUsable(d: Address, s: Net) {
    forall n :: Usable(s, n) && n != d ==> s.routes[n].nextHop == d || Usable(s, s.routes[n].nextHop)
  }

  lemma {:induction false} StaysUsable(d: Address, s: Net, p: seq<Address>, i: nat)
    requires NextHopsUsable(d, s) && Follows(d, s, p) && i < |p| && (p[0] == d || Usable(s, p[0]))
    ensures p[i] == d || Usable(s, p[i])
  {
    if i > 0 {
      StaysUsable(d, s, p, i - 1);
    }
  }

  lemma StopsShort(d: Address, s: Net, n: Address, p: seq<Address>)
    requires Usable(s, n) && n != d && s.routes[n].nextHop != d && !Usable(s, s.routes[n].nextHop)
    ensures !Delivers(d, s, n, p)
  {
    if |p| > 1 && Follows(d, s, p) && p[0] == n {
      assert p[1] == s.routes[n].nextHop;
    }
  }

  // All usable routes lead to the destination exactly when none of them goes over a node that is searching.
  lemma RunDeliversIff(d: Address, base: nat, states: seq<Net>, events: seq<Event>, k: nat)
    requires Run(d, base, states, events) && k < |states|
    ensures (forall n :: Usable(states[k], n) ==> exists p :: Delivers(d, states[k], n, p))
            <==> NextHopsUsable(d, states[k])
  {
    var s := states[k];
    if NextHopsUsable(d, s) {
      forall n | Usable(s, n)
        ensures exists p :: Delivers(d, s, n, p)
      {
        RunLeadsOn(d, base, states, events, k, n);
        var p :| LeadsOn(d, s, n, p);
        StaysUsable(d, s, p, |p| - 1);
        assert Delivers(d, s, n, p);
      }
    } else {
      var n :| Usable(s, n) && n != d && s.routes[n].nextHop != d && !Usable(s, s.routes[n].nextHop);
      forall p
        ensures !Delivers(d, s, n, p)
      {
        StopsShort(d, s, n, p);
      }
    }
  }

  // ----- What care means -----

  // A known sequence number is still known, or a fresher one, or it is nearer.
  ghost predicate NothingLost(base: nat, prior: Option<Route>, after: Option<Route>) {
    KnowsSeqNo(prior) ==> after.Some? && AtLeast(base, after.value, prior.value.seqNo, prior.value.hop)
  }

  // RecvReply loses nothing exactly when it takes care: always, for a route that is not searched.
  lemma ReplyOverwritesUnlessFresh(d: Address, base: nat, s: Net, n: Address, m: Advert, same: bool, asked: bool)
    requires Inv(d, base, s) && m in s.replies && m.hopCount < 255
    ensures NothingLost(base, RouteAt(s, n), Some(AfterReply(RouteAt(s, n), d, m, same, asked)))
            <==> CarefulReply(RouteAt(s, n), d, m, same, asked)
  {
    MatchFacts(d, base, s, n, m);
    if n in s.routes && s.routes[n].validSeqNo {
      NewerIsLater(base, s.routes[n].seqNo, m.seqNo);
    }
  }

  // RecvRequest loses nothing and keeps to the sequence number that the request vouches for, except on a direct
  // route, exactly when the freshness test it lacks would have passed. It leaves a searched entry searched.
  lemma RequestOverwritesUnlessFresh(d: Address, base: nat, s: Net, n: Address, m: Advert, same: bool)
    requires Inv(d, base, s) && m in s.requests && m.hopCount < 255
    ensures var r := AfterRequest(RouteAt(s, n), d, m, same);
            && (NothingLost(base, RouteAt(s, n), Some(r)) && (r.nextHop == d || r.seqNo == m.seqNo)
                <==> CarefulRequest(RouteAt(s, n), d, m, same))
            && (m.sender != d && n in s.routes ==> r.flag == s.routes[n].flag)
  {
    MatchFacts(d, base, s, n, m);
  }

  // A stale request with a smaller hop count: the newer number is kept, for a next hop that does not have it.
  lemma StaleRequestMayKeepSeqNo()
    ensures var prior, m := Some(Route(true, 2, 3, X, VALID)), Advert(M, 1, 1);
            var r := AfterRequest(prior, D, m, true);
            && NothingLost(0, prior, Some(r)) && !CarefulRequest(prior, D, m, true)
            && r == Route(true, 2, 2, M, VALID)
  {
  }

  // ProcessHello loses nothing exactly when the hello is not late.
  lemma HelloOverwritesUnlessFresh(d: Address, base: nat, s: Net, n: Address, seqNo: nat, same: bool)
    requires Inv(d, base, s) && seqNo in s.hellos
    ensures NothingLost(base, RouteAt(s, n), Some(AfterHello(RouteAt(s, n), d, seqNo, same)))
            <==> NotStale(RouteAt(s, n), seqNo, 1)
  {
    if n in s.routes {
      assert RouteOk(d, base, s, s.routes[n]);
      if s.routes[n].validSeqNo {
        NewerIsLater(base, seqNo, s.routes[n].seqNo);
      }
    }
  }

  // UpdateRouteToNeighbor loses nothing exactly when the entry has nothing to lose or is already direct.
  lemma NeighbourForgetsUnlessDirect(base: nat, prior: Option<Route>, d: Address, same: bool, ack: bool)
    ensures NothingLost(base, prior, Some(AfterHearing(prior, d, same, ack)))
            <==> (KnowsSeqNo(prior) ==> KnowsDirect(prior, same))
  {
  }

  // RouteRequestTimerExpire loses nothing exactly when the entry it drops has no sequence number.
  lemma GiveUpForgetsUnlessUnknown(d: Address, base: nat, s: Net, n: Address)
    ensures NothingLost(base, RouteAt(s, n), RouteAt(Next(d, s, GiveUp(n)), n)) <==> !KnowsSeqNo(RouteAt(s, n))
  {
  }

  // ----- What happens without -----

  // s can be reached by a run of handlers that take care.
  ghost predicate Reachable(d: Address, base: nat, s: Net) {
    exists states, events :: Run(d, base, states, events) && states[|events|] == s
  }

  lemma ReachNext(d: Address, base: nat, s: Net, e: Event, s': Net)
    requires Reachable(d, base, s) && Enabled(d, base, s, e) && s' == Next(d, s, e)
    ensures Reachable(d, base, s')
  {
    var states, events :| Run(d, base, states, events) && states[|events|] == s;
    var states', events' := states + [s'], events + [e];
    assert Run(d, base, states', events') && states'[|events'|] == s';
  }

  lemma ReachStart(d: Address, base: nat, s: Net)
    requires Init(base, s)
    ensures Reachable(d, base, s)
  {
    var states, events: seq<Event> := [s], [];
    assert Run(d, base, states, events) && states[|events|] == s;
  }

  // Usable routes lead round in a circle, which no run of handlers that take care allows.
  ghost predicate Circle(d: Address, s: Net, p: seq<Address>) {
    |p| > 1 && Follows(d, s, p) && p[0] == p[|p| - 1]
  }

  const D := Address(10)
  const N := Address(11)
  const M := Address(12)
  const X := Address(13)
  const Y := Address(14)

  // At first, and after the destination has sent a hello and a request.
  const QUIET := Net(map[], {}, {}, {}, 0)
  const ASKED := Net(map[], {}, {Advert(D, 1, 0)}, {0}, 1)

  lemma AskedIsReachable()
    ensures Reachable(D, 0, ASKED)
  {
    var s1 := Net(map[], {}, {}, {0}, 0);
    ReachStart(D, 0, QUIET);
    ReachNext(D, 0, QUIET, SendHello, s1);
    ReachNext(D, 0, s1, OwnRequest, ASKED);
  }

  // A copy of the request with number 1 is held up at M, which by now routes through N; N holds the direct route
  // that the request with number 2 gave it.
  const TWICE := Net(map[M := Route(true, 1, 1, D, VALID)], {}, {Advert(D, 1, 0), Advert(M, 1, 1), Advert(D, 2, 0)},
                     {0}, 2)
  const HELD_UP := Net(map[M := Route(true, 2, 2, N, VALID), N := Route(true, 2, 1, D, VALID)], {},
                       {Advert(D, 1, 0), Advert(M, 1, 1), Advert(D, 2, 0), Advert(N, 2, 1)}, {0}, 2)

  lemma TwiceIsReachable()
    ensures Reachable(D, 0, TWICE)
  {
    var s2 := Net(TWICE.routes, {}, {Advert(D, 1, 0), Advert(M, 1, 1)}, {0}, 1);
    AskedIsReachable();
    ReachNext(D, 0, ASKED, ReceiveRequest(M, Advert(D, 1, 0), true, true), s2);
    ReachNext(D, 0, s2, OwnRequest, TWICE);
  }

  lemma HeldUpIsReachable()
    ensures Reachable(D, 0, HELD_UP)
  {
    var s4 := Net(TWICE.routes[N := Route(true, 2, 1, D, VALID)], {}, TWICE.requests + {Advert(N, 2, 1)}, {0}, 2);
    TwiceIsReachable();
    ReachNext(D, 0, TWICE, ReceiveRequest(N, Advert(D, 2, 0), true, true), s4);
    ReachNext(D, 0, s4, ReceiveRequest(M, Advert(N, 2, 1), true, false), HELD_UP);
  }

  // When the late copy arrives at N, RecvRequest turns N's route round.
  lemma StaleRequestMakesLoop()
    ensures var late := ReceiveRequest(N, Advert(M, 1, 1), true, false);
            && Reachable(D, 0, HELD_UP) && Possible(D, 0, HELD_UP, late) && !Careful(D, HELD_UP, late)
            && Circle(D, Next(D, HELD_UP, late), [N, M, N])
  {
    HeldUpIsReachable();
    var s1 := HELD_UP.(routes := map[M := Route(true, 2, 2, N, VALID), N := Route(true, 2, 2, M, VALID)]);
    assert Next(D, HELD_UP, ReceiveRequest(N, Advert(M, 1, 1), true, false)) == s1;
  }

  // M routes over N, which is near the destination.
  const NEAR := Net(map[N := Route(true, 1, 1, D, VALID)], {}, {Advert(D, 1, 0), Advert(N, 1, 1)}, {0}, 1)
  const BEHIND := Net(map[N := Route(true, 1, 1, D, VALID), M := Route(true, 1, 2, N, VALID)], {},
                      {Advert(D, 1, 0), Advert(N, 1, 1)}, {0}, 1)

  lemma BehindIsReachable()
    ensures Reachable(D, 0, NEAR) && Reachable(D, 0, BEHIND)
  {
    AskedIsReachable();
    ReachNext(D, 0, ASKED, ReceiveRequest(N, Advert(D, 1, 0), true, true), NEAR);
    ReachNext(D, 0, NEAR, ReceiveRequest(M, Advert(N, 1, 1), true, false), BEHIND);
  }

  // From a state in which M may answer and N takes any reply, N comes to route over M.
  lemma AnswerMakesLoop(s: Net)
    requires Usable(s, N) && s.routes[N].hop == 1 && Usable(s, M) && s.routes[M] == Route(true, 1, 2, N, VALID)
    requires !s.routes[N].validSeqNo || s.routes[N].seqNo == 0
    ensures var t := Next(D, s, IntermediateReply(M));
            var reply := ReceiveReply(N, Advert(M, 1, 2), true, false, false);
            && Enabled(D, 0, s, IntermediateReply(M)) && Enabled(D, 0, t, reply)
            && Circle(D, Next(D, t, reply), [N, M, N])
  {
    var t := s.(replies := s.replies + {Advert(M, 1, 2)});
    var u := t.(routes := t.routes[N := Route(true, 1, 3, M, VALID)]);
    assert Next(D, s, IntermediateReply(M)) == t;
    assert Next(D, t, ReceiveReply(N, Advert(M, 1, 2), true, false, false)) == u;
  }

  // N hears the destination itself again, over another device, and forgets the number. M answers on the strength of
  // the route through N, and N, which now takes any reply, adopts M's.
  lemma ForgottenSeqNoMakesLoop()
    ensures var forget, reply := HearNeighbour(N, false, false), ReceiveReply(N, Advert(M, 1, 2), true, false, false);
            var s1 := Next(D, BEHIND, forget);
            var s2 := Next(D, s1, IntermediateReply(M));
            && Reachable(D, 0, BEHIND) && Possible(D, 0, BEHIND, forget) && !Careful(D, BEHIND, forget)
            && Enabled(D, 0, s1, IntermediateReply(M)) && Enabled(D, 0, s2, reply)
            && Circle(D, Next(D, s2, reply), [N, M, N])
  {
    BehindIsReachable();
    AnswerMakesLoop(Next(D, BEHIND, HearNeighbour(N, false, false)));
  }

  // The same after a hello that is older than the number N has.
  lemma LateHelloMakesLoop()
    ensures var hello, reply := ReceiveHello(N, 0, true), ReceiveReply(N, Advert(M, 1, 2), true, false, false);
            var s1 := Next(D, BEHIND, hello);
            var s2 := Next(D, s1, IntermediateReply(M));
            && Reachable(D, 0, BEHIND) && Possible(D, 0, BEHIND, hello) && !Careful(D, BEHIND, hello)
            && Enabled(D, 0, s1, IntermediateReply(M)) && Enabled(D, 0, s2, reply)
            && Circle(D, Next(D, s2, reply), [N, M, N])
  {
    BehindIsReachable();
    AnswerMakesLoop(Next(D, BEHIND, ReceiveHello(N, 0, true)));
  }

  // N is searching when a request of the destination gives it a sequence number; X routes over N, and Y over X.
  const SEARCHING := Net(map[M := Route(true, 1, 1, D, VALID), N := Route(true, 1, 2, M, IN_SEARCH)], {},
                         {Advert(D, 1, 0), Advert(M, 1, 1), Advert(N, 1, 2)}, {0}, 1)
  const CHAINED := Net(map[M := Route(true, 1, 1, D, VALID), N := Route(true, 1, 2, M, IN_SEARCH),
                           X := Route(true, 1, 3, N, VALID), Y := Route(true, 1, 4, X, VALID)], {},
                       {Advert(D, 1, 0), Advert(M, 1, 1), Advert(N, 1, 2), Advert(X, 1, 3)}, {0}, 1)

  lemma SearchingIsReachable()
    ensures Reachable(D, 0, SEARCHING)
  {
    var s1 := ASKED.(routes := map[N := Route(false, 0, 0, UNSET, IN_SEARCH)]);
    var s2 := Net(s1.routes[M := Route(true, 1, 1, D, VALID)], {}, {Advert(D, 1, 0), Advert(M, 1, 1)}, {0}, 1);
    AskedIsReachable();
    ReachNext(D, 0, ASKED, Search(N), s1);
    ReachNext(D, 0, s1, ReceiveRequest(M, Advert(D, 1, 0), true, true), s2);
    ReachNext(D, 0, s2, ReceiveRequest(N, Advert(M, 1, 1), true, true), SEARCHING);
  }

  lemma ChainedIsReachable()
    ensures Reachable(D, 0, CHAINED)
  {
    var s4 := Net(SEARCHING.routes[X := Route(true, 1, 3, N, VALID)], {}, CHAINED.requests, {0}, 1);
    SearchingIsReachable();
    ReachNext(D, 0, SEARCHING, ReceiveRequest(X, Advert(N, 1, 2), true, true), s4);
    ReachNext(D, 0, s4, ReceiveRequest(Y, Advert(X, 1, 3), true, false), CHAINED);
  }

  // X has a usable route that ends at N, which cannot forward.
  lemma SearchedRelayStopsPackets()
    ensures Reachable(D, 0, CHAINED) && Usable(CHAINED, X) && !NextHopsUsable(D, CHAINED)
  {
    ChainedIsReachable();
    assert Usable(CHAINED, X) && !Usable(CHAINED, CHAINED.routes[X].nextHop);
  }

  // X and Y route over N, and N takes Y's reply.
  lemma EchoMakesLoop(s: Net, asked: bool)
    requires Usable(s, X) && s.routes[X].nextHop == N && Usable(s, Y) && s.routes[Y] == Route(true, 1, 4, X, VALID)
    requires N !in s.routes || (asked && Searched(s, N))
    ensures var t := Next(D, s, IntermediateReply(Y));
            var reply := ReceiveReply(N, Advert(Y, 1, 4), true, asked, false);
            && Enabled(D, 0, s, IntermediateReply(Y)) && Possible(D, 0, t, reply)
            && (Careful(D, t, reply) <==> CarefulReply(RouteAt(s, N), D, Advert(Y, 1, 4), true, asked))
            && Circle(D, Next(D, t, reply), [N, Y, X, N])
  {
    var t := s.(replies := s.replies + {Advert(Y, 1, 4)});
    var u := t.(routes := t.routes[N := Route(true, 1, 5, Y, VALID)]);
    assert Next(D, s, IntermediateReply(Y)) == t;
    assert Next(D, t, ReceiveReply(N, Advert(Y, 1, 4), true, asked, false)) == u;
  }

  // N, which asked, takes the reply that comes back to it from Y, though it is farther than the route it has.
  lemma SearchedReplyMakesLoop()
    ensures var s1 := Next(D, CHAINED, IntermediateReply(Y));
            var reply := ReceiveReply(N, Advert(Y, 1, 4), true, true, false);
            && Reachable(D, 0, CHAINED) && Enabled(D, 0, CHAINED, IntermediateReply(Y))
            && Possible(D, 0, s1, reply) && !Careful(D, s1, reply)
            && Circle(D, Next(D, s1, reply), [N, Y, X, N])
  {
    ChainedIsReachable();
    EchoMakesLoop(CHAINED, true);
  }

  // N gives up its search and with it the sequence number, and then takes the reply.
  lemma GivingUpMakesLoop()
    ensures var s1 := Next(D, CHAINED, GiveUp(N));
            var s2 := Next(D, s1, IntermediateReply(Y));
            var reply := ReceiveReply(N, Advert(Y, 1, 4), true, false, false);
            && Reachable(D, 0, CHAINED) && Possible(D, 0, CHAINED, GiveUp(N)) && !Careful(D, CHAINED, GiveUp(N))
            && Enabled(D, 0, s1, IntermediateReply(Y)) && Enabled(D, 0, s2, reply)
            && Circle(D, Next(D, s2, reply), [N, Y, X, N])
  {
    ChainedIsReachable();
    EchoMakesLoop(Next(D, CHAINED, GiveUp(N)), false);
  }

  // ----- A line of nodes behind the destination, each of which has its neighbour's copy of the request -----

  function Node(k: nat): Address
    requires k < 1000
  {
    if k == 0 then D else Address(100 + k)
  }

  function LineEvent(k: nat): Event
    requires k < 999
  {
    ReceiveRequest(Node(k + 1), Advert(Node(k), 1, k), true, true)
  }

  // Each of the first k nodes routes over the one before it, and node k has passed the request on.
  ghost predicate InLine(s: Net, k: nat)
    requires k < 1000
  {
    && Advert(Node(k), 1, k) in s.requests
    && (forall i :: 0 < i <= k ==> RouteAt(s, Node(i)) == Some(Route(true, 1, i, Node(i - 1), VALID)))
    && (forall i :: k < i < 1000 ==> RouteAt(s, Node(i)) == None)
  }

  lemma LineStep(s: Net, k: nat)
    requires k < 255 && InLine(s, k)
    ensures Enabled(D, 0, s, LineEvent(k)) && InLine(Next(D, s, LineEvent(k)), k + 1)
  {
    var s' := Next(D, s, LineEvent(k));
    assert RouteAt(s, Node(k + 1)) == None;
    assert RouteAt(s', Node(k + 1)) == Some(Route(true, 1, k + 1, Node(k), VALID));
    forall i | 0 < i < 1000 && i != k + 1
      ensures RouteAt(s', Node(i)) == RouteAt(s, Node(i))
    {
    }
  }

  lemma {:induction false} LineIsReachable(k: nat)
    requires k <= 255
    ensures exists s :: Reachable(D, 0, s) && InLine(s, k)
  {
    if k == 0 {
      AskedIsReachable();
      assert InLine(ASKED, 0);
    } else {
      LineIsReachable(k - 1);
      var s :| Reachable(D, 0, s) && InLine(s, k - 1);
      LineStep(s, k - 1);
      ReachNext(D, 0, s, LineEvent(k - 1), Next(D, s, LineEvent(k - 1)));
    }
  }

  // From the second node to the last, and back along the line.
  function Round(n: nat): (p: seq<Address>)
    requires 2 <= n < 999
    ensures |p| == n + 1
  {
    seq(n + 1, i requires 0 <= i < n + 1 => if i == 0 then Node(2) else Node(n + 2 - i))
  }

  lemma RoundFollows(s: Net, s3: Net, n: nat)
    requires 2 <= n < 999 && InLine(s, n)
    requires s3.routes == s.routes[Node(n + 1) := Route(true, 1, 0, Node(n), VALID)]
                                  [Node(2) := Route(true, 1, 1, Node(n + 1), VALID)]
    ensures Circle(D, s3, Round(n))
  {
    var p := Round(n);
    forall i | 0 <= i < |p| - 1
      ensures p[i] != D && Usable(s3, p[i]) && s3.routes[p[i]].nextHop == p[i + 1]
    {
      var k := if i == 0 then 2 else n + 2 - i;
      assert p[i] == Node(k);
      assert 0 < k <= n ==> RouteAt(s, Node(k)) == Some(Route(true, 1, k, Node(k - 1), VALID));
    }
  }

  // When a hop count of 255 wraps around, the next node in the line claims to be as near as the destination itself,
  // and the second one, to which it says so, turns its route round.
  lemma WrappedHopMakesLoop(n: nat)
    requires n == 255
    ensures exists s :: Reachable(D, 0, s) && WrapsRound(s, n)
  {
    LineIsReachable(n);
    var s :| Reachable(D, 0, s) && InLine(s, n);
    WrapTurnsRound(s, n);
  }

  ghost predicate WrapsRound(s: Net, n: nat)
    requires 2 <= n < 999
  {
    var wrap := ReceiveRequest(Node(n + 1), Advert(Node(n), 1, n), true, false);
    var s1 := Next(D, s, wrap);
    var s2 := Next(D, s1, IntermediateReply(Node(n + 1)));
    var reply := ReceiveReply(Node(2), Advert(Node(n + 1), 1, 0), true, false, false);
    && Possible(D, 0, s, wrap) && !Careful(D, s, wrap)
    && Enabled(D, 0, s1, IntermediateReply(Node(n + 1))) && Enabled(D, 0, s2, reply)
    && Circle(D, Next(D, s2, reply), Round(n))
  }

  lemma WrapTurnsRound(s: Net, n: nat)
    requires n == 255 && InLine(s, n)
    ensures WrapsRound(s, n)
  {
    var s1 := s.(routes := s.routes[Node(n + 1) := Route(true, 1, 0, Node(n), VALID)]);
    var s2 := s1.(replies := s1.replies + {Advert(Node(n + 1), 1, 0)});
    var s3 := s2.(routes := s2.routes[Node(2) := Route(true, 1, 1, Node(n + 1), VALID)]);
    assert RouteAt(s, Node(n + 1)) == None;
    assert RouteAt(s, Node(2)) == Some(Route(true, 1, 2, Node(1), VALID));
    assert Next(D, s, ReceiveRequest(Node(n + 1), Advert(Node(n), 1, n), true, false)) == s1;
    assert Next(D, s1, IntermediateReply(Node(n + 1))) == s2;
    assert Next(D, s2, ReceiveReply(Node(2), Advert(Node(n + 1), 1, 0), true, false, false)) == s3;
    RoundFollows(s, s3, n);
  }
}
