/** The AODV routing table.

    Its entries, the part of an entry that decides where packets go, and the rules by which the handlers of
    aodv-routing-protocol.cc rewrite that part: what RecvReply, UpdateRouteToNeighbor, ProcessHello, RecvRequest
    and SendRequest leave in the table for one destination, given what was there and what the message says.
    The class of one node is proved against these rules, and the network-wide steps are made of them. */
module AodvTable {
  import opened Common

  // uint32_t
  type Word = n: nat | n < 0x1_0000_0000

  datatype Address = Address(bits: Word)

  const TWO_32: nat := 0x1_0000_0000
  const TWO_31: nat := 0x8000_0000

  // ----- Sequence numbers -----

  // int32_t (s)
  function Int32(s: nat): int {
    if s < TWO_31 then s else s - TWO_32
  }

  // Two's complement wrap-around of a 32-bit difference.
  function Wrap32(x: int): int {
    (x + TWO_31) % TWO_32 - TWO_31
  }

  // int32_t (a) - int32_t (b) > 0
  predicate Newer(a: nat, b: nat) {
    Wrap32(Int32(a) - Int32(b)) > 0
  }

  // int32_t (a) - int32_t (b) >= 0
  predicate NotOlder(a: nat, b: nat) {
    Wrap32(Int32(a) - Int32(b)) >= 0
  }

  // How many increments lead from base to s.
  function Since(base: nat, s: nat): nat {
    (s - base) % TWO_32
  }

  // Numbers whose order, seen from base, the 32-bit comparison gets right.
  predicate InWindow(base: nat, s: nat) {
    s < TWO_32 && Since(base, s) < TWO_31
  }

  lemma NewerIsLater(base: nat, a: nat, b: nat)
    requires base < TWO_32 && InWindow(base, a) && InWindow(base, b)
    ensures Newer(a, b) <==> Since(base, a) > Since(base, b)
    ensures NotOlder(a, b) <==> Since(base, a) >= Since(base, b)
    ensures a == b <==> Since(base, a) == Since(base, b)
  {
  }

  // Outside a window of 2^31 the comparison is not an order.
  lemma NewerIsCircular()
    ensures Newer(0x6000_0000, 0) && Newer(0xC000_0000, 0x6000_0000) && Newer(0, 0xC000_0000)
  {
  }

  // ----- Routes -----

  datatype Flag = VALID | INVALID | IN_SEARCH

  // The fields of an entry that decide forwarding and freshness.
  datatype Route = Route(validSeqNo: bool, seqNo: nat, hop: nat, nextHop: Address, flag: Flag)

  const UNSET := Address(0x66666666)

  // The rules by which RecvReply takes the route that a reply offers, whose hop count is already incremented.
  predicate Adopts(prior: Option<Route>, seqNo: nat, hop: nat) {
    match prior
    case None => true
    case Some(r) =>
      !r.validSeqNo || Newer(seqNo, r.seqNo) || (seqNo == r.seqNo && (r.flag != VALID || hop < r.hop))
  }

  // A reply is taken if nothing is known, if it is younger, or if it is as old and the route is inactive or longer.
  lemma AdoptsByAge(base: nat, r: Route, seqNo: nat, hop: nat)
    requires base < TWO_32 && InWindow(base, seqNo) && InWindow(base, r.seqNo)
    ensures Adopts(Some(r), seqNo, hop)
            <==> || !r.validSeqNo
                 || Since(base, seqNo) > Since(base, r.seqNo)
                 || (Since(base, seqNo) == Since(base, r.seqNo) && r.flag != VALID)
                 || (Since(base, seqNo) == Since(base, r.seqNo) && r.hop > hop)
  {
    NewerIsLater(base, seqNo, r.seqNo);
  }

  // What RecvReply leaves as the route to the destination of a reply that arrived from sender.
  function AcceptReply(prior: Option<Route>, seqNo: nat, hop: nat, sender: Address): Route {
    if Adopts(prior, seqNo, hop) then Route(true, seqNo, hop, sender, VALID) else prior.value
  }

  // The node that asked for the route also overwrites an entry that is still being searched.
  function AcceptReplyAtOrigin(prior: Option<Route>, seqNo: nat, hop: nat, sender: Address): Route {
    if prior.Some? && prior.value.flag == IN_SEARCH then Route(true, seqNo, hop, sender, VALID)
    else AcceptReply(prior, seqNo, hop, sender)
  }

  // UpdateRouteToNeighbor; sameDevice says whether the entry's device is the receiving one.
  function RefreshNeighbour(prior: Option<Route>, sender: Address, sameDevice: bool): Route {
    match prior
    case Some(r) =>
      if r.validSeqNo && r.hop == 1 && sameDevice then r else Route(false, 0, 1, sender, VALID)
    case None => Route(false, 0, 1, sender, VALID)
  }

  // ProcessHello for the route to the node that sent it.
  function AcceptHello(prior: Option<Route>, dst: Address, seqNo: nat): Route {
    match prior
    case None => Route(true, seqNo, 1, dst, VALID)
    case Some(r) => r.(seqNo := seqNo, validSeqNo := true, flag := VALID)
  }

  // The reverse route that RecvRequest leaves to the originator of a request.
  function AcceptRequest(prior: Option<Route>, seqNo: nat, hop: nat, sender: Address): Route {
    match prior
    case None => Route(true, seqNo, hop, sender, VALID)
    case Some(r) =>
      r.(seqNo := if r.validSeqNo && !Newer(seqNo, r.seqNo) then r.seqNo else seqNo,
         validSeqNo := true, nextHop := sender, hop := hop)
  }

  // SendRequest marks the entry, or makes one.
  function BeginSearch(prior: Option<Route>): Route {
    match prior
    case None => Route(false, 0, 0, UNSET, IN_SEARCH)
    case Some(r) => r.(flag := IN_SEARCH)
  }

  // SendReply: the destination's own sequence number before it answers.
  function ReplySeqNo(seqNo: nat, unknownSeqNo: bool, dstSeqNo: nat): nat {
    if !unknownSeqNo && dstSeqNo == (seqNo + 1) % TWO_32 then (seqNo + 1) % TWO_32 else seqNo
  }

  // The destination counts up by one exactly when the request already names its next number, so that its answer is
  // not older than any number that is at most one ahead of its own.
  lemma ReplySeqNoByAge(base: nat, seqNo: nat, unknownSeqNo: bool, dstSeqNo: nat)
    requires base < TWO_32 && InWindow(base, seqNo) && (!unknownSeqNo ==> InWindow(base, dstSeqNo))
    ensures var answer := ReplySeqNo(seqNo, unknownSeqNo, dstSeqNo);
            var ahead := !unknownSeqNo && Since(base, dstSeqNo) == Since(base, seqNo) + 1;
            && answer < TWO_32 && Since(base, answer) == Since(base, seqNo) + (if ahead then 1 else 0)
            && (!unknownSeqNo ==>
                  (Since(base, dstSeqNo) <= Since(base, seqNo) + 1 <==> Since(base, dstSeqNo) <= Since(base, answer)))
  {
  }
}
