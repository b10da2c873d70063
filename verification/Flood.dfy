/** One route-request flood of AODV (sections 6.3 and 6.5 of RFC 3561) and the reverse routes that it leaves. */
module Flood {
  import opened Common
  import opened AodvTable

  // All copies of the request have the same origin and id. The flood lasts no longer than the lifetime of the
  // duplicate caches, and nothing else writes the routes to the origin. Copies may be delayed, lost, and heard
  // any number of times by any node.

  // A copy of the request as it left sender.
  datatype Copy = Copy(sender: Address, hopCount: nat)

  // reverse: the entry for the origin at each node. seen: the nodes whose duplicate cache holds the request.
  // sent: the nodes that have broadcast a copy. Both are in the order in which that came about.
  datatype State = State(reverse: map<Address, Route>, seen: seq<Address>, copies: set<Copy>, sent: seq<Address>)

  // What RecvRequest makes of a request that is new to the node and that it may pass on: it broadcasts it
  // again, or it answers or drops it.
  datatype Outcome = Rebroadcasts | AnswersOrDrops

  // RecvAodv with a copy; same says whether an entry for the origin uses the receiving device, blacklisted
  // whether the node ignores requests from the sender.
  datatype Event = Receive(node: Address, copy: Copy, same: bool, blacklisted: bool, outcome: Outcome)

  function ReverseAt(s: State, n: Address): Option<Route> {
    if n in s.reverse then Some(s.reverse[n]) else None
  }

  // SendRequest at the origin enters the request into its own cache and broadcasts the first copy.
  ghost predicate Init(origin: Address, s: State) {
    s.seen == [origin] && s.copies == {Copy(origin, 0)} && s.sent == [origin]
  }

  ghost predicate Enabled(s: State, e: Event) {
    e.copy in s.copies && e.node != e.copy.sender
  }

  // UpdateRouteToNeighbor comes first; it writes the entry for the origin when that is the sender.
  function Refreshed(origin: Address, s: State, e: Event): map<Address, Route> {
    if e.copy.sender == origin
    then s.reverse[e.node := RefreshNeighbour(ReverseAt(s, e.node), origin, e.same)]
    else s.reverse
  }

  // The request is new to n: the reverse route is set, and the request may go on.
  function FirstSight(seqNo: nat, s: State, n: Address, c: Copy, outcome: Outcome): State {
    var hop := (c.hopCount + 1) % 256;
    State(s.reverse[n := AcceptRequest(ReverseAt(s, n), seqNo, hop, c.sender)],
          s.seen + [n],
          if outcome.Rebroadcasts? then s.copies + {Copy(n, hop)} else s.copies,
          if outcome.Rebroadcasts? then s.sent + [n] else s.sent)
  }

  // The request is not ignored.
  predicate IsNew(s: State, e: Event) {
    !e.blacklisted && e.node !in s.seen
  }

  function Next(origin: Address, seqNo: nat, s: State, e: Event): State {
    var heard := s.(reverse := Refreshed(origin, s, e));
    if IsNew(s, e) then FirstSight(seqNo, heard, e.node, e.copy, e.outcome) else heard
  }

  ghost predicate Run(origin: Address, seqNo: nat, states: seq<State>, events: seq<Event>) {
    && |states| == |events| + 1
    && Init(origin, states[0])
    && forall i :: 0 <= i < |events| ==>
         Enabled(states[i], events[i]) && states[i + 1] == Next(origin, seqNo, states[i], events[i])
  }

  // ----- What a flood guarantees -----

  // Every node broadcasts the request at most once, however far it travels, and has seen it then.
  lemma {:induction false} BroadcastsOnce(origin: Address, seqNo: nat, states: seq<State>, events: seq<Event>, k: nat)
    requires Run(origin, seqNo, states, events) && k < |states|
    ensures Distinct(states[k].sent)
    ensures forall n :: n in states[k].sent ==> n in states[k].seen
  {
    if k > 0 {
      BroadcastsOnce(origin, seqNo, states, events, k - 1);
    }
  }

  // One of the first i + 1 nodes that saw the request.
  ghost predicate AmongFirst(seen: seq<Address>, i: int, a: Address) {
    exists j :: 0 <= j < |seen| && j <= i && seen[j] == a
  }

  // Whoever passed a copy on had seen the request, and at least as many nodes before it as the copy's hop count.
  ghost predicate SentAfter(seen: seq<Address>, c: Copy) {
    exists i :: 0 <= i < |seen| && seen[i] == c.sender && c.hopCount <= i
  }

  // Reverse routes lead to nodes that saw the request earlier.
  ghost predicate LeadsEarlier(s: State, i: nat)
    requires i < |s.seen|
  {
    s.seen[i] in s.reverse && AmongFirst(s.seen, i - 1, s.reverse[s.seen[i]].nextHop)
  }

  ghost predicate Inv(origin: Address, s: State) {
    && s.seen != [] && s.seen[0] == origin && Distinct(s.seen)
    && (forall c :: c in s.copies ==> SentAfter(s.seen, c))
    && (forall i :: 0 < i < |s.seen| ==> LeadsEarlier(s, i))
  }

  lemma SeenStays(seen: seq<Address>, n: Address)
    ensures forall i, a :: AmongFirst(seen, i, a) ==> AmongFirst(seen + [n], i, a)
    ensures forall c :: SentAfter(seen, c) ==> SentAfter(seen + [n], c)
    ensures n !in seen && Distinct(seen) ==> Distinct(seen + [n])
  {
    forall i, a | AmongFirst(seen, i, a)
      ensures AmongFirst(seen + [n], i, a)
    {
      var j :| 0 <= j < |seen| && j <= i && seen[j] == a;
      assert (seen + [n])[j] == a;
    }
    forall c | SentAfter(seen, c)
      ensures SentAfter(seen + [n], c)
    {
      var i :| 0 <= i < |seen| && seen[i] == c.sender && c.hopCount <= i;
      assert (seen + [n])[i] == c.sender;
    }
  }

  lemma NewNodeKeepsInv(origin: Address, seqNo: nat, s: State, n: Address, c: Copy, outcome: Outcome)
    requires Inv(origin, s) && n !in s.seen && c in s.copies
    ensures Inv(origin, FirstSight(seqNo, s, n, c, outcome))
  {
    var s' := FirstSight(seqNo, s, n, c, outcome);
    var last := |s.seen|;
    SeenStays(s.seen, n);
    assert s'.seen[last] == n;
    var i :| 0 <= i < last && s.seen[i] == c.sender && c.hopCount <= i;
    assert s'.seen[i] == c.sender;
    assert LeadsEarlier(s', last);
    assert SentAfter(s'.seen, Copy(n, (c.hopCount + 1) % 256));
    forall k | 0 < k < last
      ensures LeadsEarlier(s', k)
    {
      assert LeadsEarlier(s, k) && s'.seen[k] == s.seen[k];
    }
  }

  lemma StepKeepsInv(origin: Address, seqNo: nat, s: State, e: Event)
    requires Inv(origin, s) && Enabled(s, e)
    ensures Inv(origin, Next(origin, seqNo, s, e))
  {
    var heard := s.(reverse := Refreshed(origin, s, e));
    forall k | 0 < k < |s.seen|
      ensures LeadsEarlier(heard, k)
    {
      assert LeadsEarlier(s, k);
    }
    if IsNew(s, e) {
      NewNodeKeepsInv(origin, seqNo, heard, e.node, e.copy, e.outcome);
    }
  }

  lemma {:induction false} RunKeepsInv(origin: Address, seqNo: nat, states: seq<State>, events: seq<Event>, i: nat)
    requires Run(origin, seqNo, states, events) && i < |states|
    ensures Inv(origin, states[i])
  {
    if i > 0 {
      RunKeepsInv(origin, seqNo, states, events, i - 1);
      StepKeepsInv(origin, seqNo, states[i - 1], events[i - 1]);
    }
  }

  // p goes from n to the origin along reverse routes, and to no node twice.
  ghost predicate LeadsBack(origin: Address, s: State, n: Address, p: seq<Address>) {
    && |p| > 1 && p[0] == n && p[|p| - 1] == origin && Distinct(p)
    && (forall i :: 0 <= i < |p| - 1 ==> p[i] in s.reverse && s.reverse[p[i]].nextHop == p[i + 1])
  }

  lemma PathGrows(origin: Address, s: State, i: nat, j: nat, q: seq<Address>)
    requires Distinct(s.seen) && s.seen != [] && s.seen[0] == origin && j < i < |s.seen|
    requires s.seen[i] in s.reverse && s.reverse[s.seen[i]].nextHop == s.seen[j]
    requires LeadsBack(origin, s, s.seen[j], q) && forall k :: 0 <= k < |q| ==> AmongFirst(s.seen, j, q[k])
    ensures LeadsBack(origin, s, s.seen[i], [s.seen[i]] + q)
    ensures forall k :: 0 <= k < |q| + 1 ==> AmongFirst(s.seen, i, ([s.seen[i]] + q)[k])
  {
    forall k | 0 <= k < |q|
      ensures q[k] != s.seen[i] && AmongFirst(s.seen, i, q[k])
    {
      var x :| 0 <= x < |s.seen| && x <= j && s.seen[x] == q[k];
    }
  }

  lemma {:induction false} FollowBack(origin: Address, s: State, i: nat)
    requires Inv(origin, s) && 0 < i < |s.seen|
    ensures exists p :: LeadsBack(origin, s, s.seen[i], p) && |p| <= i + 1
                        && forall k :: 0 <= k < |p| ==> AmongFirst(s.seen, i, p[k])
  {
    var n := s.seen[i];
    assert LeadsEarlier(s, i);
    var j :| 0 <= j < |s.seen| && j <= i - 1 && s.seen[j] == s.reverse[n].nextHop;
    if j == 0 {
      assert LeadsBack(origin, s, n, [n, origin]);
      assert AmongFirst(s.seen, i, n) && AmongFirst(s.seen, i, origin);
    } else {
      FollowBack(origin, s, j);
      var q :| LeadsBack(origin, s, s.seen[j], q) && |q| <= j + 1
               && forall k :: 0 <= k < |q| ==> AmongFirst(s.seen, j, q[k]);
      PathGrows(origin, s, i, j, q);
    }
  }

  // In every flood, from every node that has seen the request, reverse routes lead to the origin.
  lemma ReversePathsLeadBack(origin: Address, seqNo: nat, states: seq<State>, events: seq<Event>, k: nat, n: Address)
    requires Run(origin, seqNo, states, events) && k < |states| && n in states[k].seen && n != origin
    ensures exists p :: LeadsBack(origin, states[k], n, p) && |p| <= |states[k].seen|
  {
    RunKeepsInv(origin, seqNo, states, events, k);
    var i :| 0 <= i < |states[k].seen| && states[k].seen[i] == n;
    FollowBack(origin, states[k], i);
  }

  // ----- Hop counts along the way -----

  // No node takes in a copy whose 8-bit hop count is at its largest value.
  ghost predicate NoWrap(states: seq<State>, events: seq<Event>)
    requires |states| == |events| + 1
  {
    forall i :: 0 <= i < |events| && IsNew(states[i], events[i]) ==> events[i].copy.hopCount < 255
  }

  // The next hop is nearer.
  ghost predicate Falls(s: State, n: Address) {
    && n in s.reverse && s.reverse[n].nextHop in s.reverse
    && s.reverse[s.reverse[n].nextHop].hop < s.reverse[n].hop
  }

  ghost predicate HopsFall(s: State, p: seq<Address>) {
    forall i :: 0 <= i < |p| - 2 ==> Falls(s, p[i])
  }

  ghost predicate AllFall(origin: Address, s: State) {
    forall n, p :: n in s.seen && n != origin && LeadsBack(origin, s, n, p) ==> HopsFall(s, p)
  }

  // A copy came from the origin, or from a node no farther from it than the copy says.
  ghost predicate CopyOk(origin: Address, s: State, c: Copy) {
    && c.hopCount < 256 && c.sender in s.seen
    && if c.sender == origin then c.hopCount == 0
       else c.sender in s.reverse && s.reverse[c.sender].hop <= c.hopCount && c.hopCount > 0
  }

  // The reverse route of a node that has seen the request leads to the origin or to a nearer such node.
  ghost predicate ReverseOk(origin: Address, s: State, n: Address) {
    && n in s.reverse && 0 < s.reverse[n].hop < 256
    && if s.reverse[n].hop == 1 then s.reverse[n].nextHop == origin
       else s.reverse[n].nextHop in s.seen && s.reverse[n].nextHop != origin && s.reverse[n].nextHop in s.reverse
            && s.reverse[s.reverse[n].nextHop].hop < s.reverse[n].hop
  }

  ghost predicate HopInv(origin: Address, s: State) {
    && origin in s.seen
    && (forall c :: c in s.copies ==> CopyOk(origin, s, c))
    && (forall n :: n in s.seen && n != origin ==> ReverseOk(origin, s, n))
  }

  lemma RefreshKeepsHopInv(origin: Address, s: State, e: Event)
    requires HopInv(origin, s) && Enabled(s, e)
    ensures HopInv(origin, s.(reverse := Refreshed(origin, s, e)))
  {
    var t := s.(reverse := Refreshed(origin, s, e));
    forall c | c in s.copies
      ensures CopyOk(origin, t, c)
    {
      assert CopyOk(origin, s, c);
    }
    forall n | n in s.seen && n != origin
      ensures ReverseOk(origin, t, n)
    {
      assert ReverseOk(origin, s, n);
      assert s.reverse[n].nextHop != origin ==> ReverseOk(origin, s, s.reverse[n].nextHop);
    }
  }

  lemma FirstSightKeepsHopInv(origin: Address, seqNo: nat, s: State, n: Address, c: Copy, outcome: Outcome)
    requires HopInv(origin, s) && n !in s.seen && c in s.copies && c.hopCount < 255
    ensures HopInv(origin, FirstSight(seqNo, s, n, c, outcome))
  {
    var t := FirstSight(seqNo, s, n, c, outcome);
    assert CopyOk(origin, s, c) && (c.hopCount + 1) % 256 == c.hopCount + 1;
    forall k | k in s.copies
      ensures CopyOk(origin, t, k)
    {
      assert CopyOk(origin, s, k);
    }
    forall k | k in s.seen && k != origin
      ensures ReverseOk(origin, t, k)
    {
      assert ReverseOk(origin, s, k);
    }
  }

  lemma StepKeepsHopInv(origin: Address, seqNo: nat, s: State, e: Event)
    requires HopInv(origin, s) && Enabled(s, e) && (IsNew(s, e) ==> e.copy.hopCount < 255)
    ensures HopInv(origin, Next(origin, seqNo, s, e))
  {
    RefreshKeepsHopInv(origin, s, e);
    if IsNew(s, e) {
      FirstSightKeepsHopInv(origin, seqNo, s.(reverse := Refreshed(origin, s, e)), e.node, e.copy, e.outcome);
    }
  }

  lemma {:induction false} RunKeepsHopInv(origin: Address, seqNo: nat, states: seq<State>, events: seq<Event>, i: nat)
    requires Run(origin, seqNo, states, events) && i < |states| && NoWrap(states, events)
    ensures HopInv(origin, states[i])
  {
    if i > 0 {
      RunKeepsHopInv(origin, seqNo, states, events, i - 1);
      StepKeepsHopInv(origin, seqNo, states[i - 1], events[i - 1]);
    }
  }

  lemma {:induction false} HopsFallBack(origin: Address, s: State, n: Address, p: seq<Address>)
    requires HopInv(origin, s) && n in s.seen && n != origin && LeadsBack(origin, s, n, p)
    ensures n in s.reverse && HopsFall(s, p) && |p| <= s.reverse[n].hop + 1
    decreases |p|
  {
    assert ReverseOk(origin, s, n) && s.reverse[n].nextHop == p[1];
    if |p| > 2 {
      assert p[1] != origin && p[1..][0] == p[1] && Falls(s, p[0]);
      HopsFallBack(origin, s, p[1], p[1..]);
    }
  }

  // Where a hop count wraps around, it does not fall on the way back.
  lemma WrapDoesNotFall(origin: Address, seqNo: nat, s: State, e: Event, p: seq<Address>)
    requires Inv(origin, s) && HopInv(origin, s) && Enabled(s, e) && IsNew(s, e) && e.copy.hopCount == 255
    requires LeadsBack(origin, Next(origin, seqNo, s, e), e.node, p)
    ensures !HopsFall(Next(origin, seqNo, s, e), p)
  {
    var s' := Next(origin, seqNo, s, e);
    assert CopyOk(origin, s, e.copy);
    assert s'.reverse[e.node].hop == 0 && p[1] == e.copy.sender != origin && !Falls(s', p[0]);
  }

  // All reverse routes that a flood ever leaves have falling hop counts exactly when no hop count wraps around.
  lemma HopsFallIffNoWrap(origin: Address, seqNo: nat, states: seq<State>, events: seq<Event>)
    requires Run(origin, seqNo, states, events)
    ensures NoWrap(states, events)
            <==> forall k :: 0 <= k < |states| ==> AllFall(origin, states[k])
  {
    if NoWrap(states, events) {
      forall k, n, p | 0 <= k < |states| && n in states[k].seen && n != origin && LeadsBack(origin, states[k], n, p)
        ensures HopsFall(states[k], p)
      {
        RunKeepsHopInv(origin, seqNo, states, events, k);
        HopsFallBack(origin, states[k], n, p);
      }
      assert forall k :: 0 <= k < |states| ==> AllFall(origin, states[k]);
    } else {
      var i := FirstWrap(states, events);
      RunKeepsInv(origin, seqNo, states, events, i);
      RunKeepsHopInv(origin, seqNo, states[..i + 1], events[..i], i);
      assert CopyOk(origin, states[i], events[i].copy);
      var n := events[i].node;
      assert states[i + 1] == Next(origin, seqNo, states[i], events[i]);
      ReversePathsLeadBack(origin, seqNo, states, events, i + 1, n);
      var p :| LeadsBack(origin, states[i + 1], n, p);
      WrapDoesNotFall(origin, seqNo, states[i], events[i], p);
      assert !AllFall(origin, states[i + 1]);
    }
  }

  ghost function FirstWrap(states: seq<State>, events: seq<Event>): (i: nat)
    requires |states| == |events| + 1 && !NoWrap(states, events)
    ensures i < |events| && IsNew(states[i], events[i]) && events[i].copy.hopCount >= 255
    ensures NoWrap(states[..i + 1], events[..i])
    decreases |events|
  {
    var m := |events| - 1;
    if NoWrap(states[..m + 1], events[..m]) then m else FirstWrap(states[..m + 1], events[..m])
  }

  // With at most 256 nodes none does.
  lemma FewNodesDoNotWrap(origin: Address, seqNo: nat, states: seq<State>, events: seq<Event>)
    requires Run(origin, seqNo, states, events) && |SeenAtEnd(states)| <= 256
    ensures NoWrap(states, events)
  {
    forall i | 0 <= i < |events| && IsNew(states[i], events[i])
      ensures events[i].copy.hopCount < 255
    {
      RunKeepsInv(origin, seqNo, states, events, i);
      assert SentAfter(states[i].seen, events[i].copy);
      SeenGrows(origin, seqNo, states, events, i + 1, |events|);
    }
  }

  lemma {:induction false} SeenGrows(origin: Address, seqNo: nat, states: seq<State>, events: seq<Event>, i: nat,
                                     k: nat)
    requires Run(origin, seqNo, states, events) && i <= k < |states|
    ensures |states[i].seen| <= |states[k].seen|
    decreases k - i
  {
    if i < k {
      SeenGrows(origin, seqNo, states, events, i, k - 1);
    }
  }

  // ----- A line of nodes, each of which passes the request on to the next -----

  function LineEvent(k: nat): Event
    requires k < 256
  {
    Receive(Address(k + 1), Copy(Address(k), k), true, false, Rebroadcasts)
  }

  function Line(k: nat): State
    requires k <= 256
  {
    if k == 0 then State(map[], [Address(0)], {Copy(Address(0), 0)}, [Address(0)])
    else Next(Address(0), 1, Line(k - 1), LineEvent(k - 1))
  }

  // The first k + 1 nodes have seen the request, and node k has passed it on.
  ghost predicate InLine(s: State, k: nat)
    requires k <= 256
  {
    && |s.seen| == k + 1 && (forall i :: 0 <= i <= k ==> s.seen[i] == Address(i))
    && (k < 256 ==> Copy(Address(k), k) in s.copies)
  }

  lemma LineStep(s: State, k: nat)
    requires k < 256 && InLine(s, k)
    ensures Enabled(s, LineEvent(k)) && IsNew(s, LineEvent(k)) && InLine(Next(Address(0), 1, s, LineEvent(k)), k + 1)
  {
  }

  lemma {:induction false} LineGoesOn(k: nat)
    requires k <= 256
    ensures InLine(Line(k), k)
  {
    if k > 0 {
      LineGoesOn(k - 1);
      LineStep(Line(k - 1), k - 1);
    }
  }

  lemma LineIsRun(n: nat, states: seq<State>, events: seq<Event>)
    requires n <= 256 && |states| == n + 1 && |events| == n
    requires forall k :: 0 <= k <= n ==> states[k] == Line(k)
    requires forall k :: 0 <= k < n ==> events[k] == LineEvent(k)
    ensures Run(Address(0), 1, states, events) && |states[n].seen| == n + 1
    ensures forall k :: 0 <= k < n ==> IsNew(states[k], events[k])
  {
    forall i | 0 <= i < n
      ensures Enabled(states[i], events[i]) && IsNew(states[i], events[i])
      ensures states[i + 1] == Next(Address(0), 1, states[i], events[i])
    {
      LineGoesOn(i);
      LineStep(Line(i), i);
    }
    LineGoesOn(n);
  }

  // With one node more, one does.
  lemma LineWraps(nodes: nat)
    requires nodes == 257
    ensures exists states, events :: Run(Address(0), 1, states, events) && |SeenAtEnd(states)| == nodes
                                     && !NoWrap(states, events)
  {
    var n := nodes - 1;
    var states := seq(nodes, k requires 0 <= k < nodes => Line(k));
    var events := seq(n, k requires 0 <= k < n => LineEvent(k));
    LineIsRun(n, states, events);
    assert IsNew(states[n - 1], events[n - 1]) && events[n - 1].copy.hopCount == 255;
  }

  function SeenAtEnd(states: seq<State>): seq<Address> {
    if states == [] then [] else states[|states| - 1].seen
  }
}
