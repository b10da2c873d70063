# A verified model of the simulator's algorithms

This project models the parts of the repository whose correctness is not visible from reading one function, and
proves what they promise, for all inputs, all runs and all interleavings:

- **AODV routing** (`simulation/src/aodv/model`). `AodvTable` holds the rules by which a route is rewritten,
  `AodvNode` is the class of handlers of one node, `IdCaches` the duplicate cache, `Packets` the headers on the wire.
  `LoopFreedom` is the network-wide step system for the routes to one destination, `Flood` the one for a single
  route-request flood, and `Discovery` deals with retries and the rate limit. That a node takes the steps of these
  systems is stated by contract for everything it receives: replies, requests, hellos and acknowledgements, for the
  route the message is about, for the route to its sender, and for all others (`RecvAodvReply`, `RecvAodvRequest` and
  `RecvAodvReplyAck` of `AodvNode.RoutingProtocol`); that includes the copies a request adds to its flood. Which
  requests are answered, and with what, is said by the age of sequence numbers alone (`TreatsRight`). What its answers
  and the replies it passes on add to `LoopFreedom` is said by `DestinationAnswers`, `TableAnswers` and `ReplyGoesOn`.
  For its own requests and its timers the handlers and the steps share the function `BeginSearch` and the counters.
- **ECMP routing** (`simulation/scratch/third.cc`). `Network` says what shortest routes and next hops are, `Bfs`
  that the search finds exactly these, and `Routing` is the program itself, with the delivery of packets and the
  failure of a link.
- **Dependency sorting and cycles** (`simulation/bindings/python/topsort.py`): `Topsort` and `Cycles`.
- **The test pool** (`simulation/test.py`): `WorkerPool`, a step system of main thread, workers, two queues and an
  interrupt that may come at any moment.
- **Trace filters** (`analysis/trace_filter.hpp`): `TraceFilter`, on tokens.
- **Traffic** (`traffic_gen`, and its consumer in `third.cc`): `Cdf`, `FlowBins`, `TrafficGen`, `FlowFile`,
  `IncastGen` and `FlowInput`.

`Common` holds the notions that several modules share.

## How to read it

Code that changes things step by step is a method or a class with the same branches, proved against a specification
function or predicate; the properties are lemmas about these. Exceptions, error returns and running out of input
are results (`Option`, `CycleError`, `LevelsError`), not preconditions. What the environment decides (time, random
choices, which device a message came in on, how a job ends, the order in which a dictionary is walked) is a
parameter, an event, or left open.

Some promises fail in the code. They are stated with the exact condition under which the code keeps them:

- Forward routes are loop free, in every run of handlers that do not lose what is known: no known sequence number is
  replaced by an unknown, older or farther one, and no hop count wraps around (`LoopFreedom.RunHasNoLoops`). There are
  five places where the code can lose it, or keep it for the wrong next hop. Each has its exact condition, which can be
  checked before the handler runs, and a run in which all else goes well and that ends in a loop:
  - `RecvRequest`: what it leaves is nothing farther and also no more than the request vouches for, exactly when the
    request is fresh; a stale one with a smaller hop count keeps the newer number for a next hop that does not have it
    (`RequestOverwritesUnlessFresh`, `StaleRequestMayKeepSeqNo`, `StaleRequestMakesLoop`);
  - `UpdateRouteToNeighbor`, exactly when a known entry is not a direct one over the same device
    (`NeighbourForgetsUnlessDirect`, `ForgottenSeqNoMakesLoop`);
  - `ProcessHello`, exactly when the hello is older than the entry (`HelloOverwritesUnlessFresh`, `LateHelloMakesLoop`);
  - `RecvReply`, exactly where the entry is searched and the reply is farther than it, or, at the node that asked,
    older (`ReplyOverwritesUnlessFresh`, `SearchedReplyMakesLoop`);
  - `RouteRequestTimerExpire`, exactly when the entry it gives up has a sequence number, which a request received during
    the search has given it (`GiveUpForgetsUnlessUnknown`, `GivingUpMakesLoop`).

  The hop counts of replies and requests have 8 bits; the condition is that none of 255 is received, and
  `WrappedHopMakesLoop` is a run along 256 nodes in which one is.
- Loop-free routes lead to the destination or to a node that is searching for it. All of them lead to the destination
  exactly if none goes over a node that is searching (`LoopFreedom.RunDeliversIff`, `SearchedRelayStopsPackets`).
- Reverse routes lead back to the origin in every flood. Their hop counts fall on the way exactly if no hop count wraps
  around; 256 nodes are too few for that, 257 are enough (`Flood.HopsFallIffNoWrap`, `FewNodesDoNotWrap`, `LineWraps`).
- An unanswered discovery ends exactly if `RreqRetries` fits the 8-bit count of the entry, and a limit of 0 allows 256
  requests, however the rate limit holds them up (`AodvNode.RoutingProtocol.DiscoverUnanswered`,
  `Discovery.StopsAfterRequestsMade`).
- When a reply passes a node whose next hop to the destination is the origin, the precursor that belongs into the
  origin's entry is there afterwards exactly if it was there before, or if the origin is its own next hop
  (`AodvNode.LinkLosesIff`); `AodvNode.PrecursorIsLost` is a table in which it is lost.
- A route error comes back from the wire exactly if it has at most 255 destinations (`Packets.RerrRoundTripIff`).
  `AddUnDestination` asserts that, but an optimized build makes no assertions, and then 256 destinations are counted
  as none (`Packets.ManyDestsSize`, `Packets.ManyDestsAreLost`). The size that `Deserialize` asserts is right exactly
  if no destination is named twice (`Packets.SizeAgreesIff`, `Packets.ZeroTwiceDisagrees`).
- The simulator reads the flow file properly exactly if the number of flows has as many digits as the estimate
  it is written over, or one more, or is a zero over a leading digit and zeros (`FlowFile.HeaderIsRightIff`,
  `FlowFile.WrongHeaders`).
- `incast_gen.py` ends without an `IndexError` exactly if some flow starts after the incast (`IncastGen.MergeSorted`,
  `IncastGen.LateIncastFails`).
- Ports of a pair of hosts are all different exactly up to 65536 flows, and stay above 10000 exactly up to 55536
  (`FlowInput.PortsDifferIff`, `FlowInput.PortsDoNotWrapIff`, `FlowInput.ManyFlowsShareAPort`).
- The percentile printed for a bin is not negative exactly if truncation did not take its size below the
  distribution (`FlowBins.PercentileOfBin`, `FlowBins.LowBinHasNoPercentile`).
- The collector of the test pool never waits in vain exactly because there is a worker
  (`WorkerPool.NeverStuck`, `WorkerPool.StuckWithoutWorkers`, `WorkerPool.NoWorkersRun`).

Where comments and code disagree the model follows the code: `AddUnDestination` never returns false, although its
comment says that it does when the header is full; the entries of unreachable nodes stay in the pair tables when a
link goes down; a trace filter that cannot be parsed lets every packet through; hello lifetimes and refreshed
neighbour lifetimes are set on a copy of the entry where the code does so.

## Conventions of the model

- Sequence numbers are 32-bit. `int32_t (a) - int32_t (b)` is read as a difference that wraps around, the intent of
  section 6.1 of RFC 3561; C++ leaves an overflow of it undefined. Hop counts and retry counts are 8-bit, delays and
  transmission times 64-bit, flow counters of a pair 16-bit, all with explicit wrap-around.
- `UNSET` stands for a default-constructed address (102.102.102.102 in ns-3), which is never a real destination.
- The distribution and all times of flows are real numbers.
- `x / 2` in the bin search is Python's integer division of a positive number; `int` truncates toward zero.

## Model

| member | source | states |
|---|---|---|
| `AodvTable.NewerIsLater` | simulation/src/aodv/model/aodv-routing-protocol.cc:1315-1319 | Within a window of 2^31 the signed 32-bit comparison of sequence numbers is the order of their age |
| `AodvTable.NewerIsCircular` | simulation/src/aodv/model/aodv-routing-protocol.cc:1315-1319 | Without the window the comparison is circular |
| `AodvTable.AdoptsByAge` | simulation/src/aodv/model/aodv-routing-protocol.cc:1300-1334 | A reply is taken exactly if no number is known, it is younger, or it is as old and the route is inactive or longer |
| `AodvTable.ReplySeqNoByAge` | simulation/src/aodv/model/aodv-routing-protocol.cc:1186-1205 | The destination counts up by one exactly if the request names the next number; its answer is then not older than any number at most one ahead |
| `AodvNode.WriteRoute` | simulation/src/aodv/model/aodv-rtable.cc:247-277 | AddRoute and Update together store an entry under its own destination and change no other route |
| `AodvNode.TouchEntry` | simulation/src/aodv/model/aodv-rtable.cc:259-277 | Updating lifetimes and precursors changes no route |
| `AodvNode.RoutingProtocol.UpdateRouteToNeighbor` | simulation/src/aodv/model/aodv-routing-protocol.cc:1002-1031 | The route to the sender is kept if it is a known direct one over the same device, otherwise replaced by a direct one without sequence number, which is not blacklisted; no other route changes |
| `AodvNode.RoutingProtocol.ProcessHello` | simulation/src/aodv/model/aodv-routing-protocol.cc:1410-1442 | A hello sets sequence number and validity of the route to its sender, and nothing else |
| `AodvNode.RoutingProtocol.AdoptReply` | simulation/src/aodv/model/aodv-routing-protocol.cc:1300-1339 | The forward route becomes the offered one exactly under the rules of section 6.7 of RFC 3561 |
| `AodvNode.RoutingProtocol.LinkPrecursors` | simulation/src/aodv/model/aodv-routing-protocol.cc:1368-1386 | Exactly the four insertions of the code; routes stay |
| `AodvNode.LinkLinks` | simulation/src/aodv/model/aodv-routing-protocol.cc:1368-1386 | The next hops to destination and origin become precursors of each other and of both entries, where there are entries; nothing else but precursors changes |
| `AodvNode.LinkLosesIff` | simulation/src/aodv/model/aodv-routing-protocol.cc:1368-1386 | Where the origin is the next hop to the destination, the precursor that belongs into its entry is there afterwards exactly if it was there before, or the origin is its own next hop |
| `AodvNode.PrecursorIsLost` | simulation/src/aodv/model/aodv-routing-protocol.cc:1368-1386 | A table of two entries in which the precursor is lost |
| `AodvNode.RoutingProtocol.PassReplyOn` | simulation/src/aodv/model/aodv-routing-protocol.cc:1360-1394 | A reply goes on to the next hop towards its origin exactly if that route is known and not searched, adopted or not; then the route to the origin lives on and precursors are linked |
| `AodvNode.RoutingProtocol.HandleReply` | simulation/src/aodv/model/aodv-routing-protocol.cc:1271-1395 | The whole table, retry timers and everything sent after a RREP, at the origin and elsewhere |
| `AodvNode.OfferIsKept` | simulation/src/aodv/model/aodv-routing-protocol.cc:1271-1395 | A route that a reply brings is over the device it came in on, lives as long as the reply says, and is not blacklisted |
| `AodvNode.RoutingProtocol.RecvReply` | simulation/src/aodv/model/aodv-routing-protocol.cc:1271-1395 | A RREP about its own origin counts as a hello; for all others the whole table, the retry timers and everything sent are given |
| `AodvNode.RoutingProtocol.SendReply` | simulation/src/aodv/model/aodv-routing-protocol.cc:1186-1205 | The destination raises its sequence number exactly if the request already names the next one, and answers with it |
| `AodvNode.DestinationAnswers` | simulation/src/aodv/model/aodv-routing-protocol.cc:1186-1205 | The answer of the destination is the message that its step of the network-wide system adds |
| `AodvNode.RoutingProtocol.SendReplyByIntermediateNode` | simulation/src/aodv/model/aodv-routing-protocol.cc:1207-1253 | An intermediate answer says what the table says, with a gratuitous one to the destination if asked; routes stay, and precursors are inserted |
| `AodvNode.AnsweredLinks` | simulation/src/aodv/model/aodv-routing-protocol.cc:1225-1230 | After an answer, the next hop to the origin is a precursor towards the destination and the other way round; nothing else but precursors changes |
| `AodvNode.TableAnswers` | simulation/src/aodv/model/aodv-routing-protocol.cc:1207-1253 | The answers of an intermediate node, the gratuitous one included, are the messages that its steps of the network-wide system add |
| `AodvNode.RoutingProtocol.SetReverseRoute` | simulation/src/aodv/model/aodv-routing-protocol.cc:1078-1104 | The reverse route takes next hop and hop count of the request whatever its age, and never an older sequence number |
| `AodvNode.RoutingProtocol.ReactToRequest` | simulation/src/aodv/model/aodv-routing-protocol.cc:1109-1184 | By the age of the sequence numbers, wherever they are comparable: the destination answers with no older number than the request knows, if that is at most one ahead of its own; another node drops a request that its route would send back, answers from a usable entry that is not older when the D flag is unset, with what the entry says, and otherwise passes the request on on every interface, with the younger of the two numbers; only precursors change there |
| `AodvNode.RoutingProtocol.RecvRequest` | simulation/src/aodv/model/aodv-routing-protocol.cc:1033-1184 | Blacklisted senders and duplicates change nothing; a new request sets the reverse route with its lifetime and device, is remembered, and is answered, dropped or passed on as the ages of the numbers say |
| `AodvNode.TreatsByAge` | simulation/src/aodv/model/aodv-routing-protocol.cc:1109-1184 | A reply about the destination goes out exactly if a usable entry that is not older exists, its next hop is not the sender and the D flag is unset; nothing that is sent names an older number than the request knows |
| `AodvNode.RoutingProtocol.MarkSearched` | simulation/src/aodv/model/aodv-routing-protocol.cc:848-868 | A searched entry keeps its numbers, its request count, its lifetime and its precursors; a missing one is made, and expires at once |
| `AodvNode.RoutingProtocol.BroadcastRequest` | simulation/src/aodv/model/aodv-routing-protocol.cc:881-907 | One copy leaves on every interface, and the node will take each for a duplicate |
| `AodvNode.RoutingProtocol.ScheduleRreqRetry` | simulation/src/aodv/model/aodv-routing-protocol.cc:919-937 | The retry count goes up by one, in 8 bits, and the timer waits that many traversal times |
| `AodvNode.RoutingProtocol.SendRequest` | simulation/src/aodv/model/aodv-routing-protocol.cc:831-917 | At the rate limit nothing changes; below it counters, table and timer are given, and one request leaves on each interface, with hop count 0, the new number of its origin, and the known number of the destination or the U flag |
| `AodvNode.RequestAsks` | simulation/src/aodv/model/aodv-routing-protocol.cc:845-907 | What each copy of a request of the node itself says |
| `AodvNode.RoutingProtocol.RouteRequestTimerExpire` | simulation/src/aodv/model/aodv-routing-protocol.cc:1498-1536 | Found, given up, retried or held up, decided by flag, count and rate limit; giving up removes entry and timer, and a retry changes no route |
| `AodvNode.RoutingProtocol.RreqRateLimitTimerExpire` | simulation/src/aodv/model/aodv-routing-protocol.cc:1548-1554 | The count of originated requests starts again |
| `AodvNode.RoutingProtocol.DiscoverUnanswered` | simulation/src/aodv/model/aodv-routing-protocol.cc:831-937 | However the rate limit and other discoveries interfere, an unanswered discovery gives up exactly at the first wake after the last request that the limit allows, which never comes for limits above 255; requests, waiting time and messages are given exactly, and in the end entry and timer are gone |
| `AodvNode.RoutingProtocol.WakeUp` | simulation/src/aodv/model/aodv-routing-protocol.cc:1498-1536 | One wake of a discovery: given up, held up, or one more request with its wait |
| `AodvNode.RoutingProtocol.Perform` | simulation/src/aodv/model/aodv-routing-protocol.cc:831-843 | For any calls of SendRequest and expiries of the rate timer, the count of the node and the requests that go out are those of Discovery, for which WithinRateLimit holds |
| `AodvNode.RoutingProtocol.RecvReplyAck` | simulation/src/aodv/model/aodv-routing-protocol.cc:1397-1408 | An acknowledgement makes the route to its sender valid and changes no other |
| `AodvNode.RoutingProtocol.RecvAodvReply` | simulation/src/aodv/model/aodv-routing-protocol.cc:939-969 | Receiving a RREP makes a step of the network-wide system for every destination: a reply or a hello for the one it is about, a hearing for its sender, none for the others; acknowledgement, forwarded reply and retry timers are given |
| `AodvNode.ReplyGoesOn` | simulation/src/aodv/model/aodv-routing-protocol.cc:1360-1394 | The reply that is passed on is the message that the step of the network-wide system adds |
| `AodvNode.ReplyTravelsBack` | simulation/src/aodv/model/aodv-routing-protocol.cc:1341-1394 | In every flood, a reply that comes along the reverse route is acknowledged if it asks for that, and passed on along the reverse route with one more hop, until it is at the origin |
| `AodvNode.RoutingProtocol.RecvAodvRequest` | simulation/src/aodv/model/aodv-routing-protocol.cc:939-964 | Receiving a RREQ makes a step of the network-wide system for every destination and a step of the flood, with the copies that are sent; it is ignored exactly if it is a duplicate, or the sender is blacklisted and has a known direct route over the same device; otherwise it is treated as the ages of the numbers say, and own number and cache are given |
| `AodvNode.NewRequestMakesFloodStep` | simulation/src/aodv/model/aodv-routing-protocol.cc:1033-1184 | In every flood in which the node has not seen the request, its new reverse route and the copies it sends are those of the step of the flood |
| `AodvNode.IgnoredMakesFloodStep` | simulation/src/aodv/model/aodv-routing-protocol.cc:1036-1062 | A duplicate, or a request from a blacklisted node, refreshes at most the route to the origin, and adds no copy to the flood |
| `AodvNode.RoutingProtocol.RecvAodvReplyAck` | simulation/src/aodv/model/aodv-routing-protocol.cc:975-979 | Receiving a RREP-ACK makes a step of the network-wide system for every destination |
| `LoopFreedom.StepKeepsInv` | simulation/src/aodv/model/aodv-routing-protocol.cc:1002-1394 | Every step keeps: whoever sent a message holds a route no worse than it said, and every route leads to the destination or to a better route |
| `LoopFreedom.RunKeepsInv` | simulation/src/aodv/model/aodv-routing-protocol.cc:1002-1394 | The invariant holds in every state of every run |
| `LoopFreedom.RankFalls` | simulation/src/aodv/model/aodv-routing-protocol.cc:1311-1332 | Along next hops, sequence numbers rise or hop counts fall |
| `LoopFreedom.RunHasNoLoops` | simulation/src/aodv/model/aodv-routing-protocol.cc:1186-1394 | In every state of every run of handlers that lose nothing known, following next hops to a destination repeats no node |
| `LoopFreedom.RunLeadsOn` | simulation/src/aodv/model/aodv-routing-protocol.cc:1186-1394 | In every state of every run, next hops lead from any usable route to the destination or to a node that searches it |
| `LoopFreedom.RunDeliversIff` | simulation/src/aodv/model/aodv-routing-protocol.cc:1186-1394 | All usable routes lead to the destination exactly if none goes over a node that is searching |
| `LoopFreedom.ReplyOverwritesUnlessFresh` | simulation/src/aodv/model/aodv-routing-protocol.cc:1305-1357 | RecvReply loses nothing known exactly if the entry is not searched or the reply is at least as fresh and near, or is refused |
| `LoopFreedom.RequestOverwritesUnlessFresh` | simulation/src/aodv/model/aodv-routing-protocol.cc:1087-1103 | Nothing known is lost, and the entry keeps to the number the request vouches for unless it is direct, exactly if the request passes the freshness test that RecvRequest leaves out; a searched entry stays searched |
| `LoopFreedom.HelloOverwritesUnlessFresh` | simulation/src/aodv/model/aodv-routing-protocol.cc:1430-1437 | A hello loses nothing known exactly if it is not older than the entry |
| `LoopFreedom.NeighbourForgetsUnlessDirect` | simulation/src/aodv/model/aodv-routing-protocol.cc:1018-1028 | Refreshing a neighbour keeps a known sequence number exactly if the entry is direct and over the same device |
| `LoopFreedom.GiveUpForgetsUnlessUnknown` | simulation/src/aodv/model/aodv-routing-protocol.cc:1514-1535 | Giving up a search loses nothing known exactly if the entry has no sequence number |
| `LoopFreedom.StaleRequestMakesLoop` | simulation/src/aodv/model/aodv-routing-protocol.cc:1089-1103 | A reachable state in which one stale request makes two nodes point at each other |
| `LoopFreedom.ForgottenSeqNoMakesLoop` | simulation/src/aodv/model/aodv-routing-protocol.cc:1018-1028 | A reachable state in which a forgotten sequence number and one reply make two nodes point at each other |
| `LoopFreedom.LateHelloMakesLoop` | simulation/src/aodv/model/aodv-routing-protocol.cc:1430-1437 | A reachable state in which one late hello and one reply make two nodes point at each other |
| `LoopFreedom.SearchedRelayStopsPackets` | simulation/src/aodv/model/aodv-routing-protocol.cc:1087-1103 | A reachable state in which a usable route ends at a node that is searching |
| `LoopFreedom.SearchedReplyMakesLoop` | simulation/src/aodv/model/aodv-routing-protocol.cc:1346-1357 | A reachable state in which a node that asked takes a farther reply, and three nodes form a loop |
| `LoopFreedom.GivingUpMakesLoop` | simulation/src/aodv/model/aodv-routing-protocol.cc:1514-1521 | A reachable state in which a node that gives up its search and then takes a reply completes a loop of three nodes |
| `LoopFreedom.WrappedHopMakesLoop` | simulation/src/aodv/model/aodv-routing-protocol.cc:1064-1067 | A reachable state in which an 8-bit hop count wraps around, and 255 nodes form a loop |
| `Flood.StepKeepsInv` | simulation/src/aodv/model/aodv-routing-protocol.cc:1033-1184 | Every reception keeps: reverse routes lead to nodes that saw the request earlier, and a copy has no more hops than nodes have seen it before its sender |
| `Flood.RunKeepsInv` | simulation/src/aodv/model/aodv-routing-protocol.cc:1033-1184 | The invariant holds in every state of every flood |
| `Flood.BroadcastsOnce` | simulation/src/aodv/model/aodv-routing-protocol.cc:1058-1062 | Every node broadcasts a request at most once, and only after it has seen it |
| `Flood.ReversePathsLeadBack` | simulation/src/aodv/model/aodv-routing-protocol.cc:1078-1104 | In every flood, from every node that has seen the request, reverse routes lead to the origin and to no node twice |
| `Flood.StepKeepsHopInv` | simulation/src/aodv/model/aodv-routing-protocol.cc:1064-1104 | Without wrap-around every reception keeps the order of hop counts along reverse routes, also when a direct copy shortens one |
| `Flood.HopsFallIffNoWrap` | simulation/src/aodv/model/aodv-routing-protocol.cc:1064-1104 | Hop counts fall strictly along all reverse routes of a flood exactly if no 8-bit hop count wraps around |
| `Flood.FewNodesDoNotWrap` | simulation/src/aodv/model/aodv-routing-protocol.cc:1064-1067 | With at most 256 nodes that see the request, none does |
| `Flood.LineWraps` | simulation/src/aodv/model/aodv-routing-protocol.cc:1064-1067 | A flood along 257 nodes in a line in which one does |
| `Discovery.CountIsModulo` | simulation/src/aodv/model/aodv-routing-protocol.cc:931-934 | The retry count is the number of requests in 8 bits |
| `Discovery.StopsAtTheLimit` | simulation/src/aodv/model/aodv-routing-protocol.cc:1514-1522 | A limit from 1 to 255 is reached after exactly that many requests |
| `Discovery.NoRetriesMeansManyRequests` | simulation/src/aodv/model/aodv-routing-protocol.cc:1514-1522 | A limit of 0 allows 256 requests |
| `Discovery.StopsIffLimitFits` | simulation/src/aodv/model/aodv-routing-protocol.cc:1514-1522 | The search is ever given up exactly if the limit fits the 8-bit count |
| `Discovery.StopsAfterRequestsMade` | simulation/src/aodv/model/aodv-routing-protocol.cc:1514-1522 | The number of requests of an unanswered discovery, for every limit |
| `Discovery.WakeKeepsAsking` | simulation/src/aodv/model/aodv-routing-protocol.cc:1498-1536 | With wakes at any counts within the rate limit, the discovery ends exactly if the timer expires on the limit |
| `Discovery.WaitIsTriangular` | simulation/src/aodv/model/aodv-routing-protocol.cc:935 | k requests wait NetTraversalTime*k*(k+1)/2 in all |
| `Discovery.WithinRateLimit` | simulation/src/aodv/model/aodv-routing-protocol.cc:835-843 | Between two expiries of the rate timer, in any run, at most RreqRateLimit requests go out, and all that are asked for until then |
| `IdCaches.IdCache.IsDuplicate` | simulation/src/aodv/model/aodv-id-cache.cc:35-47 | True exactly if an earlier call for the key returned false at t0 and t0 plus the lifetime of that time is not over |
| `IdCaches.IdCache.Purge` | simulation/src/aodv/model/aodv-id-cache.cc:48-53 | Exactly the expired records go, in order, and keys stay unique |
| `IdCaches.IdCache.GetSize` | simulation/src/aodv/model/aodv-id-cache.cc:55-60 | The number of records that have not expired |
| `IdCaches.IdCache.SetLifetime` | simulation/src/aodv/model/aodv-id-cache.h:57 | Only later records get the lifetime |
| `IdCaches.UnexpiredMembers` | simulation/src/aodv/model/aodv-id-cache.cc:48-53 | remove_if keeps just the unexpired records, and uniqueness of keys |
| `Packets.ComposeBytes` | simulation/src/aodv/model/aodv-packet.cc:179-183 | Four bytes in network order make the word they came from |
| `Packets.RreqHeader.Serialize` | simulation/src/aodv/model/aodv-packet.cc:173-184 | Writes the layout of section 5.1 of RFC 3561, 23 bytes, and no other byte |
| `Packets.RreqHeader.Deserialize` | simulation/src/aodv/model/aodv-packet.cc:186-202 | Reads the same layout and consumes 23 bytes |
| `Packets.RreqRoundTrip` | simulation/src/aodv/model/aodv-packet.cc:173-202 | A request is read back as it was written |
| `Packets.RreqOfRfc` | simulation/src/aodv/model/aodv-packet.cc:173-184 | Every field of a request stands at its place of section 5.1 of RFC 3561, most significant byte first |
| `Packets.CarryRreq` | simulation/src/aodv/model/aodv-packet.cc:167-202 | A request that is serialized and deserialized from the same position comes back, and takes exactly its serialized size |
| `Packets.WithBitSets` | simulation/src/aodv/model/aodv-packet.cc:222-265 | Writing a flag sets that bit and no other |
| `Packets.WithBitFits` | simulation/src/aodv/model/aodv-packet.cc:222-265 | Writing a flag stays within the width of the field |
| `Packets.RreqHeader.SetGratiousRrep` | simulation/src/aodv/model/aodv-packet.cc:222-229 | Sets G, the bit of value 32, and leaves D and U |
| `Packets.RreqHeader.SetDestinationOnly` | simulation/src/aodv/model/aodv-packet.cc:237-244 | Sets D, the bit of value 16, and leaves G and U |
| `Packets.RreqHeader.SetUnknownSeqno` | simulation/src/aodv/model/aodv-packet.cc:252-259 | Sets U, the bit of value 8, and leaves G and D |
| `Packets.RrepHeader.Serialize` | simulation/src/aodv/model/aodv-packet.cc:312-322 | Writes the layout of section 5.2 of RFC 3561, 19 bytes, and no other byte |
| `Packets.RrepHeader.Deserialize` | simulation/src/aodv/model/aodv-packet.cc:324-340 | Reads the same layout and consumes 19 bytes |
| `Packets.RrepRoundTrip` | simulation/src/aodv/model/aodv-packet.cc:312-340 | A reply is read back as it was written |
| `Packets.RrepOfRfc` | simulation/src/aodv/model/aodv-packet.cc:312-322 | Every field of a reply stands at its place of section 5.2 of RFC 3561, most significant byte first |
| `Packets.CarryRrep` | simulation/src/aodv/model/aodv-packet.cc:306-340 | A reply that is serialized and deserialized from the same position comes back, and takes exactly its serialized size |
| `Packets.RrepHeader.SetAckRequired` | simulation/src/aodv/model/aodv-packet.cc:367-374 | Sets A, the bit of value 64, and no other flag |
| `Packets.RrepAckHeader.Serialize` | simulation/src/aodv/model/aodv-packet.cc:453-457 | Writes the one byte of section 5.4 of RFC 3561 |
| `Packets.RrepAckHeader.Deserialize` | simulation/src/aodv/model/aodv-packet.cc:459-467 | Reads the byte that stands there |
| `Packets.CarryRrepAck` | simulation/src/aodv/model/aodv-packet.cc:447-467 | An acknowledgement that is serialized and deserialized from the same position comes back, and takes one byte |
| `Packets.RerrHeader.Serialize` | simulation/src/aodv/model/aodv-packet.cc:519-531 | Writes the 8-bit count and all pairs in the order of their addresses, and no other byte |
| `Packets.RerrHeader.Deserialize` | simulation/src/aodv/model/aodv-packet.cc:533-553 | Inserts as many pairs as the count says and consumes 3 bytes and 8 for each |
| `Packets.DestsRoundTrip` | simulation/src/aodv/model/aodv-packet.cc:524-548 | Inserting the pairs of a map written in key order rebuilds the map |
| `Packets.RerrOfRfc` | simulation/src/aodv/model/aodv-packet.cc:519-531 | The destinations of an error stand in ascending order of their addresses, each before its number, after the count in 8 bits |
| `Packets.RerrRoundTripIff` | simulation/src/aodv/model/aodv-packet.cc:519-553 | An error is read back as it was written exactly if it has at most 255 destinations |
| `Packets.CarryRerr` | simulation/src/aodv/model/aodv-packet.cc:513-553 | An error that is serialized and deserialized from the same position comes back, and is read in as many bytes as were written, exactly up to 255 destinations; what is read is always the serialized size |
| `Packets.ManyDestsSize` | simulation/src/aodv/model/aodv-packet.cc:582-591 | Without the assertion, 256 additions make a header of 256 destinations |
| `Packets.ManyDestsAreLost` | simulation/src/aodv/model/aodv-packet.cc:582-591 | 256 destinations are counted as none and read back as none |
| `Packets.SizeAgreesIff` | simulation/src/aodv/model/aodv-packet.cc:550-552 | The assertion at the end of Deserialize holds exactly if the message names no destination twice |
| `Packets.ZeroTwiceDisagrees` | simulation/src/aodv/model/aodv-packet.cc:550-552 | A message that names address 0 twice, for which the assertion fails |
| `Packets.SizeIsRightIff` | simulation/src/aodv/model/aodv-packet.cc:513-531 | GetSerializedSize is the number of bytes written exactly up to 255 destinations |
| `Packets.RerrHeader.AddUnDestination` | simulation/src/aodv/model/aodv-packet.cc:582-591 | A listed destination keeps its number, a new one is added, and the header stays within 255 if the assertion holds |
| `Packets.RerrHeader.RemoveUnDestination` | simulation/src/aodv/model/aodv-packet.cc:593-602 | Takes out the destination with the least address, or nothing from an empty header |
| `Packets.TypeHeader.Deserialize` | simulation/src/aodv/model/aodv-packet.cc:72-94 | Valid exactly if the byte is the code of a message type, and then that type |
| `Packets.TypesOfRfc` | simulation/src/aodv/model/aodv-packet.cc:66-94 | Requests, replies, errors and acknowledgements have the type codes 1 to 4 |
| `Network.HasNextHop` | simulation/scratch/third.cc:301-308 | Every node d+1 links away has a next hop d links away |
| `Network.BottleneckIsNarrowest` | simulation/scratch/third.cc:300 | The bandwidth of a route is at most that of each of its links |
| `Network.TxTimeIsFloor` | simulation/scratch/third.cc:299 | The transmission time over a link is the floor of 8 * 10^9 times the payload, in 64-bit arithmetic, divided by the bandwidth |
| `Bfs.VisitInv` | simulation/scratch/third.cc:290-309 | Looking at a neighbour keeps the queue ordered by distance, duplicate free and closed |
| `Bfs.SearchIsExact` | simulation/scratch/third.cc:281-310 | At the end a distance is recorded for exactly the nodes reachable through switches, and it is that of a shortest route |
| `Bfs.TightIsNextHop` | simulation/scratch/third.cc:305-308 | The test d+1 == dis[next] picks exactly the neighbours that are next hops |
| `Bfs.AddedIsNextHops` | simulation/scratch/third.cc:305-308 | What is appended for a node are its next hops, each once |
| `Bfs.QueueIsShort` | simulation/scratch/third.cc:287-310 | The queue is never longer than the number of nodes, so the search ends |
| `Routing.VisitNeighbour` | simulation/scratch/third.cc:294-308 | The body of the inner loop makes the step of the search |
| `Routing.ComputeFrom` | simulation/scratch/third.cc:272-310 | Next hops towards the host are exactly right for every node, and the quantities are measured for exactly the reached nodes |
| `Routing.ServePosition` | simulation/scratch/third.cc:281-309 | One position of the queue keeps some state of the breadth-first search behind the variables, and the queue is bounded by the nodes |
| `Routing.AlongIsSums` | simulation/scratch/third.cc:298-300 | Delay and transmission time accumulated link by link are the sums along the route modulo 2^64, bandwidth is the minimum |
| `Routing.WitnessMeasures` | simulation/scratch/third.cc:297-304 | For every reached node one shortest route has all three quantities |
| `Routing.SetQuantities` | simulation/scratch/third.cc:311-316 | The pair tables get the values of this host and keep all others |
| `Routing.Simulation.AddLink` | simulation/scratch/third.cc:930-942 | A line of the topology file brings up both directions with the given interfaces, leaves every other link as it was, keeps the topology symmetric, and keeps interfaces distinct if both ends are new |
| `Routing.Simulation.CalculateRoute` | simulation/scratch/third.cc:272-317 | Next hops and quantities towards one host, all other entries as before |
| `Routing.RouteOneMore` | simulation/scratch/third.cc:319-325 | One more host keeps the tables right for the hosts before it |
| `Routing.MeasureOneMore` | simulation/scratch/third.cc:319-325 | One more host keeps the pair tables right for the hosts before it |
| `Routing.Simulation.CalculateRoutes` | simulation/scratch/third.cc:319-325 | Every table entry lists exactly the next hops towards its host, without duplicates, and there are entries for hosts only; for every host and every node it reaches, delay, transmission time and bandwidth are those of one shortest route, and the rest of the pair tables is as before |
| `Routing.InstallAll` | simulation/scratch/third.cc:327-350 | Every node gets the interface of every next hop, in order |
| `Routing.Simulation.SetRoutingEntries` | simulation/scratch/third.cc:327-350 | Entries are appended for every node and destination; for right next hops and empty tables, the entries of a node are exactly the near-end interfaces of its links to next hops |
| `Routing.InstalledIsRight` | simulation/scratch/third.cc:327-350 | The entries of a node towards a host are exactly the interfaces at which its links to the next hops begin, and there are none towards anything else |
| `Routing.EntriesAreDistinct` | simulation/scratch/third.cc:327-350 | Where interfaces are distinct, no entry is listed twice |
| `Routing.TakeDownKeepsShape` | simulation/scratch/third.cc:356-357 | Taking a link down in both directions keeps the topology symmetric and interfaces distinct, and leaves every other link as it was |
| `Routing.Simulation.TakeDownLink` | simulation/scratch/third.cc:352-370 | A link that is not up changes no table; otherwise next hops and forwarding entries are those of a fresh start without the link, the entries being exactly the interfaces of links to next hops, and so are the pair tables for the nodes that are reached |
| `Routing.RoutingIsDetermined` | simulation/scratch/third.cc:319-370 | Any two right tables for a topology hold the same next hops, so that after a failure they equal a computation from scratch |
| `Routing.DownLinkUnused` | simulation/scratch/third.cc:352-370 | No entry uses a link that is down |
| `Routing.ForwardStep` | simulation/scratch/third.cc:301-308 | Every next hop is one link nearer, over a link that is up, and no host other than the destination |
| `Routing.ForwardEnd` | simulation/scratch/third.cc:301-308 | A node has no next hop only if it is the destination |
| `Routing.ForwardingDelivers` | simulation/scratch/third.cc:301-350 | Whatever next hops are chosen, a packet arrives after exactly dis steps and passes switches only |
| `Routing.PacketsArrive` | simulation/scratch/third.cc:301-350 | Where interfaces are distinct, a packet that each node sends out of any listed interface arrives over the links of these interfaces after exactly dis steps, and passes switches only |
| `Cycles.IsRotated` | simulation/bindings/python/rad_util.py:735-775 | True exactly if one sequence is a rotation of the other |
| `Cycles.RotatedSymmetric` | simulation/bindings/python/rad_util.py:735-775 | Being a rotation is symmetric |
| `Cycles.RotatedTransitive` | simulation/bindings/python/rad_util.py:735-775 | Being a rotation is transitive |
| `Cycles.AddCycle` | simulation/bindings/python/topsort.py:369-378 | A cycle is represented afterwards, and no two listed cycles are rotations of each other |
| `Cycles.ExpandPath` | simulation/bindings/python/topsort.py:362-385 | All cycles that close at the end of a path are recorded, all longer simple paths are on the stack, and the stack weighs less |
| `Cycles.ExploreTop` | simulation/bindings/python/topsort.py:353-385 | One round keeps every simple path from the start node either recorded or pending |
| `Cycles.ExploreFrom` | simulation/bindings/python/topsort.py:351-385 | From one start node the search ends with every cycle reachable from it |
| `Cycles.ExploredFindsCycles` | simulation/bindings/python/topsort.py:351-385 | If all simple paths from a node are recorded, every reachable cycle is represented |
| `Cycles.FoundFromReached` | simulation/bindings/python/topsort.py:346-349 | A start node that has been visited may be skipped |
| `Cycles.FindCycles` | simulation/bindings/python/topsort.py:343-385 | Ends; yields only elementary cycles, a rotation of every elementary cycle, and no two rotations of one |
| `Cycles.OneEntryPerCycle` | simulation/bindings/python/topsort.py:370-378 | No cycle is listed twice in any rotation |
| `Topsort.BuildTables` | simulation/bindings/python/topsort.py:77-90 | Counts of parents and lists of children as the pairs say, duplicate pairs included |
| `Topsort.ZeroKeys` | simulation/bindings/python/topsort.py:93 | All items without a parent, each once |
| `Topsort.ReleaseChildren` | simulation/bindings/python/topsort.py:100-103 | Children lose one parent per pair, and are released exactly when the last one goes |
| `Topsort.RemoveParent` | simulation/bindings/python/topsort.py:98-106 | The tables describe the items that are left |
| `Topsort.ParentedIsTainted` | simulation/bindings/python/topsort.py:108-111 | Items that all have a parent among themselves lie on a cycle or behind one |
| `Topsort.ListedIsUntainted` | simulation/bindings/python/topsort.py:97-112 | An item listed after its parents lies behind no cycle |
| `Topsort.AcyclicIffUntainted` | simulation/bindings/python/topsort.py:108-112 | There is a cycle exactly if some element lies on one or behind one |
| `Topsort.Topsort` | simulation/bindings/python/topsort.py:61-112 | Sorts exactly the acyclic relations, every parent before its child and each element once; otherwise the leftover keys are exactly the elements on or behind a cycle |
| `Topsort.DepthIsExact` | simulation/bindings/python/topsort.py:203-212 | The depth of an item is the one length of ancestor chain that cannot be lengthened |
| `Topsort.DepthIsUnique` | simulation/bindings/python/topsort.py:203-212 | An item has one depth |
| `Topsort.LevelIsDepth` | simulation/bindings/python/topsort.py:205 | An item has no parents left in round k exactly if it has no chain of more than k ancestors |
| `Topsort.DiscountLevel` | simulation/bindings/python/topsort.py:217-224 | The tables describe the items below the level |
| `Topsort.LevelsEndHere` | simulation/bindings/python/topsort.py:226-232 | When a level is empty, what was yielded are exactly the elements behind no cycle |
| `Topsort.TopsortLevelsCore` | simulation/bindings/python/topsort.py:174-232 | From any right tables: levels by depth, and an error exactly if there is a cycle |
| `Topsort.TopsortLevels` | simulation/bindings/python/topsort.py:114-172 | Every element at the level of its longest ancestor chain, levels in topological order, and an error exactly when topsort has one |
| `WorkerPool.StepKeepsInv` | simulation/test.py:921-989 | Every step of every thread keeps: a dispatched job is in one place, and stop jobs never reach the output |
| `WorkerPool.RunKeepsInv` | simulation/test.py:1313-1316 | The invariant holds in every state of every interleaving |
| `WorkerPool.StepConserves` | simulation/test.py:921-989 | No step duplicates or loses a job |
| `WorkerPool.PendingJobIsSomewhere` | simulation/test.py:1594-1595 | While the collector waits, a job is on a queue or with a worker |
| `WorkerPool.NeverStuck` | simulation/test.py:1594-1595 | With a worker, or with no job, something other than an interrupt can always happen until the program ends |
| `WorkerPool.StuckWithoutWorkers` | simulation/test.py:1594-1595 | Without a worker the collector waits forever for the first job |
| `WorkerPool.NoWorkersRun` | simulation/test.py:1298-1316 | A run with no processor found, in which the collector waits forever |
| `WorkerPool.EveryEventCounts` | simulation/test.py:921-989 | Every event other than an interrupt makes progress |
| `WorkerPool.EveryRunEnds` | simulation/test.py:1736-1737 | Every run has a bounded number of steps and can stop only at the end, with all threads joined |
| `WorkerPool.CountersTally` | simulation/test.py:1604-1619 | Passed and skipped jobs make up all jobs exactly if each was skipped or returned 0, and none came back interrupted |
| `WorkerPool.CountersCount` | simulation/test.py:1604-1619 | Each of the five counters is the number of results of its status |
| `WorkerPool.RunTracks` | simulation/test.py:944-989 | In every state of every run, a job has been treated once if it is done and never if it waits; its mark and its return code come from that one event |
| `WorkerPool.Verdict` | simulation/test.py:1594-1803 | At the end every job was collected exactly once, was treated exactly once, and carries what its run returned unless it is skipped or an interrupt came first; the counters are the numbers of such results; all workers have returned; the result is 0 exactly if no job was treated after an interrupt and every run that was not skipped returned 0 |
| `TraceFilter.FindClose` | analysis/trace_filter.hpp:285-291 | Finds the bracket that closes the open one |
| `TraceFilter.StripOuterBracket` | analysis/trace_filter.hpp:320-346 | Takes off all pairs of brackets that enclose the whole text |
| `TraceFilter.ReadShape` | analysis/trace_filter.hpp:244-305 | Which of the parser's cases a text is, and its parts |
| `TraceFilter.ShapeShrinks` | analysis/trace_filter.hpp:295-307 | Every part is shorter than the text and has no more shorthands |
| `TraceFilter.ExpansionIsPlain` | analysis/trace_filter.hpp:347-380 | The text a shorthand expands into has no shorthand, so that parsing ends although the text grows |
| `TraceFilter.ParseFilter` | analysis/trace_filter.hpp:240-319 | The recursive parser computes the specification and ends on every text |
| `TraceFilter.ParseBaseExpr` | analysis/trace_filter.hpp:243-255 | A base expression becomes a test or, if it is a shorthand, its expansion |
| `TraceFilter.ParseText` | analysis/trace_filter.hpp:240-319 | Every expression of the grammar, with whatever brackets, is parsed into its meaning |
| `TraceFilter.SpacesDoNotMatter` | analysis/trace_filter.hpp:179-183 | Every text, a filter or not, is parsed as it is without its spaces |
| `TraceFilter.ParseSpacedText` | analysis/trace_filter.hpp:240-319 | The text of an expression with any spaces between its parts is parsed into its meaning |
| `TraceFilter.TextAccepts` | analysis/trace_filter.hpp:240-391 | The filter parsed from the text of an expression, with any spaces, accepts exactly what the expression says |
| `TraceFilter.ParseRender` | analysis/trace_filter.hpp:382-391 | Parsing undoes the bracketed rendering of every filter whose values fit their fields |
| `TraceFilter.ParsedIsInRange` | analysis/trace_filter.hpp:189-235 | The values of every parsed filter fit their fields |
| `TraceFilter.ParsedComesBack` | analysis/trace_filter.hpp:240-391 | What is parsed from any text comes back from its own rendering |
| `TraceFilter.TestAccepts` | analysis/trace_filter.hpp:53-66 | For every field and each of the six operators, a test accepts exactly the records whose field stands in that relation to the value in the width of the field |
| `TraceFilter.Widths` | analysis/trace_filter.hpp:186-235 | Values are cut to 8, 16, 32 or 64 bits, as the field has |
| `TraceFilter.AcceptsOneWay` | analysis/trace_filter.hpp:356-358 | The expansion of flow accepts exactly the packets of that direction, whichever header they carry |
| `TraceFilter.FlowFilters` | analysis/trace_filter.hpp:348-366 | With four numbers, flow, rflow and biflow are filters; flow accepts one direction, rflow the other, biflow exactly what either accepts |
| `TraceFilter.QueueFilter` | analysis/trace_filter.hpp:367-380 | With three numbers, queue accepts exactly the records of that node, port and queue |
| `TraceFilter.ShorthandIsWellFormedIff` | analysis/trace_filter.hpp:347-380 | A shorthand makes a filter exactly if it is a known one, used with =, with enough numbers |
| `Cdf.CustomRand.TestCdf` | traffic_gen/custom_rand.py:5-13 | Accepts exactly the strictly increasing distributions from 0 to 100 percent |
| `Cdf.CustomRand.SetCdf` | traffic_gen/custom_rand.py:14-18 | Only an accepted distribution is taken over |
| `Cdf.CustomRand.GetPercentileFromValue` | traffic_gen/custom_rand.py:31-38 | The search computes the percentile function, with -1 for values below zero or above the distribution |
| `Cdf.CustomRand.GetValueFromPercentile` | traffic_gen/custom_rand.py:39-44 | The search computes the value function, and returns nothing exactly above 100 |
| `Cdf.ValueIsLinear` | traffic_gen/custom_rand.py:39-44 | From one breakpoint to the next, values grow in proportion to percentiles |
| `Cdf.ValueIsIncreasing` | traffic_gen/custom_rand.py:39-44 | Values increase strictly with percentiles |
| `Cdf.PercentileIsIncreasing` | traffic_gen/custom_rand.py:31-38 | Percentiles increase strictly with values |
| `Cdf.PercentileOfValue` | traffic_gen/custom_rand.py:31-44 | The percentile of the value of a percentile is that percentile |
| `Cdf.ValueOfPercentile` | traffic_gen/custom_rand.py:31-44 | The value of the percentile of a value in the range is that value |
| `Cdf.CustomRand.GetIntegralY` | traffic_gen/custom_rand.py:45-56 | The loop adds whole segments and the part of the last one |
| `Cdf.IntegralIsContinuous` | traffic_gen/custom_rand.py:45-56 | The two segments at a breakpoint agree there, in the integral and in the value |
| `Cdf.IntegralOfValues` | traffic_gen/custom_rand.py:45-56 | Over any interval the integral grows by the width times something between the lowest and the highest value, and so is continuous, and monotone for values that are not negative |
| `Cdf.AverageIsIntegral` | traffic_gen/custom_rand.py:19-27 | The average is the integral up to 100 |
| `Cdf.CustomRand.GetAvg` | traffic_gen/custom_rand.py:19-27 | getAvg equals getIntegralY(100) |
| `FlowBins.PercentileBetween` | traffic_gen/flow_bins.py:41-43 | The percentile of half a size lies strictly between the two percentiles that jump over it |
| `FlowBins.NextSize` | traffic_gen/flow_bins.py:34-43 | A round takes the size one percentile down, or at 1, but above 1000 half the size where that is more; it never goes below 1 or by more than one percentile, and lowers the size or the rank of the percentile |
| `FlowBins.StepKeepsBinning` | traffic_gen/flow_bins.py:31-49 | A round keeps the bins decreasing, without wide gaps, and one for every percentile so far |
| `FlowBins.BuildBins` | traffic_gen/flow_bins.py:28-49 | Ends, never takes the error exit; the bins are exactly the positive sizes of all rounds; they decrease strictly from the largest size, above 1000 the next is at least half, and every percentile with a positive size has a bin within one percentile above |
| `FlowBins.ReversedIsSorted` | traffic_gen/flow_bins.py:50 | Backwards the bins are ascending and the same |
| `FlowBins.PercentileOfBin` | traffic_gen/flow_bins.py:51-52 | Every bin has a percentile, which is negative exactly if the bin is below the distribution, and otherwise has the bin as its value |
| `FlowBins.LowBinHasNoPercentile` | traffic_gen/flow_bins.py:51-52 | For sizes from 1.5 to 10 the lowest bin is 1, with a negative percentile |
| `FlowBins.BinTable` | traffic_gen/flow_bins.py:50-52 | The table has every bin in ascending order with its percentile |
| `TrafficGen.RoundKeepsHost` | traffic_gen/traffic_gen.py:80-95 | A round for one host leaves every host where it would be on its own |
| `TrafficGen.RoundKeepsOrder` | traffic_gen/traffic_gen.py:80-95 | A round keeps the flows in order of time, and of hosts at the same time, and none of them later than any waiting arrival |
| `TrafficGen.EmitFlows` | traffic_gen/traffic_gen.py:76-95 | Flows come out in order of time, then of hosts, and not past the end; each host sends one for exactly those of its rounds whose next arrival is not past the end, with the destination, size, port and priority group of the round at the time of its arrival; the count is right; an empty heap means every host has passed the end |
| `TrafficGen.HostSendsRounds` | traffic_gen/traffic_gen.py:79-95 | The flows of a host on its own match, in order and one to one, its rounds in time |
| `FlowFile.NumberOfDigits` | traffic_gen/traffic_gen.py:77-97 | A printed number is read as that number |
| `FlowFile.ReadShort` | traffic_gen/traffic_gen.py:96-97 | A shorter number leaves the last digits of the estimate in the header |
| `FlowFile.ReadLong` | traffic_gen/traffic_gen.py:96-97 | A number two or more digits longer destroys the line end or the flows |
| `FlowFile.HeaderIsRightIff` | traffic_gen/traffic_gen.py:77-97 | The file is read as written exactly if the number has as many digits as the estimate, or one more, or is zero over a digit and zeros |
| `FlowFile.WrongHeaders` | traffic_gen/traffic_gen.py:77-97 | 99 flows over an estimate of 100 are read as 990, and 100 over an estimate of 9 end in the flows |
| `IncastGen.CopyUpTo` | traffic_gen/incast_gen.py:47-55 | The first loop copies the flows that are over before the incast |
| `IncastGen.CopyOthersBefore` | traffic_gen/incast_gen.py:57-68 | The second loop copies up to the incast and leaves out its senders |
| `IncastGen.CopyOthersUpTo` | traffic_gen/incast_gen.py:75-86 | The third loop copies while the incast lasts and leaves out its senders |
| `IncastGen.CopyRest` | traffic_gen/incast_gen.py:88-92 | The last loop copies as many lines as the header announces, or runs out of them |
| `IncastGen.AddIncast` | traffic_gen/incast_gen.py:44-96 | The output is the merged list, and the count, which runs along through all loops, is right exactly if there are as many senders as the option says |
| `IncastGen.MergedIs` | traffic_gen/incast_gen.py:44-92 | For sorted flows only the senders' flows in (time-tx, time+tx] are left out |
| `IncastGen.MergeSorted` | traffic_gen/incast_gen.py:44-96 | For sorted flows the program ends properly exactly if some flow starts after time+tx, and then writes a sorted list with one flow per sender at the given time |
| `IncastGen.LateIncastFails` | traffic_gen/incast_gen.py:88-92 | A sorted file of one flow that the program does not complete |
| `FlowInput.Simulation.TakePort` | simulation/scratch/third.cc:149-156 | One flow is started with the counter of its pair, which goes up in 16 bits |
| `FlowInput.Simulation.ScheduleFlowInputs` | simulation/scratch/third.cc:147-164 | One event starts all flows of this moment and yields the delay to the next |
| `FlowInput.Simulation.Run` | simulation/scratch/third.cc:147-164 | All events together start every flow once, in order, at its start time, exactly if the flows are sorted from time zero on |
| `FlowInput.PortIs` | simulation/scratch/third.cc:149 | The port of a flow is 10000 plus the number of earlier flows of its pair, in 16 bits |
| `FlowInput.PortsDifferIff` | simulation/scratch/third.cc:149 | Flows of a pair get different ports exactly up to 65536 of them |
| `FlowInput.PortsDoNotWrapIff` | simulation/scratch/third.cc:1132-1139 | Ports stay at 10000 or above exactly up to 55536 flows of a pair |
| `FlowInput.ManyFlowsShareAPort` | simulation/scratch/third.cc:149-156 | 65537 flows of one pair, of which two have port 10000 and one port 0 |

## Left out

- LoopFreedom.StepKeepsInv: expiry, invalidation and route errors are not among the steps; sequence numbers stay in a window of 2^31, outside of which their comparison is no order.
- LoopFreedom.RunHasNoLoops: speaks of handlers that lose nothing known, because with the others it is false, as the six runs that make loops show.
- AodvNode.RoutingProtocol.HandleReply: the packets that are sent once the route is there are not modelled.
- AodvNode.RoutingProtocol.RecvReply: likewise; acknowledgement and blacklist timers are left out, which the code sets on a copy of the entry, so that no route depends on them.
- AodvNode.RoutingProtocol.SendReplyByIntermediateNode: the acknowledgement timer is left out, as above.
- AodvNode.RoutingProtocol.RouteRequestTimerExpire: the packet queue, which is sent or dropped, is not modelled.
- LoopFreedom.RunDeliversIff: a node is one address here and in Flood; one with several interfaces has several, with one table, and its answer may leave from another address than the one it is about.
- Flood.BroadcastsOnce: one flood within the lifetime of the caches; the link to IdCaches is the contract of RecvRequest.
- AodvNode.RoutingProtocol.DiscoverUnanswered: the run of a timer that nobody answers is written out as a method; what other discoveries do meanwhile is seen in the count only, and the packet queue that is dropped in the end is not modelled.
- Routing.Simulation.TakeDownLink: the pair tables keep old values for nodes that can no longer be reached, as in the code; the devices' own TakeDown and the redistribution of queue pairs are left out.
- Routing.Simulation.CalculateRoute: the tables are keyed by node and not by IP address; delay, txDelay and bw of the search are one map of triples.
- Cycles.FindCycles: the generator is a method that returns all cycles; a consumer that changes a yielded list while the generator is suspended is not covered.
- Topsort.TopsortLevels: likewise returns all levels; the order in which a dictionary lists its keys is left open.
- WorkerPool.Verdict: a job is an id, a skip flag and a return code; an exception inside run_job_synchronously, which would end a worker, and all output are left out.
- TraceFilter.ParseFilter: works on tokens; the regular expressions, sscanf and sprintf, and the 512-byte buffer are not modelled, and neither are trailing characters after a number; spaces are blanks and tabs, and line ends, which the regular expressions pass in some places only, are left out.
- Cdf.CustomRand.GetAvg: floating point is modelled by real numbers, here and in all of the traffic part.
- FlowBins.BuildBins: the library's sort is represented by the reversed list, which is proved to be sorted and to hold the same bins.
- TrafficGen.EmitFlows: the heap of the library is a set of which the first tuple is taken; random numbers are a given list of choices, and the loop stops when they run out.
- IncastGen.AddIncast: running out of lines is an empty result; lines are parsed flows; choosing receiver and senders at random and formatting times are left out.
- FlowInput.Simulation.Run: reads flows from a list as long as the header says; window, round-trip time and the client itself are left out.
- Packets.RerrHeader.Serialize: a buffer of sufficient size is given, here and for the other headers; the iterator is moved in place and not copied; the position of the RERR N flag, which the code puts at bit 0, is not compared with RFC 3561.
- In C++ copies of an entry share one route object through a pointer, and every lookup first purges expired entries; the model has values, and neither the aliasing nor the purge is covered.
- Sending hellos, ARP and MAC feedback, interfaces going up and down, and the route error path with its rate limit.
- The neighbour, duplicate-packet and packet-queue classes of AODV, which are thin once the cache is modelled.
- Configuration, option parsing, plotting, code generators and the GUI.
