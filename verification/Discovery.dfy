/** How long and how often a node of aodv-routing-protocol.cc asks for a route that nobody answers. */
module Discovery {

  // The retry count after k requests: SendRequest adds one to an 8-bit counter each time.
  function CountAfter(k: nat): nat {
    if k == 0 then 0 else (CountAfter(k - 1) + 1) % 256
  }

  // The time spent waiting after k requests: the k-th waits for its count times the net traversal time.
  function WaitedAfter(k: nat, netTraversalTime: nat): nat {
    if k == 0 then 0 else WaitedAfter(k - 1, netTraversalTime) + CountAfter(k) * netTraversalTime
  }

  // RouteRequestTimerExpire after the k-th request drops the entry and the queued packets, and not before.
  ghost predicate StopsAfter(k: nat, rreqRetries: nat) {
    && k > 0 && CountAfter(k) == rreqRetries
    && forall j :: 0 < j < k ==> CountAfter(j) != rreqRetries
  }

  lemma {:induction false} CountIsModulo(k: nat)
    ensures CountAfter(k) == k % 256
  {
    if k > 0 {
      CountIsModulo(k - 1);
      NextModulo(k - 1);
    }
  }

  lemma NextModulo(k: nat)
    ensures (k % 256 + 1) % 256 == (k + 1) % 256
  {
  }

  lemma CountsAreModulo()
    ensures forall k: nat :: CountAfter(k) == k % 256
  {
    forall k: nat {
      CountIsModulo(k);
    }
  }

  // With a limit from 1 to 255 an unanswered discovery sends exactly that many requests.
  lemma StopsAtTheLimit(rreqRetries: nat)
    requires 1 <= rreqRetries <= 255
    ensures forall k: nat :: StopsAfter(k, rreqRetries) <==> k == rreqRetries
  {
    CountsAreModulo();
    assert CountAfter(rreqRetries) == rreqRetries;
  }

  // The 8-bit count passes through 0, so that a limit of 0 allows 256 requests.
  lemma NoRetriesMeansManyRequests()
    ensures forall k: nat :: StopsAfter(k, 0) <==> k == 256
  {
    CountsAreModulo();
    assert CountAfter(256) == 0;
  }

  // An unanswered discovery ends if and only if its limit fits the counter.
  lemma StopsIffLimitFits(rreqRetries: nat)
    ensures (exists k: nat :: StopsAfter(k, rreqRetries)) <==> rreqRetries <= 255
  {
    CountsAreModulo();
    if rreqRetries == 0 {
      NoRetriesMeansManyRequests();
      assert StopsAfter(256, 0);
    } else if rreqRetries <= 255 {
      StopsAtTheLimit(rreqRetries);
      assert StopsAfter(rreqRetries, rreqRetries);
    }
  }

  // The number of requests of an unanswered discovery, for limits that fit the counter.
  function RequestsMade(rreqRetries: nat): nat {
    if rreqRetries == 0 then 256 else rreqRetries
  }

  lemma StopsAfterRequestsMade(rreqRetries: nat)
    ensures forall k: nat :: StopsAfter(k, rreqRetries) <==> rreqRetries <= 255 && k == RequestsMade(rreqRetries)
  {
    CountsAreModulo();
    if rreqRetries == 0 {
      NoRetriesMeansManyRequests();
    } else if rreqRetries <= 255 {
      StopsAtTheLimit(rreqRetries);
    }
  }

  // ----- A discovery among others -----

  // The node is to send the next request, when its count of requests within the rate limit is rreqCount; if that
  // holds the request up it is tried again after the delay.
  datatype Wake = Wake(rreqCount: nat, delay: nat)

  // The wakes at which the rate limit leaves room for a request.
  function GoOut(limit: nat, wakes: seq<Wake>): nat {
    if wakes == [] then 0
    else GoOut(limit, wakes[..|wakes| - 1]) + if wakes[|wakes| - 1].rreqCount != limit then 1 else 0
  }

  lemma {:induction false} GoOutGrows(limit: nat, wakes: seq<Wake>, i: nat)
    requires i <= |wakes|
    ensures GoOut(limit, wakes[..i]) <= GoOut(limit, wakes)
    decreases |wakes|
  {
    if i < |wakes| {
      GoOutGrows(limit, wakes[..|wakes| - 1], i);
      assert wakes[..|wakes| - 1][..i] == wakes[..i];
    } else {
      assert wakes[..i] == wakes;
    }
  }

  // The limit was reached before the last wake.
  ghost predicate Stops(limit: nat, rreqRetries: nat, wakes: seq<Wake>) {
    wakes != [] && rreqRetries <= 255 && GoOut(limit, wakes[..|wakes| - 1]) >= RequestsMade(rreqRetries)
  }

  // After the first i wakes, with the retry timer running or the next request held up.
  ghost predicate StillAsks(limit: nat, rreqRetries: nat, wakes: seq<Wake>, i: nat, requests: nat, waiting: bool) {
    && i <= |wakes| && requests == GoOut(limit, wakes[..i]) && !Stops(limit, rreqRetries, wakes[..i])
    && (waiting <==> i > 0 && wakes[i - 1].rreqCount != limit)
  }

  // The next wake ends the discovery if the timer expires on a count that is the limit, and otherwise does not.
  lemma WakeKeepsAsking(limit: nat, rreqRetries: nat, wakes: seq<Wake>, i: nat, requests: nat, waiting: bool)
    requires StillAsks(limit, rreqRetries, wakes, i, requests, waiting) && i < |wakes|
    ensures var goes := wakes[i].rreqCount != limit;
            if waiting && CountAfter(requests) == rreqRetries
            then Stops(limit, rreqRetries, wakes) && requests == RequestsMade(rreqRetries)
            else StillAsks(limit, rreqRetries, wakes, i + 1, if goes then requests + 1 else requests, goes)
  {
    CountIsModulo(requests);
    assert wakes[..i + 1][..i] == wakes[..i];
    GoOutGrows(limit, wakes[..|wakes| - 1], i);
    assert wakes[..|wakes| - 1][..i] == wakes[..i];
    if i > 0 {
      assert wakes[..i][..i - 1] == wakes[..i - 1];
    }
  }

  // The waiting times grow by one traversal time with each request.
  lemma {:induction false} WaitIsTriangular(k: nat, netTraversalTime: nat)
    requires k <= 255
    ensures 2 * WaitedAfter(k, netTraversalTime) == netTraversalTime * (k * (k + 1))
  {
    if k > 0 {
      WaitIsTriangular(k - 1, netTraversalTime);
      CountIsModulo(k);
      Triangle(k, netTraversalTime);
    }
  }

  lemma Triangle(k: nat, t: nat)
    requires k > 0
    ensures t * ((k - 1) * k) + 2 * (k * t) == t * (k * (k + 1))
  {
    assert k * (k + 1) == (k - 1) * k + 2 * k;
  }

  // ----- The rate limit -----

  // SendRequest is called, or the rate timer expires.
  datatype Event = Ask | Expire

  // m_rreqCount after the events.
  function RreqCount(limit: nat, events: seq<Event>): nat {
    if events == [] then 0
    else
      var c := RreqCount(limit, events[..|events| - 1]);
      if events[|events| - 1] == Expire then 0 else if c == limit then c else c + 1
  }

  // Requests that go out during events i to j; the others are postponed.
  function Originated(limit: nat, events: seq<Event>, i: nat, j: nat): nat
    requires i <= j <= |events|
    decreases j - i
  {
    if i == j then 0
    else Originated(limit, events, i, j - 1)
         + if events[j - 1] == Ask && RreqCount(limit, events[..j - 1]) != limit then 1 else 0
  }

  lemma CountNext(limit: nat, events: seq<Event>, k: nat)
    requires k < |events|
    ensures RreqCount(limit, events[..k + 1]) ==
              if events[k] == Expire then 0
              else if RreqCount(limit, events[..k]) == limit then limit else RreqCount(limit, events[..k]) + 1
  {
    assert events[..k + 1][..k] == events[..k];
  }

  lemma {:induction false} CountWithinLimit(limit: nat, events: seq<Event>, k: nat)
    requires k <= |events|
    ensures RreqCount(limit, events[..k]) <= limit
  {
    if k > 0 {
      CountWithinLimit(limit, events, k - 1);
      CountNext(limit, events, k - 1);
    }
  }

  // Between two expiries, however the calls fall, no more requests go out than the limit allows, and
  // as many as it allows once it has been asked for that many.
  lemma {:induction false} WithinRateLimit(limit: nat, events: seq<Event>, i: nat, j: nat)
    requires i <= j <= |events| && forall k :: i <= k < j ==> events[k] == Ask
    ensures RreqCount(limit, events[..i]) + Originated(limit, events, i, j) <= limit
    ensures RreqCount(limit, events[..i]) == 0 ==>
              Originated(limit, events, i, j) == if j - i <= limit then j - i else limit
    ensures RreqCount(limit, events[..j]) == RreqCount(limit, events[..i]) + Originated(limit, events, i, j)
    decreases j - i
  {
    CountWithinLimit(limit, events, j);
    if i < j {
      WithinRateLimit(limit, events, i, j - 1);
      CountNext(limit, events, j - 1);
    }
  }
}
