/** The program traffic_gen/incast_gen.py, which puts an incast into a list of flows.

    The flows are sorted by their start times, and so is what the program writes. Flows of the incast's senders
    that would meet it are taken out. */
module IncastGen {
  import opened Common
  import opened TrafficGen

  // The flow count and the lines of the output file.
  datatype Output = Output(count: nat, flows: seq<Flow>)

  // ----- What the loops compute -----

  // The first flow from i on that starts after time x, or the end.
  function FirstAfter(flows: seq<Flow>, i: nat, x: real): (k: nat)
    requires i <= |flows|
    ensures i <= k <= |flows| && (k < |flows| ==> flows[k].t > x) && forall j :: i <= j < k ==> flows[j].t <= x
    decreases |flows| - i
  {
    if i == |flows| || flows[i].t > x then i else FirstAfter(flows, i + 1, x)
  }

  // The first flow from i on that does not start before time x, or the end.
  function FirstFrom(flows: seq<Flow>, i: nat, x: real): (k: nat)
    requires i <= |flows|
    ensures i <= k <= |flows| && (k < |flows| ==> flows[k].t >= x) && forall j :: i <= j < k ==> flows[j].t < x
    decreases |flows| - i
  {
    if i == |flows| || flows[i].t >= x then i else FirstFrom(flows, i + 1, x)
  }

  // The flows of other hosts than the senders.
  function OfOthers(flows: seq<Flow>, senders: seq<nat>): seq<Flow> {
    if flows == [] then []
    else
      var f := flows[|flows| - 1];
      OfOthers(flows[..|flows| - 1], senders) + if f.src in senders then [] else [f]
  }

  // One flow from every sender to the receiver.
  function Incast(senders: seq<nat>, receiver: nat, size: int, time: real): (r: seq<Flow>)
    ensures |r| == |senders|
    ensures forall i :: 0 <= i < |r| ==> r[i] == Flow(senders[i], receiver, 3, 200, size, time)
  {
    seq(|senders|, i requires 0 <= i < |senders| => Flow(senders[i], receiver, 3, 200, size, time))
  }

  function Five(p: seq<Flow>, q: seq<Flow>, r: seq<Flow>, s: seq<Flow>, t: seq<Flow>): seq<Flow> {
    p + q + r + s + t
  }

  // What is left to copy from line c on, as many as the header announces.
  function Rest(flows: seq<Flow>, c: nat, flowNum: nat): (r: seq<Flow>)
    requires c <= |flows| && flowNum <= |flows|
    ensures flowNum == |flows| ==> r == flows[c..]
  {
    if flowNum < c then [] else flows[c..flowNum]
  }

  // None stands for running out of lines.
  function Merged(flows: seq<Flow>, flowNum: nat, time: real, tx: real, senders: seq<nat>, incast: seq<Flow>)
    : Option<seq<Flow>>
  {
    var a := FirstAfter(flows, 0, time - tx);
    var b := FirstFrom(flows, a, time);
    var c := FirstAfter(flows, b, time + tx);
    if c == |flows| || flowNum > |flows| then None
    else Some(Five(flows[..a], OfOthers(flows[a..b], senders), incast, OfOthers(flows[b..c], senders),
                   Rest(flows, c, flowNum)))
  }

  // The next line, from which OfOthers is carried on.
  lemma OfOthersNext(flows: seq<Flow>, a: nat, i: nat, senders: seq<nat>)
    requires a <= i < |flows|
    ensures OfOthers(flows[a..i + 1], senders)
            == OfOthers(flows[a..i], senders) + if flows[i].src in senders then [] else [flows[i]]
  {
    assert flows[a..i + 1] == flows[a..i] + [flows[i]];
  }

  // The second loop: flows before the incast, without those of its senders.
  method CopyOthersBefore(flows: seq<Flow>, from: nat, time: real, senders: seq<nat>, out: seq<Flow>,
                          count: nat)
    returns (idx: nat, out': seq<Flow>, count': nat)
    requires from <= |flows|
    ensures idx == FirstFrom(flows, from, time) && out' == out + OfOthers(flows[from..idx], senders)
    ensures count' == count + |OfOthers(flows[from..idx], senders)|
  {
    idx, out', count' := from, out, count;
    while idx < |flows| && flows[idx].t < time
      invariant from <= idx <= |flows| && FirstFrom(flows, from, time) == FirstFrom(flows, idx, time)
      invariant out' == out + OfOthers(flows[from..idx], senders)
      invariant count' == count + |OfOthers(flows[from..idx], senders)|
    {
      OfOthersNext(flows, from, idx, senders);
      if flows[idx].src !in senders {
        out' := out' + [flows[idx]];
        count' := count' + 1;
      }
      idx := idx + 1;
    }
  }

  // The third loop: flows while the incast is transmitted, without those of its senders.
  method CopyOthersUpTo(flows: seq<Flow>, from: nat, x: real, senders: seq<nat>, out: seq<Flow>,
                        count: nat)
    returns (idx: nat, out': seq<Flow>, count': nat)
    requires from <= |flows|
    ensures idx == FirstAfter(flows, from, x) && out' == out + OfOthers(flows[from..idx], senders)
    ensures count' == count + |OfOthers(flows[from..idx], senders)|
  {
    idx, out', count' := from, out, count;
    while idx < |flows| && flows[idx].t <= x
      invariant from <= idx <= |flows| && FirstAfter(flows, from, x) == FirstAfter(flows, idx, x)
      invariant out' == out + OfOthers(flows[from..idx], senders)
      invariant count' == count + |OfOthers(flows[from..idx], senders)|
    {
      OfOthersNext(flows, from, idx, senders);
      if flows[idx].src !in senders {
        out' := out' + [flows[idx]];
        count' := count' + 1;
      }
      idx := idx + 1;
    }
  }

  // What the loops leave, when they stop at a, b and c.
  lemma MergedParts(flows: seq<Flow>, flowNum: nat, time: real, tx: real, senders: seq<nat>, incast: seq<Flow>, a: nat,
                    b: nat, c: nat, before: seq<Flow>, output: seq<Flow>)
    requires a == FirstAfter(flows, 0, time - tx) && b == FirstFrom(flows, a, time)
    requires c == FirstAfter(flows, b, time + tx)
    requires before == flows[..a] + OfOthers(flows[a..b], senders)
    requires output == before + incast + OfOthers(flows[b..c], senders)
    ensures Merged(flows, flowNum, time, tx, senders, incast) ==
              if c == |flows| || flowNum > |flows| then None else Some(output + Rest(flows, c, flowNum))
    ensures |output| == a + |OfOthers(flows[a..b], senders)| + |incast| + |OfOthers(flows[b..c], senders)|
  {
  }

  // The last loop: all the other flows, as many as the header announces.
  method CopyRest(flows: seq<Flow>, from: nat, flowNum: nat, out: seq<Flow>, count: nat) returns (out': Option<Output>)
    requires from < |flows|
    ensures out' == if flowNum > |flows| then None
                    else Some(Output(count + |Rest(flows, from, flowNum)|, out + Rest(flows, from, flowNum)))
  {
    var idx, output, count' := from, out, count;
    while idx < flowNum && idx < |flows|
      invariant from <= idx <= |flows| && (idx <= flowNum || idx == from) && output == out + flows[from..idx]
      invariant count' == count + (idx - from)
    {
      output := output + [flows[idx]];
      idx := idx + 1;
      count' := count' + 1;
    }
    return if flowNum > |flows| then None else Some(Output(count', output));
  }

  // The first loop: flows that are over before the incast.
  method CopyUpTo(flows: seq<Flow>, x: real) returns (idx: nat, out: seq<Flow>, count: nat)
    ensures idx == FirstAfter(flows, 0, x) && out == flows[..idx] && count == idx
  {
    idx, out, count := 0, [], 0;
    while idx < |flows| && flows[idx].t <= x
      invariant idx <= |flows| && FirstAfter(flows, 0, x) == FirstAfter(flows, idx, x) && out == flows[..idx]
      invariant count == idx
    {
      out := out + [flows[idx]];
      idx := idx + 1;
      count := count + 1;
    }
  }

  /** The program: the flows with one more from every sender at the given time, and their number, which is right
      exactly if there are inum senders. */
  method AddIncast(flows: seq<Flow>, flowNum: nat, time: real, tx: real, senders: seq<nat>, inum: nat, receiver: nat,
                   size: int)
    returns (out: Option<Output>)
    ensures var merged := Merged(flows, flowNum, time, tx, senders, Incast(senders, receiver, size, time));
            && (out.None? <==> merged.None?)
            && (out.Some? ==> out.value.flows == merged.value
                              && out.value.count + |senders| == |merged.value| + inum)
  {
    var incast := Incast(senders, receiver, size, time);
    var idx, output, count := CopyUpTo(flows, time - tx);
    ghost var a := idx;
    idx, output, count := CopyOthersBefore(flows, idx, time, senders, output, count);
    ghost var b, before := idx, output;
    output := output + incast;
    count := count + inum;
    idx, output, count := CopyOthersUpTo(flows, idx, time + tx, senders, output, count);
    MergedParts(flows, flowNum, time, tx, senders, incast, a, b, idx, before, output);
    if idx == |flows| {
      return None;
    }
    out := CopyRest(flows, idx, flowNum, output, count);
  }

  // ----- What that means for sorted flows -----

  // Flows of senders that would meet the incast.
  predicate Meets(f: Flow, time: real, tx: real, senders: seq<nat>) {
    f.src in senders && time - tx < f.t <= time + tx
  }

  function Remaining(flows: seq<Flow>, time: real, tx: real, senders: seq<nat>): (r: seq<Flow>)
    ensures forall f :: f in r ==> f in flows
  {
    if flows == [] then []
    else
      var f := flows[|flows| - 1];
      Remaining(flows[..|flows| - 1], time, tx, senders) + if Meets(f, time, tx, senders) then [] else [f]
  }

  lemma {:induction false} RemainingJoins(a: seq<Flow>, b: seq<Flow>, time: real, tx: real, senders: seq<nat>)
    ensures Remaining(a + b, time, tx, senders) == Remaining(a, time, tx, senders) + Remaining(b, time, tx, senders)
  {
    if b == [] {
      assert a + b == a;
    } else {
      RemainingJoins(a, b[..|b| - 1], time, tx, senders);
      assert (a + b)[..|a + b| - 1] == a + b[..|b| - 1];
    }
  }

  lemma {:induction false} RemainingIsAll(flows: seq<Flow>, time: real, tx: real, senders: seq<nat>)
    requires forall f :: f in flows ==> !Meets(f, time, tx, senders)
    ensures Remaining(flows, time, tx, senders) == flows
  {
    if flows != [] {
      var rest := flows[..|flows| - 1];
      assert flows == rest + [flows[|flows| - 1]];
      assert flows[|flows| - 1] in flows && forall f :: f in rest ==> f in flows;
      RemainingIsAll(rest, time, tx, senders);
    }
  }

  lemma {:induction false} RemainingIsOfOthers(flows: seq<Flow>, time: real, tx: real, senders: seq<nat>)
    requires forall f :: f in flows ==> time - tx < f.t <= time + tx
    ensures Remaining(flows, time, tx, senders) == OfOthers(flows, senders)
  {
    if flows != [] {
      var rest := flows[..|flows| - 1];
      assert flows == rest + [flows[|flows| - 1]];
      assert flows[|flows| - 1] in flows && forall f :: f in rest ==> f in flows;
      RemainingIsOfOthers(rest, time, tx, senders);
    }
  }

  lemma {:induction false} RemainingInOrder(flows: seq<Flow>, time: real, tx: real, senders: seq<nat>)
    requires InOrder(flows)
    ensures InOrder(Remaining(flows, time, tx, senders))
  {
    if flows != [] {
      var f, rest := flows[|flows| - 1], flows[..|flows| - 1];
      RemainingInOrder(rest, time, tx, senders);
      assert forall g :: g in rest ==> g.t <= f.t;
    }
  }

  // Where the incast goes.
  function Place(flows: seq<Flow>, time: real, tx: real): (b: nat)
    ensures b <= |flows|
  {
    FirstFrom(flows, FirstAfter(flows, 0, time - tx), time)
  }

  // The flows with an incast at position b.
  function WithIncast(flows: seq<Flow>, b: nat, time: real, tx: real, senders: seq<nat>, incast: seq<Flow>): seq<Flow>
    requires b <= |flows|
  {
    Remaining(flows[..b], time, tx, senders) + incast + Remaining(flows[b..], time, tx, senders)
  }

  lemma FivePieces(p: seq<Flow>, q: seq<Flow>, r: seq<Flow>, s: seq<Flow>, t: seq<Flow>)
    ensures Five(p, q, r, s, t) == p + q + r + (s + t)
  {
  }

  lemma MergedIs(flows: seq<Flow>, time: real, tx: real, senders: seq<nat>, incast: seq<Flow>)
    requires InOrder(flows) && tx >= 0.0
    requires FirstAfter(flows, Place(flows, time, tx), time + tx) < |flows|
    ensures Merged(flows, |flows|, time, tx, senders, incast)
            == Some(WithIncast(flows, Place(flows, time, tx), time, tx, senders, incast))
  {
    var a, b := FirstAfter(flows, 0, time - tx), Place(flows, time, tx);
    var c := FirstAfter(flows, b, time + tx);
    BeforeRemains(flows, a, b, time, tx, senders);
    AfterRemains(flows, b, c, time, tx, senders);
    FivePieces(flows[..a], OfOthers(flows[a..b], senders), incast, OfOthers(flows[b..c], senders), flows[c..]);
  }

  lemma AllThenOthers(p: seq<Flow>, q: seq<Flow>, time: real, tx: real, senders: seq<nat>)
    requires forall f :: f in p ==> !Meets(f, time, tx, senders)
    requires forall f :: f in q ==> time - tx < f.t <= time + tx
    ensures Remaining(p + q, time, tx, senders) == p + OfOthers(q, senders)
    ensures Remaining(q + p, time, tx, senders) == OfOthers(q, senders) + p
  {
    RemainingIsAll(p, time, tx, senders);
    RemainingIsOfOthers(q, time, tx, senders);
    RemainingJoins(p, q, time, tx, senders);
    RemainingJoins(q, p, time, tx, senders);
  }

  // Of the flows before the incast, those up to a are too early to meet it, and those from a on would.
  lemma BeforeRemains(flows: seq<Flow>, a: nat, b: nat, time: real, tx: real, senders: seq<nat>)
    requires InOrder(flows) && tx >= 0.0 && a == FirstAfter(flows, 0, time - tx) && b == FirstFrom(flows, a, time)
    ensures Remaining(flows[..b], time, tx, senders) == flows[..a] + OfOthers(flows[a..b], senders)
  {
    assert flows[..b] == flows[..a] + flows[a..b];
    AllThenOthers(flows[..a], flows[a..b], time, tx, senders);
  }

  // Of the flows after it, those up to c would meet it, and those from c on are too late.
  lemma AfterRemains(flows: seq<Flow>, b: nat, c: nat, time: real, tx: real, senders: seq<nat>)
    requires InOrder(flows) && tx >= 0.0 && b == Place(flows, time, tx) && c == FirstAfter(flows, b, time + tx)
    ensures Remaining(flows[b..], time, tx, senders) == OfOthers(flows[b..c], senders) + flows[c..]
  {
    MeetersAfter(flows, b, c, time, tx);
    assert flows[b..] == flows[b..c] + flows[c..];
    AllThenOthers(flows[c..], flows[b..c], time, tx, senders);
  }

  lemma MeetersAfter(flows: seq<Flow>, b: nat, c: nat, time: real, tx: real)
    requires InOrder(flows) && tx >= 0.0 && b == Place(flows, time, tx) && c == FirstAfter(flows, b, time + tx)
    ensures forall f :: f in flows[b..c] ==> time - tx < f.t <= time + tx
    ensures forall f :: f in flows[c..] ==> f.t > time + tx
  {
    var a := FirstAfter(flows, 0, time - tx);
    forall f | f in flows[b..c]
      ensures time - tx < f.t <= time + tx
    {
      var j :| b <= j < c && flows[j] == f;
      assert flows[a].t <= flows[j].t;
    }
    forall f | f in flows[c..]
      ensures f.t > time + tx
    {
      var j :| c <= j < |flows| && flows[j] == f;
      assert flows[c].t <= flows[j].t;
    }
  }

  lemma MergedInOrder(flows: seq<Flow>, b: nat, time: real, tx: real, senders: seq<nat>, incast: seq<Flow>)
    requires InOrder(flows) && b <= |flows| && forall f :: f in incast ==> f.t == time
    requires (forall f :: f in flows[..b] ==> f.t <= time) && (forall f :: f in flows[b..] ==> time <= f.t)
    ensures InOrder(WithIncast(flows, b, time, tx, senders, incast))
  {
    var before, after := Remaining(flows[..b], time, tx, senders), Remaining(flows[b..], time, tx, senders);
    RemainingInOrder(flows[..b], time, tx, senders);
    RemainingInOrder(flows[b..], time, tx, senders);
  }

  /** For sorted flows and a header that counts them: the program ends properly exactly when some flow starts
      after the incast is over; then it takes out just the senders' flows that would meet the incast, puts one
      flow per sender in between, and the result is sorted. */
  lemma MergeSorted(flows: seq<Flow>, time: real, tx: real, senders: seq<nat>, receiver: nat, size: int)
    requires InOrder(flows) && tx >= 0.0
    ensures var incast, b := Incast(senders, receiver, size, time), Place(flows, time, tx);
            var merged := Merged(flows, |flows|, time, tx, senders, incast);
            && (merged.Some? <==> exists f :: f in flows && f.t > time + tx)
            && (merged.Some? ==>
                  merged.value == WithIncast(flows, b, time, tx, senders, incast) && InOrder(merged.value))
  {
    var incast, b := Incast(senders, receiver, size, time), Place(flows, time, tx);
    if FirstAfter(flows, b, time + tx) < |flows| {
      MergedIs(flows, time, tx, senders, incast);
      MergedInOrder(flows, b, time, tx, senders, incast);
    }
  }

  // A file whose flows all start before the incast is over is not completed.
  lemma LateIncastFails(receiver: nat, size: int)
    ensures InOrder([Flow(0, 1, 3, 200, 1000, 2.0)])
    ensures Merged([Flow(0, 1, 3, 200, 1000, 2.0)], 1, 3.0, 0.5, [2], Incast([2], receiver, size, 3.0)) == None
  {
    var flows := [Flow(0, 1, 3, 200, 1000, 2.0)];
    MergeSorted(flows, 3.0, 0.5, [2], receiver, size);
  }
}
