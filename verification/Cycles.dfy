/** The elementary cycles of a graph: find_cycles of topsort.py, and is_rotated of rad_util.py that it uses. */
module Cycles {
  import opened Common

  // The graph's nodes are hashable values of any kind; only equality is used on them.
  datatype Item = Item(name: string)

  // parent -> collection of children. A child need not be a key.
  type Graph = map<Item, seq<Item>>

  ghost predicate Edge(g: Graph, a: Item, b: Item) {
    a in g && b in g[a]
  }

  // A walk is a nonempty list of nodes, each a parent of the next.
  ghost predicate Walk(g: Graph, p: seq<Item>) {
    && |p| > 0
    && forall i :: 0 <= i < |p| - 1 ==> Edge(g, p[i], p[i + 1])
  }

  ghost predicate SimplePath(g: Graph, start: Item, p: seq<Item>) {
    Walk(g, p) && p[0] == start && Distinct(p)
  }

  // An elementary cycle repeats no node, and its last item is a parent of its first.
  ghost predicate ElementaryCycle(g: Graph, c: seq<Item>) {
    Walk(g, c) && Distinct(c) && Edge(g, c[|c| - 1], c[0])
  }

  ghost predicate Reaches(g: Graph, a: Item, b: Item) {
    exists w :: Walk(g, w) && w[0] == a && w[|w| - 1] == b
  }

  // ----- Rotations -----

  ghost predicate RotatedBy(a: seq<Item>, b: seq<Item>, k: nat) {
    k <= |a| && b == a[k..] + a[..k]
  }

  ghost predicate Rotated(a: seq<Item>, b: seq<Item>) {
    exists k :: RotatedBy(a, b, k)
  }

  lemma RotatedSymmetric(a: seq<Item>, b: seq<Item>)
    requires Rotated(a, b)
    ensures Rotated(b, a)
  {
    var k: nat :| RotatedBy(a, b, k);
    assert RotatedBy(b, a, |a| - k);
  }

  lemma RotatedTwice(a: seq<Item>, b: seq<Item>, c: seq<Item>, k: nat, m: nat)
    requires RotatedBy(a, b, k) && RotatedBy(b, c, m)
    ensures RotatedBy(a, c, if k + m <= |a| then k + m else k + m - |a|)
  {
    var n := |a| - k;
    if m <= n {
      assert b[m..] == a[k + m..] + a[..k];
      assert b[..m] == a[k..k + m];
      assert a[..k] + a[k..k + m] == a[..k + m];
      assert (a[k + m..] + a[..k]) + a[k..k + m] == a[k + m..] + (a[..k] + a[k..k + m]);
    } else {
      var r := m - n;
      assert b[m..] == a[r..k];
      assert b[..m] == a[k..] + a[..r];
      assert a[r..k] + a[k..] == a[r..];
      assert a[r..k] + (a[k..] + a[..r]) == (a[r..k] + a[k..]) + a[..r];
    }
  }

  lemma RotatedTransitive(a: seq<Item>, b: seq<Item>, c: seq<Item>)
    requires Rotated(a, b) && Rotated(b, c)
    ensures Rotated(a, c)
  {
    var k: nat :| RotatedBy(a, b, k);
    var m: nat :| RotatedBy(b, c, m);
    RotatedTwice(a, b, c, k, m);
  }

  lemma RotationStart(a: seq<Item>, b: seq<Item>)
    requires |b| > 0
    ensures Rotated(a, b) <==> exists k :: 0 <= k < |a| && a[k] == b[0] && RotatedBy(a, b, k)
  {
    if Rotated(a, b) {
      var k: nat :| RotatedBy(a, b, k);
      if k == |a| {
        assert RotatedBy(a, b, 0);
      }
    }
  }

  // The positions of x.
  method Positions(s: seq<Item>, x: Item) returns (indexes: seq<nat>)
    ensures forall k: nat :: k in indexes <==> k < |s| && s[k] == x
  {
    indexes := [];
    for index1 := 0 to |s|
      invariant forall k: nat :: k in indexes <==> k < index1 && s[k] == x
    {
      if s[index1] == x {
        indexes := indexes + [index1];
      }
    }
  }

  lemma SliceOfDouble(s: seq<Item>, k: nat)
    requires k <= |s|
    ensures (s + s)[k..k + |s|] == s[k..] + s[..k]
  {
  }

  // Two sequences of the same length n whose entries agree at every offset from a start index.
  method IsRotated(seq1: seq<Item>, seq2: seq<Item>) returns (b: bool)
    requires |seq1| == |seq2| ==> |seq2| > 0  // seq2[0] is read once the lengths agree
    ensures b <==> Rotated(seq1, seq2)
  {
    if |seq1| != |seq2| {
      return false;
    }
    var startIndexes := Positions(seq1, seq2[0]);
    var doubleSeq1 := seq1 + seq1;
    for i := 0 to |startIndexes|
      invariant forall j :: 0 <= j < i ==> !RotatedBy(seq1, seq2, startIndexes[j])
    {
      var s := startIndexes[i];
      assert s in startIndexes;
      SliceOfDouble(seq1, s);
      if doubleSeq1[s..s + |seq1|] == seq2 {
        assert RotatedBy(seq1, seq2, s);
        return true;
      }
    }
    RotationStart(seq1, seq2);
    return false;
  }

  // ----- The search -----

  // Some recorded cycle is a rotation of c.
  ghost predicate Represented(cycles: seq<seq<Item>>, c: seq<Item>) {
    exists o :: o in cycles && Rotated(o, c)
  }

  ghost predicate PairwiseUnrotated(cycles: seq<seq<Item>>) {
    forall i, j :: 0 <= i < j < |cycles| ==> !Rotated(cycles[i], cycles[j])
  }

  ghost predicate AllElementary(g: Graph, cycles: seq<seq<Item>>) {
    forall c :: c in cycles ==> ElementaryCycle(g, c)
  }

  // Every elementary cycle reachable from v is recorded.
  ghost predicate FoundFrom(g: Graph, cycles: seq<seq<Item>>, v: Item) {
    forall c :: ElementaryCycle(g, c) && Reaches(g, v, c[0]) ==> Represented(cycles, c)
  }

  lemma RepresentedGrows(g: Graph, cycles: seq<seq<Item>>, more: seq<seq<Item>>)
    requires cycles <= more
    ensures forall c :: Represented(cycles, c) ==> Represented(more, c)
    ensures forall v :: FoundFrom(g, cycles, v) ==> FoundFrom(g, more, v)
  {
    forall c | Represented(cycles, c)
      ensures Represented(more, c)
    {
      var o :| o in cycles && Rotated(o, c);
      assert o in more;
    }
  }

  // The cycles that the path p closes are recorded.
  ghost predicate Recorded(g: Graph, cycles: seq<seq<Item>>, p: seq<Item>) {
    forall i :: 0 <= i < |p| && Edge(g, p[|p| - 1], p[i]) ==> Represented(cycles, p[i..])
  }

  // A path of the stack is a prefix of p: p is still to be explored.
  ghost predicate Pending(stack: seq<seq<Item>>, p: seq<Item>) {
    exists q :: q in stack && q <= p
  }

  ghost predicate ExploredOrPending(g: Graph, cycles: seq<seq<Item>>, stack: seq<seq<Item>>, start: Item) {
    forall p :: SimplePath(g, start, p) ==> Recorded(g, cycles, p) || Pending(stack, p)
  }

  // Termination: the nodes of the graph, and the number of simple paths that extend a path.
  ghost function Nodes(g: Graph): set<Item> {
    g.Keys + set a, b | a in g.Keys && b in g[a] :: b
  }

  // Distance to the longest possible simple path.
  ghost function Slack(g: Graph, p: seq<Item>): nat {
    if |p| <= |Nodes(g)| then |Nodes(g)| - |p| else 0
  }

  // Number of paths in the search tree below p.
  ghost function Weight(g: Graph, p: seq<Item>): nat
    decreases Slack(g, p), 0
  {
    if |p| == 0 || p[|p| - 1] !in g || Slack(g, p) == 0 then 1
    else 1 + ChildrenWeight(g, p, g[p[|p| - 1]])
  }

  ghost function ChildrenWeight(g: Graph, p: seq<Item>, children: seq<Item>): nat
    requires Slack(g, p) > 0
    decreases Slack(g, p) - 1, |children| + 1
  {
    if children == [] then 0
    else (if children[0] in p then 0 else Weight(g, p + [children[0]])) + ChildrenWeight(g, p, children[1..])
  }

  ghost function StackWeight(g: Graph, stack: seq<seq<Item>>): nat {
    if stack == [] then 0 else StackWeight(g, stack[..|stack| - 1]) + Weight(g, stack[|stack| - 1])
  }

  // q is p with one more node, a child of its last node that p does not hold yet.
  ghost predicate Extends(g: Graph, p: seq<Item>, q: seq<Item>) {
    && |q| == |p| + 1
    && q[..|p|] == p
    && |p| > 0
    && Edge(g, p[|p| - 1], q[|p|])
    && q[|p|] !in p
  }

  lemma PathInNodes(g: Graph, p: seq<Item>)
    requires Walk(g, p) && p[|p| - 1] in g
    ensures forall x :: x in p ==> x in Nodes(g)
  {
    forall i | 0 <= i < |p|
      ensures p[i] in Nodes(g)
    {
      if i < |p| - 1 {
        assert Edge(g, p[i], p[i + 1]);
      }
    }
  }

  lemma RoomForChild(g: Graph, p: seq<Item>, child: Item)
    requires Walk(g, p) && Distinct(p) && Edge(g, p[|p| - 1], child) && child !in p
    ensures Slack(g, p) > 0
    ensures Slack(g, p + [child]) == Slack(g, p) - 1
  {
    PathInNodes(g, p);
    DistinctCard(p, Nodes(g));
    assert p[|p| - 1] in g && child in g[p[|p| - 1]];
  }

  method AddCycle(ghost g: Graph, cycles: seq<seq<Item>>, cycle: seq<Item>) returns (cycles': seq<seq<Item>>)
    requires AllElementary(g, cycles) && PairwiseUnrotated(cycles) && ElementaryCycle(g, cycle)
    ensures cycles <= cycles'
    ensures AllElementary(g, cycles') && PairwiseUnrotated(cycles')
    ensures Represented(cycles', cycle)
  {
    for i := 0 to |cycles|
      invariant forall j :: 0 <= j < i ==> !Rotated(cycles[j], cycle)
    {
      var isDup := IsRotated(cycles[i], cycle);
      if isDup {
        return cycles;
      }
    }
    cycles' := cycles + [cycle];
    assert RotatedBy(cycle, cycle, 0);
    assert cycle in cycles';
  }

  method IndexOf(path: seq<Item>, child: Item) returns (i: nat)
    requires child in path
    ensures i < |path| && path[i] == child && child !in path[..i]
  {
    i := 0;
    while path[i] != child
      invariant i < |path| && child !in path[..i]
      decreases |path| - i
    {
      i := i + 1;
    }
  }

  // The child has closed a cycle, or its path has been pushed.
  ghost predicate ChildVisited(g: Graph, path: seq<Item>, child: Item, stack: seq<seq<Item>>, cycles: seq<seq<Item>>,
                               visited: set<Item>, stack': seq<seq<Item>>, cycles': seq<seq<Item>>, visited': set<Item>)
    requires |path| > 0
  {
    && cycles <= cycles' && AllElementary(g, cycles') && PairwiseUnrotated(cycles')
    && (forall i :: 0 <= i < |path| && path[i] == child ==> Represented(cycles', path[i..]))
    && if child in path then stack' == stack && visited' == visited
       else stack' == stack + [path + [child]] && visited' == visited + {child}
            && Slack(g, path) > 0 && Extends(g, path, path + [child])
            && StackWeight(g, stack') == StackWeight(g, stack) + Weight(g, path + [child])
  }

  // One child of the last node of the path.
  method VisitChild(ghost g: Graph, path: seq<Item>, child: Item, stack: seq<seq<Item>>, cycles: seq<seq<Item>>,
                    visited: set<Item>)
    returns (stack': seq<seq<Item>>, cycles': seq<seq<Item>>, visited': set<Item>)
    requires Walk(g, path) && Distinct(path) && Edge(g, path[|path| - 1], child)
    requires AllElementary(g, cycles) && PairwiseUnrotated(cycles)
    ensures ChildVisited(g, path, child, stack, cycles, visited, stack', cycles', visited')
  {
    stack', cycles', visited' := stack, cycles, visited;
    if child in path {
      var i := IndexOf(path, child);
      cycles' := AddCycle(g, cycles, path[i..]);
    } else {
      RoomForChild(g, path, child);
      stack' := stack + [path + [child]];
      assert stack'[..|stack'| - 1] == stack;
      visited' := visited + {child};
    }
  }

  // What is left to push below path, after the children before rest.
  ghost predicate Budget(g: Graph, path: seq<Item>, stack: seq<seq<Item>>, stack': seq<seq<Item>>, rest: seq<Item>)
    requires |path| > 0 && path[|path| - 1] in g
  {
    if Slack(g, path) == 0 then StackWeight(g, stack') == StackWeight(g, stack)
    else StackWeight(g, stack') + ChildrenWeight(g, path, rest)
         == StackWeight(g, stack) + ChildrenWeight(g, path, g[path[|path| - 1]])
  }

  // The first k children of the last node of path, which has been taken off stack, are done.
  ghost predicate Expanding(g: Graph, path: seq<Item>, stack: seq<seq<Item>>, visited: set<Item>, k: nat,
                            stack': seq<seq<Item>>, cycles: seq<seq<Item>>, visited': set<Item>)
    requires |path| > 0 && path[|path| - 1] in g && k <= |g[path[|path| - 1]]|
  {
    var children := g[path[|path| - 1]];
    && AllElementary(g, cycles) && PairwiseUnrotated(cycles)
    && (forall i :: 0 <= i < |path| && path[i] in children[..k] ==> Represented(cycles, path[i..]))
    && Pushed(g, path, stack, children[..k], stack')
    && Budget(g, path, stack, stack', children[k..])
    && (forall v :: v in visited' ==> v in visited || v in children)
  }

  // What is on the stack when the children in done are done.
  ghost predicate Pushed(g: Graph, path: seq<Item>, stack: seq<seq<Item>>, done: seq<Item>, stack': seq<seq<Item>>) {
    && (forall q :: q in stack ==> q in stack')
    && (forall q :: q in stack' && q !in stack ==> Extends(g, path, q))
    && (forall c :: c in done && c !in path ==> path + [c] in stack')
  }

  lemma PushedOneMore(g: Graph, path: seq<Item>, stack: seq<seq<Item>>, done: seq<Item>, child: Item,
                      stack1: seq<seq<Item>>, stack2: seq<seq<Item>>)
    requires Pushed(g, path, stack, done, stack1)
    requires if child in path then stack2 == stack1
             else stack2 == stack1 + [path + [child]] && Extends(g, path, path + [child])
    ensures Pushed(g, path, stack, done + [child], stack2)
  {
    assert child !in path ==> stack2[|stack1|] == path + [child];
  }

  lemma ExpandOneMore(g: Graph, path: seq<Item>, stack: seq<seq<Item>>, visited: set<Item>, k: nat,
                      stack1: seq<seq<Item>>, cycles1: seq<seq<Item>>, visited1: set<Item>,
                      stack2: seq<seq<Item>>, cycles2: seq<seq<Item>>, visited2: set<Item>)
    requires |path| > 0 && path[|path| - 1] in g && k < |g[path[|path| - 1]]|
    requires Expanding(g, path, stack, visited, k, stack1, cycles1, visited1)
    requires ChildVisited(g, path, g[path[|path| - 1]][k], stack1, cycles1, visited1, stack2, cycles2, visited2)
    ensures Expanding(g, path, stack, visited, k + 1, stack2, cycles2, visited2)
  {
    var children := g[path[|path| - 1]];
    assert children[..k + 1] == children[..k] + [children[k]];
    assert children[k..][1..] == children[k + 1..];
    RepresentedGrows(g, cycles1, cycles2);
    PushedOneMore(g, path, stack, children[..k], children[k], stack1, stack2);
  }

  // One pass over the children of the last node of a path taken off the stack.
  method ExpandPath(g: Graph, path: seq<Item>, stack: seq<seq<Item>>, cycles: seq<seq<Item>>, visited: set<Item>)
    returns (stack': seq<seq<Item>>, cycles': seq<seq<Item>>, visited': set<Item>)
    requires Walk(g, path) && Distinct(path) && path[|path| - 1] in g
    requires AllElementary(g, cycles) && PairwiseUnrotated(cycles)
    ensures cycles <= cycles' && AllElementary(g, cycles') && PairwiseUnrotated(cycles')
    ensures Recorded(g, cycles', path)
    ensures forall q :: q in stack ==> q in stack'
    ensures forall q :: q in stack' && q !in stack ==> Extends(g, path, q)
    ensures forall q :: Extends(g, path, q) ==> q in stack'
    ensures StackWeight(g, stack') < StackWeight(g, stack) + Weight(g, path)
    ensures forall v :: v in visited' ==> v in visited || Edge(g, path[|path| - 1], v)
  {
    stack', cycles', visited' := stack, cycles, visited;
    var children := g[path[|path| - 1]];
    assert children[0..] == children;
    for k := 0 to |children|
      invariant cycles <= cycles' && Expanding(g, path, stack, visited, k, stack', cycles', visited')
    {
      ghost var stack1, cycles1, visited1 := stack', cycles', visited';
      stack', cycles', visited' := VisitChild(g, path, children[k], stack', cycles', visited');
      ExpandOneMore(g, path, stack, visited, k, stack1, cycles1, visited1, stack', cycles', visited');
    }
    AllExpanded(g, path, stack, visited, stack', cycles', visited');
  }

  lemma AllExpanded(g: Graph, path: seq<Item>, stack: seq<seq<Item>>, visited: set<Item>,
                    stack': seq<seq<Item>>, cycles: seq<seq<Item>>, visited': set<Item>)
    requires |path| > 0 && path[|path| - 1] in g
    requires Expanding(g, path, stack, visited, |g[path[|path| - 1]]|, stack', cycles, visited')
    ensures Recorded(g, cycles, path)
    ensures forall q :: Extends(g, path, q) ==> q in stack'
    ensures StackWeight(g, stack') < StackWeight(g, stack) + Weight(g, path)
    ensures forall v :: v in visited' ==> v in visited || Edge(g, path[|path| - 1], v)
  {
    var children := g[path[|path| - 1]];
    assert children[..|children|] == children;
    forall q | Extends(g, path, q)
      ensures q in stack'
    {
      assert q == path + [q[|path|]];
    }
  }

  // ----- A simple path to a cycle, continued round it, is a simple path that closes it -----

  // From a walk that ends on the cycle, a simple path that meets it in its last node only.
  lemma {:induction false} ApproachCycle(g: Graph, w: seq<Item>, c: seq<Item>) returns (p: seq<Item>)
    requires Walk(g, w) && w[|w| - 1] in c
    ensures SimplePath(g, w[0], p) && p[|p| - 1] in c
    ensures forall i :: 0 <= i < |p| - 1 ==> p[i] !in c
    decreases |w|
  {
    if i :| 0 <= i < |w| - 1 && w[i] in c {
      p := ApproachCycle(g, w[..i + 1], c);
    } else if i, j :| 0 <= i < j < |w| && w[i] == w[j] {
      var w' := w[..i] + w[j..];
      assert Walk(g, w') by {
        forall k | 0 <= k < |w'| - 1
          ensures Edge(g, w'[k], w'[k + 1])
        {
          if k < i - 1 || k >= i {
            var k0 := if k < i - 1 then k else k - i + j;
            assert Edge(g, w[k0], w[k0 + 1]);
          } else {
            assert Edge(g, w[k], w[k + 1]);
          }
        }
      }
      assert w'[|w'| - 1] == w[|w| - 1];
      p := ApproachCycle(g, w', c);
    } else {
      p := w;
    }
  }

  lemma CloseCycle(g: Graph, start: Item, p: seq<Item>, c: seq<Item>)
    requires SimplePath(g, start, p) && forall i :: 0 <= i < |p| - 1 ==> p[i] !in c
    requires ElementaryCycle(g, c) && p[|p| - 1] == c[0]
    ensures SimplePath(g, start, p + c[1..])
    ensures (p + c[1..])[|p| - 1..] == c
    ensures Edge(g, (p + c[1..])[|p| + |c| - 2], c[0])
  {
    var q := p + c[1..];
    assert q[|p| + |c| - 2] == c[|c| - 1];
    forall i | 0 <= i < |q| - 1
      ensures Edge(g, q[i], q[i + 1])
    {
      if i >= |p| - 1 {
        assert Edge(g, c[i - |p| + 1], c[i - |p| + 2]);
      }
    }
    forall i, j | 0 <= i < j < |q|
      ensures q[i] != q[j]
    {
      if i < |p| - 1 && j >= |p| {
        assert c[j - |p| + 1] in c;
      }
    }
  }

  // Where entry i of a rotation was.
  function Origin(c: seq<Item>, k: nat, i: nat): (j: nat)
    requires k < |c| && i < |c|
    ensures j < |c|
  {
    if i < |c| - k then k + i else k + i - |c|
  }

  lemma RotationAt(c: seq<Item>, k: nat, r: seq<Item>)
    requires k < |c| && r == c[k..] + c[..k]
    ensures |r| == |c| && forall i {:trigger r[i]} :: 0 <= i < |c| ==> r[i] == c[Origin(c, k, i)]
    ensures forall x :: x in r <==> x in c
  {
    assert c == c[..k] + c[k..];
  }

  lemma RotationIsDistinct(c: seq<Item>, k: nat, r: seq<Item>)
    requires k < |c| && r == c[k..] + c[..k] && Distinct(c)
    ensures Distinct(r)
  {
    RotationAt(c, k, r);
    forall i, j | 0 <= i < j < |r|
      ensures r[i] != r[j]
    {
      assert Origin(c, k, i) != Origin(c, k, j);
    }
  }

  // A cycle may be started at any of its nodes.
  lemma RotationIsCycle(g: Graph, c: seq<Item>, k: nat, r: seq<Item>)
    requires k < |c| && r == c[k..] + c[..k] && ElementaryCycle(g, c)
    ensures ElementaryCycle(g, r)
  {
    RotationAt(c, k, r);
    RotationIsDistinct(c, k, r);
    forall i | 0 <= i < |c|
      ensures Edge(g, r[i], r[if i + 1 < |c| then i + 1 else 0])
    {
      var j := Origin(c, k, i);
      assert j < |c| - 1 ==> Edge(g, c[j], c[j + 1]);
    }
  }

  lemma ClosingPath(g: Graph, w: seq<Item>, c: seq<Item>) returns (q: seq<Item>, i: nat, k: nat)
    requires Walk(g, w) && ElementaryCycle(g, c) && w[|w| - 1] == c[0]
    ensures SimplePath(g, w[0], q) && i < |q| && Edge(g, q[|q| - 1], q[i])
    ensures RotatedBy(c, q[i..], k)
  {
    var p := ApproachCycle(g, w, c);
    k :| 0 <= k < |c| && c[k] == p[|p| - 1];
    var r := c[k..] + c[..k];
    RotationAt(c, k, r);
    RotationIsCycle(g, c, k, r);
    CloseCycle(g, w[0], p, r);
    q, i := p + r[1..], |p| - 1;
  }

  // If every simple path from start is explored, every cycle reachable from start is recorded.
  lemma ExploredFindsCycles(g: Graph, cycles: seq<seq<Item>>, start: Item)
    requires forall p :: SimplePath(g, start, p) ==> Recorded(g, cycles, p)
    ensures FoundFrom(g, cycles, start)
  {
    forall c | ElementaryCycle(g, c) && Reaches(g, start, c[0])
      ensures Represented(cycles, c)
    {
      var w :| Walk(g, w) && w[0] == start && w[|w| - 1] == c[0];
      var q, i, k := ClosingPath(g, w, c);
      var c' := q[i..];
      assert Recorded(g, cycles, q);
      var o :| o in cycles && Rotated(o, c');
      RotatedSymmetric(c, c');
      RotatedTransitive(o, c', c);
    }
  }

  lemma FoundFromReached(g: Graph, cycles: seq<seq<Item>>, a: Item, b: Item)
    requires FoundFrom(g, cycles, a) && Reaches(g, a, b)
    ensures FoundFrom(g, cycles, b)
  {
    forall c | ElementaryCycle(g, c) && Reaches(g, b, c[0])
      ensures Represented(cycles, c)
    {
      var u :| Walk(g, u) && u[0] == a && u[|u| - 1] == b;
      var v :| Walk(g, v) && v[0] == b && v[|v| - 1] == c[0];
      var w := u + v[1..];
      assert Walk(g, w) by {
        forall i | 0 <= i < |w| - 1
          ensures Edge(g, w[i], w[i + 1])
        {
          if i >= |u| - 1 {
            assert Edge(g, v[i - |u| + 1], v[i - |u| + 2]);
          }
        }
      }
      assert w[0] == a && w[|w| - 1] == c[0];
      assert Reaches(g, a, c[0]);
    }
  }

  // ----- The generator -----

  // Taking path off the stack keeps every unexplored simple path pending.
  lemma ExpandKeepsExploration(g: Graph, start: Item, path: seq<Item>, stack: seq<seq<Item>>,
                               stack': seq<seq<Item>>, cycles: seq<seq<Item>>, cycles': seq<seq<Item>>)
    requires ExploredOrPending(g, cycles, stack + [path], start)
    requires cycles <= cycles' && Recorded(g, cycles', path)
    requires forall q :: q in stack ==> q in stack'
    requires forall q :: Extends(g, path, q) ==> q in stack'
    requires |path| > 0
    ensures ExploredOrPending(g, cycles', stack', start)
  {
    RepresentedGrows(g, cycles, cycles');
    forall p | SimplePath(g, start, p)
      ensures Recorded(g, cycles', p) || Pending(stack', p)
    {
      if !Recorded(g, cycles, p) {
        var q :| q in stack + [path] && q <= p;
        if q == path && |path| < |p| {
          assert Edge(g, p[|path| - 1], p[|path|]);
          assert Extends(g, path, p[..|path| + 1]);
        } else if q == path {
          assert p == path;
        } else {
          assert q in stack';
        }
      }
    }
  }

  lemma ExtensionsAreSimple(g: Graph, start: Item, path: seq<Item>)
    requires SimplePath(g, start, path)
    ensures forall q :: Extends(g, path, q) ==> SimplePath(g, start, q)
  {
    forall q | Extends(g, path, q)
      ensures SimplePath(g, start, q)
    {
      assert q == path + [q[|path|]];
    }
  }

  lemma WalkReaches(g: Graph, start: Item, path: seq<Item>)
    requires Walk(g, path) && path[0] == start
    ensures forall v :: Edge(g, path[|path| - 1], v) ==> Reaches(g, start, v)
  {
    forall v | Edge(g, path[|path| - 1], v)
      ensures Reaches(g, start, v)
    {
      var w := path + [v];
      assert Walk(g, w) && w[0] == start && w[|w| - 1] == v;
    }
  }

  // Between two rounds of the inner loop.
  ghost predicate Exploring(g: Graph, start: Item, paths: seq<seq<Item>>, cycles: seq<seq<Item>>,
                            cycles': seq<seq<Item>>, visited: set<Item>, visited': set<Item>) {
    && cycles <= cycles' && AllElementary(g, cycles') && PairwiseUnrotated(cycles')
    && (forall q :: q in paths ==> SimplePath(g, start, q))
    && ExploredOrPending(g, cycles', paths, start)
    && (forall v :: v in visited' ==> v in visited || Reaches(g, start, v))
  }

  lemma ExplorationStarts(g: Graph, start: Item, cycles: seq<seq<Item>>, visited: set<Item>)
    requires AllElementary(g, cycles) && PairwiseUnrotated(cycles)
    ensures Exploring(g, start, [[start]], cycles, cycles, visited, visited)
  {
    var paths := [[start]];
    assert paths[0] in paths;
    assert forall p :: SimplePath(g, start, p) ==> paths[0] <= p;
    assert forall p :: SimplePath(g, start, p) ==> Pending(paths, p);
  }

  // The top of the stack is taken off and, if it has children, expanded.
  method ExploreTop(g: Graph, ghost start: Item, paths: seq<seq<Item>>, ghost cycles: seq<seq<Item>>,
                    cycles': seq<seq<Item>>, ghost visited: set<Item>, visited': set<Item>)
    returns (paths'': seq<seq<Item>>, cycles'': seq<seq<Item>>, visited'': set<Item>)
    requires Exploring(g, start, paths, cycles, cycles', visited, visited') && paths != []
    ensures Exploring(g, start, paths'', cycles, cycles'', visited, visited'')
    ensures StackWeight(g, paths'') < StackWeight(g, paths)
  {
    var path := paths[|paths| - 1];
    paths'', cycles'', visited'' := paths[..|paths| - 1], cycles', visited';
    assert paths == paths'' + [path] && path in paths;
    ghost var rest := paths'';
    if path[|path| - 1] in g {
      paths'', cycles'', visited'' := ExpandPath(g, path, paths'', cycles', visited');
      ExtensionsAreSimple(g, start, path);
      WalkReaches(g, start, path);
    }
    ExpandKeepsExploration(g, start, path, rest, paths'', cycles', cycles'');
  }

  // The body of the outer loop for one start node.
  method ExploreFrom(g: Graph, start: Item, cycles: seq<seq<Item>>, visited: set<Item>)
    returns (cycles': seq<seq<Item>>, visited': set<Item>)
    requires AllElementary(g, cycles) && PairwiseUnrotated(cycles)
    ensures cycles <= cycles' && AllElementary(g, cycles') && PairwiseUnrotated(cycles')
    ensures FoundFrom(g, cycles', start)
    ensures forall v :: v in visited' ==> v in visited || Reaches(g, start, v)
  {
    cycles', visited' := cycles, visited;
    var paths := [[start]];
    ExplorationStarts(g, start, cycles, visited);
    while paths != []
      invariant Exploring(g, start, paths, cycles, cycles', visited, visited')
      decreases StackWeight(g, paths)
    {
      paths, cycles', visited' := ExploreTop(g, start, paths, cycles, cycles', visited, visited');
    }
    ExploredFindsCycles(g, cycles', start);
  }

  // Every node of a cycle has a child, so it is a key.
  lemma AllKeysSuffice(g: Graph, cycles: seq<seq<Item>>)
    requires forall v :: v in g.Keys ==> FoundFrom(g, cycles, v)
    ensures forall c :: ElementaryCycle(g, c) ==> exists i :: 0 <= i < |cycles| && Rotated(cycles[i], c)
  {
    forall c | ElementaryCycle(g, c)
      ensures exists i :: 0 <= i < |cycles| && Rotated(cycles[i], c)
    {
      assert c[0] in g.Keys by {
        if |c| > 1 { assert Edge(g, c[0], c[1]); }
      }
      assert [c[0]][0] == c[0];
      assert Walk(g, [c[0]]);
      assert Reaches(g, c[0], c[0]);
      assert Represented(cycles, c);
      var o :| o in cycles && Rotated(o, c);
    }
  }

  // The keys of a dictionary, in whatever order it iterates over them.
  method KeyList(g: Graph) returns (keys: seq<Item>)
    ensures forall k :: k in keys <==> k in g.Keys
  {
    keys := [];
    var rest := g.Keys;
    while rest != {}
      invariant forall k :: k in g.Keys <==> k in keys || k in rest
    {
      var k :| k in rest;
      rest := rest - {k};
      keys := keys + [k];
    }
  }

  /** The cycles in the order they are yielded. */
  method FindCycles(g: Graph) returns (cycles: seq<seq<Item>>)
    ensures forall c :: c in cycles ==> ElementaryCycle(g, c)
    ensures forall c :: ElementaryCycle(g, c) ==> exists i :: 0 <= i < |cycles| && Rotated(cycles[i], c)
    ensures forall i, j :: 0 <= i < j < |cycles| ==> !Rotated(cycles[i], cycles[j])
  {
    cycles := [];
    var visited: set<Item> := {};
    var keys := KeyList(g);
    for i := 0 to |keys|
      invariant AllElementary(g, cycles) && PairwiseUnrotated(cycles)
      invariant forall v :: v in visited ==> FoundFrom(g, cycles, v)
      invariant forall j :: 0 <= j < i ==> FoundFrom(g, cycles, keys[j])
    {
      var parent := keys[i];
      if parent in visited {
        continue;
      }
      ghost var before, seen := cycles, visited;
      cycles, visited := ExploreFrom(g, parent, cycles, visited);
      RepresentedGrows(g, before, cycles);
      forall v | v in visited && v !in seen
        ensures FoundFrom(g, cycles, v)
      {
        FoundFromReached(g, cycles, parent, v);
      }
    }
    AllKeysSuffice(g, cycles);
  }

  // With the postconditions of FindCycles: each elementary cycle has exactly one entry in the list.
  lemma OneEntryPerCycle(cycles: seq<seq<Item>>, c: seq<Item>, i: nat, j: nat)
    requires forall i, j :: 0 <= i < j < |cycles| ==> !Rotated(cycles[i], cycles[j])
    requires i < |cycles| && j < |cycles| && Rotated(cycles[i], c) && Rotated(cycles[j], c)
    ensures i == j
  {
    RotatedSymmetric(cycles[i], c);
    RotatedSymmetric(cycles[j], c);
    RotatedTransitive(cycles[i], c, cycles[j]);
    RotatedTransitive(cycles[j], c, cycles[i]);
  }
}
