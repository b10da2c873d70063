/** Dependency sorting: `topsort`, `topsort_levels` and `topsort_levels_core` of topsort.py. */
module Topsort {
  import opened Common
  import Cycles

  type Item = Cycles.Item

  datatype Pair = Pair(parent: Item, child: Item)

  // The outcome of topsort: the sorted list, or the three arguments of its CycleError.
  datatype SortResult =
    | Sorted(answer: seq<Item>)
    | CycleError(answer: seq<Item>, numParents: map<Item, int>, children: map<Item, seq<Item>>)

  // The levels yielded so far and, when the generator ends in a CycleError, its two arguments.
  datatype LevelsEnd =
    | Stop
    | LevelsError(numParents: map<Item, int>, children: map<Item, seq<Item>>)

  // ----- The dependency relation -----

  function Elements(pairs: seq<Pair>): (s: set<Item>) {
    (set p | p in pairs :: p.parent) + (set p | p in pairs :: p.child)
  }

  // A chain is a nonempty list of items, each a parent of the next.
  ghost predicate Chain(pairs: seq<Pair>, w: seq<Item>) {
    && |w| > 0
    && forall i :: 0 <= i < |w| - 1 ==> Pair(w[i], w[i + 1]) in pairs
  }

  ghost predicate OnCycle(pairs: seq<Pair>, x: Item) {
    exists w :: Chain(pairs, w) && |w| > 1 && w[0] == x && w[|w| - 1] == x
  }

  ghost predicate Acyclic(pairs: seq<Pair>) {
    forall x :: !OnCycle(pairs, x)
  }

  // x lies on a cycle or is reachable from one.
  ghost predicate Tainted(pairs: seq<Pair>, x: Item) {
    exists w :: Chain(pairs, w) && w[|w| - 1] == x && OnCycle(pairs, w[0])
  }

  // ----- Counting parents -----

  // The children of p, once per pair, in the order of the pairs.
  ghost function ChildrenOf(pairs: seq<Pair>, p: Item): seq<Item> {
    if pairs == [] then []
    else ChildrenOf(pairs[..|pairs| - 1], p)
         + if pairs[|pairs| - 1].parent == p then [pairs[|pairs| - 1].child] else []
  }

  // The number of pairs that give c a parent in s.
  ghost function ParentCount(pairs: seq<Pair>, s: set<Item>, c: Item): nat {
    if pairs == [] then 0
    else ParentCount(pairs[..|pairs| - 1], s, c)
         + if pairs[|pairs| - 1].parent in s && pairs[|pairs| - 1].child == c then 1 else 0
  }

  lemma {:induction false} ParentCountZero(pairs: seq<Pair>, s: set<Item>, c: Item)
    ensures ParentCount(pairs, s, c) == 0 <==> forall p :: p in s ==> Pair(p, c) !in pairs
  {
    if pairs != [] {
      var last := pairs[|pairs| - 1];
      ParentCountZero(pairs[..|pairs| - 1], s, c);
      assert pairs == pairs[..|pairs| - 1] + [last];
    }
  }

  // Taking p out of s costs c one parent for each of its occurrences among the children of p.
  lemma {:induction false} ParentCountWithout(pairs: seq<Pair>, s: set<Item>, p: Item, c: Item)
    requires p in s
    ensures ParentCount(pairs, s, c) == ParentCount(pairs, s - {p}, c) + multiset(ChildrenOf(pairs, p))[c]
  {
    if pairs != [] {
      ParentCountWithout(pairs[..|pairs| - 1], s, p, c);
    }
  }

  lemma {:induction false} ChildrenOfMembers(pairs: seq<Pair>, p: Item)
    ensures forall c :: c in ChildrenOf(pairs, p) <==> Pair(p, c) in pairs
  {
    if pairs != [] {
      ChildrenOfMembers(pairs[..|pairs| - 1], p);
      assert pairs == pairs[..|pairs| - 1] + [pairs[|pairs| - 1]];
    }
  }

  // ----- Cycles and what they leave -----

  lemma {:induction false} LongListRepeats(w: seq<Item>, s: set<Item>)
    requires forall x :: x in w ==> x in s
    requires |w| > |s|
    ensures exists i, j :: 0 <= i < j < |w| && w[i] == w[j]
  {
    var last := w[|w| - 1];
    var init := w[..|w| - 1];
    if last !in init {
      assert forall x :: x in init ==> x in s - {last};
      LongListRepeats(init, s - {last});
    }
  }

  ghost predicate HasParentIn(pairs: seq<Pair>, s: set<Item>, y: Item) {
    exists p :: p in s && Pair(p, y) in pairs
  }

  ghost predicate AllParented(pairs: seq<Pair>, s: set<Item>) {
    forall y {:trigger HasParentIn(pairs, s, y)} :: y in s ==> HasParentIn(pairs, s, y)
  }

  // Where everything has a parent, one can walk back as far as one likes.
  lemma {:induction false} WalkBack(pairs: seq<Pair>, s: set<Item>, x: Item, n: nat) returns (w: seq<Item>)
    requires x in s && AllParented(pairs, s)
    ensures Chain(pairs, w) && |w| == n + 1 && w[n] == x
    ensures forall y :: y in w ==> y in s
    decreases n
  {
    if n == 0 {
      w := [x];
    } else {
      assert HasParentIn(pairs, s, x);
      var p :| p in s && Pair(p, x) in pairs;
      var v := WalkBack(pairs, s, p, n - 1);
      w := v + [x];
    }
  }

  lemma RepeatIsTainted(pairs: seq<Pair>, w: seq<Item>, i: nat, j: nat)
    requires Chain(pairs, w) && i < j < |w| && w[i] == w[j]
    ensures Tainted(pairs, w[|w| - 1])
  {
    var loop := w[i..j + 1];
    assert Chain(pairs, loop) && |loop| > 1 && loop[0] == w[i] && loop[|loop| - 1] == w[i];
    var tail := w[i..];
    assert Chain(pairs, tail) && tail[0] == w[i] && tail[|tail| - 1] == w[|w| - 1];
  }

  lemma ParentedIsTainted(pairs: seq<Pair>, s: set<Item>)
    requires AllParented(pairs, s)
    ensures forall x :: x in s ==> Tainted(pairs, x)
  {
    forall x | x in s
      ensures Tainted(pairs, x)
    {
      var w := WalkBack(pairs, s, x, |s|);
      LongListRepeats(w, s);
      var i, j :| 0 <= i < j < |w| && w[i] == w[j];
      RepeatIsTainted(pairs, w, i, j);
    }
  }

  // Every parent of every listed item is listed before it.
  ghost predicate ParentsFirst(pairs: seq<Pair>, answer: seq<Item>) {
    forall j, p :: 0 <= j < |answer| && Pair(p, answer[j]) in pairs ==> p in answer[..j]
  }

  lemma {:induction false} ChainClimbs(pairs: seq<Pair>, answer: seq<Item>, w: seq<Item>, j: nat) returns (i: nat)
    requires ParentsFirst(pairs, answer) && Chain(pairs, w) && j < |answer| && answer[j] == w[|w| - 1]
    ensures i < |answer| && answer[i] == w[0] && i + |w| - 1 <= j
    decreases |w|
  {
    if |w| == 1 {
      i := j;
    } else {
      assert Pair(w[|w| - 2], answer[j]) in pairs;
      var k :| 0 <= k < j && answer[k] == w[|w| - 2];
      i := ChainClimbs(pairs, answer, w[..|w| - 1], k);
    }
  }

  lemma ListedIsUntainted(pairs: seq<Pair>, answer: seq<Item>)
    requires ParentsFirst(pairs, answer) && Distinct(answer)
    ensures forall x :: x in answer ==> !Tainted(pairs, x)
  {
    forall x | x in answer && Tainted(pairs, x)
      ensures false
    {
      var w :| Chain(pairs, w) && w[|w| - 1] == x && OnCycle(pairs, w[0]);
      var j :| 0 <= j < |answer| && answer[j] == x;
      var i := ChainClimbs(pairs, answer, w, j);
      var loop :| Chain(pairs, loop) && |loop| > 1 && loop[0] == w[0] && loop[|loop| - 1] == w[0];
      var k := ChainClimbs(pairs, answer, loop, i);
    }
  }

  lemma OnCycleIsTainted(pairs: seq<Pair>, x: Item)
    requires OnCycle(pairs, x)
    ensures Tainted(pairs, x) && x in Elements(pairs)
  {
    assert Chain(pairs, [x]) && [x][0] == x;
    var w :| Chain(pairs, w) && |w| > 1 && w[0] == x && w[|w| - 1] == x;
    assert Pair(w[0], w[1]) in pairs;
  }

  // ----- The two tables -----

  // numParents counts, for each of the keys, the pairs that give it a parent among the keys.
  ghost predicate CountsFor(pairs: seq<Pair>, numParents: map<Item, int>, keys: set<Item>) {
    && numParents.Keys == keys
    && forall c :: c in keys ==> numParents[c] == ParentCount(pairs, keys, c)
  }

  // children lists the children of each of the keys; a key without an entry has no children.
  ghost predicate ListsFor(pairs: seq<Pair>, children: map<Item, seq<Item>>, keys: set<Item>) {
    && children.Keys <= keys
    && forall p :: p in keys ==> List(children, p) == ChildrenOf(pairs, p)
  }

  ghost function Count(numParents: map<Item, int>, c: Item): int {
    if c in numParents then numParents[c] else 0
  }

  ghost function List(children: map<Item, seq<Item>>, p: Item): seq<Item> {
    if p in children then children[p] else []
  }

  // The tables after the loop has read some of the pairs; all is the set of items of the whole list.
  ghost predicate CountTable(pairs: seq<Pair>, all: set<Item>, numParents: map<Item, int>) {
    && numParents.Keys == Elements(pairs)
    && forall c {:trigger Count(numParents, c)} :: Count(numParents, c) == ParentCount(pairs, all, c)
  }

  ghost predicate ListTable(pairs: seq<Pair>, children: map<Item, seq<Item>>) {
    && children.Keys <= Elements(pairs)
    && forall p {:trigger List(children, p)} :: List(children, p) == ChildrenOf(pairs, p)
  }

  lemma CountPair(pairs: seq<Pair>, pair: Pair, all: set<Item>, numParents: map<Item, int>, numParents': map<Item, int>)
    requires CountTable(pairs, all, numParents) && pair.parent in all
    requires numParents'.Keys == numParents.Keys + {pair.parent, pair.child}
    requires forall c :: Count(numParents', c) == Count(numParents, c) + if c == pair.child then 1 else 0
    ensures CountTable(pairs + [pair], all, numParents')
  {
    var more := pairs + [pair];
    assert more[..|more| - 1] == pairs && more[|more| - 1] == pair;
    forall c
      ensures Count(numParents', c) == ParentCount(more, all, c)
    {
      assert Count(numParents, c) == ParentCount(pairs, all, c);
    }
  }

  lemma ListPair(pairs: seq<Pair>, pair: Pair, children: map<Item, seq<Item>>, children': map<Item, seq<Item>>)
    requires ListTable(pairs, children)
    requires children' == children[pair.parent := List(children, pair.parent) + [pair.child]]
    ensures ListTable(pairs + [pair], children')
  {
    var more := pairs + [pair];
    assert more[..|more| - 1] == pairs && more[|more| - 1] == pair;
    forall p
      ensures List(children', p) == ChildrenOf(more, p)
    {
      assert List(children, p) == ChildrenOf(pairs, p);
    }
  }

  lemma TablesStep(pairs: seq<Pair>, i: nat, numParents: map<Item, int>, children: map<Item, seq<Item>>,
                   numParents': map<Item, int>, children': map<Item, seq<Item>>)
    requires i < |pairs|
    requires CountTable(pairs[..i], Elements(pairs), numParents) && ListTable(pairs[..i], children)
    requires numParents'.Keys == numParents.Keys + {pairs[i].parent, pairs[i].child}
    requires forall c :: Count(numParents', c) == Count(numParents, c) + if c == pairs[i].child then 1 else 0
    requires children' == children[pairs[i].parent := List(children, pairs[i].parent) + [pairs[i].child]]
    ensures CountTable(pairs[..i + 1], Elements(pairs), numParents') && ListTable(pairs[..i + 1], children')
  {
    assert pairs[..i + 1] == pairs[..i] + [pairs[i]];
    assert pairs[i] in pairs;
    assert CountTable(pairs[..i + 1], Elements(pairs), numParents') by {
      CountPair(pairs[..i], pairs[i], Elements(pairs), numParents, numParents');
    }
    assert ListTable(pairs[..i + 1], children') by {
      ListPair(pairs[..i], pairs[i], children, children');
    }
  }

  lemma TablesComplete(pairs: seq<Pair>, numParents: map<Item, int>, children: map<Item, seq<Item>>)
    requires CountTable(pairs, Elements(pairs), numParents) && ListTable(pairs, children)
    ensures CountsFor(pairs, numParents, Elements(pairs)) && ListsFor(pairs, children, Elements(pairs))
  {
    assert forall c :: c in numParents.Keys ==> Count(numParents, c) == numParents[c];
    assert forall p :: p in Elements(pairs) ==> List(children, p) == ChildrenOf(pairs, p);
  }

  method RecordPair(pair: Pair, numParents: map<Item, int>, children: map<Item, seq<Item>>)
    returns (numParents': map<Item, int>, children': map<Item, seq<Item>>)
    ensures numParents'.Keys == numParents.Keys + {pair.parent, pair.child}
    ensures forall c :: Count(numParents', c) == Count(numParents, c) + if c == pair.child then 1 else 0
    ensures children' == children[pair.parent := List(children, pair.parent) + [pair.child]]
  {
    var Pair(parent, child) := pair;
    numParents', children' := numParents, children;
    if parent !in numParents' {
      numParents' := numParents'[parent := 0];
    }
    if child !in numParents' {
      numParents' := numParents'[child := 0];
    }
    numParents' := numParents'[child := numParents'[child] + 1];
    if parent !in children' {
      children' := children'[parent := []];
    }
    children' := children'[parent := children'[parent] + [child]];
  }

  // The loop with which topsort and topsort_levels both begin.
  method BuildTables(pairs: seq<Pair>) returns (numParents: map<Item, int>, children: map<Item, seq<Item>>)
    ensures CountsFor(pairs, numParents, Elements(pairs))
    ensures ListsFor(pairs, children, Elements(pairs))
  {
    numParents, children := map[], map[];
    ghost var all := Elements(pairs);
    for i := 0 to |pairs|
      invariant CountTable(pairs[..i], all, numParents) && ListTable(pairs[..i], children)
    {
      ghost var before, lists := numParents, children;
      numParents, children := RecordPair(pairs[i], numParents, children);
      TablesStep(pairs, i, before, lists, numParents, children);
    }
    assert pairs[..|pairs|] == pairs;
    TablesComplete(pairs, numParents, children);
  }

  // The keys with a zero count, in the order in which the dictionary iterates.
  method ZeroKeys(numParents: map<Item, int>) returns (zeros: seq<Item>)
    ensures Distinct(zeros)
    ensures forall x :: x in zeros <==> x in numParents && numParents[x] == 0
  {
    zeros := [];
    var rest := numParents.Keys;
    while rest != {}
      invariant rest <= numParents.Keys
      invariant Distinct(zeros)
      invariant forall x :: x in zeros <==> x in numParents.Keys - rest && numParents[x] == 0
    {
      var x :| x in rest;
      rest := rest - {x};
      if numParents[x] == 0 {
        zeros := zeros + [x];
      }
    }
  }

  // The counts while the children in rest are still to be knocked down.
  ghost predicate CountsPending(pairs: seq<Pair>, numParents: map<Item, int>, keys: set<Item>, rest: seq<Item>) {
    && numParents.Keys == keys
    && forall c :: c in keys ==> numParents[c] == ParentCount(pairs, keys, c) + multiset(rest)[c]
  }

  lemma TakeOut(pairs: seq<Pair>, numParents: map<Item, int>, keys: set<Item>, parent: Item)
    requires parent in keys && CountsFor(pairs, numParents, keys)
    ensures CountsPending(pairs, numParents - {parent}, keys - {parent}, ChildrenOf(pairs, parent))
  {
    forall c | c in keys - {parent}
      ensures numParents[c] == ParentCount(pairs, keys - {parent}, c) + multiset(ChildrenOf(pairs, parent))[c]
    {
      ParentCountWithout(pairs, keys, parent, c);
    }
  }

  lemma KnockDown(pairs: seq<Pair>, numParents: map<Item, int>, keys: set<Item>, child: Item, rest: seq<Item>)
    requires CountsPending(pairs, numParents, keys, [child] + rest) && child in keys
    ensures CountsPending(pairs, numParents[child := numParents[child] - 1], keys, rest)
    ensures numParents[child] > 0
  {
  }

  // The children of an item that has just been taken out lose a parent each time they are listed.
  // Those that have no parent left are collected in order.
  method ReleaseChildren(ghost pairs: seq<Pair>, list: seq<Item>, numParents: map<Item, int>)
    returns (numParents': map<Item, int>, released: seq<Item>)
    requires CountsPending(pairs, numParents, numParents.Keys, list)
    requires forall c :: c in list ==> c in numParents
    ensures CountsFor(pairs, numParents', numParents.Keys)
    ensures forall c :: c in numParents ==> numParents'[c] <= numParents[c]
    ensures Distinct(released)
    ensures forall c :: c in released <==> c in numParents && numParents[c] > 0 && numParents'[c] == 0
  {
    numParents', released := numParents, [];
    assert list[0..] == list;
    for k := 0 to |list|
      invariant CountsPending(pairs, numParents', numParents.Keys, list[k..])
      invariant forall c :: c in numParents ==> numParents'[c] <= numParents[c]
      invariant Distinct(released)
      invariant forall c :: c in released <==> c in numParents && numParents[c] > 0 && numParents'[c] == 0
    {
      var child := list[k];
      assert child in list;
      assert list[k..] == [child] + list[k + 1..];
      KnockDown(pairs, numParents', numParents.Keys, child, list[k + 1..]);
      numParents' := numParents'[child := numParents'[child] - 1];
      if numParents'[child] == 0 {
        released := released + [child];
      }
    }
  }

  // What holds of topsort's variables while answer[..i] has been taken out of the tables.
  ghost predicate SortInvariant(pairs: seq<Pair>, answer: seq<Item>, i: nat,
                                numParents: map<Item, int>, children: map<Item, seq<Item>>) {
    && i <= |answer|
    && Distinct(answer) && ParentsFirst(pairs, answer)
    && (forall x :: x in answer ==> x in Elements(pairs))
    && (forall x :: x in numParents <==> x in Elements(pairs) && x !in answer[..i])
    && CountsFor(pairs, numParents, numParents.Keys)
    && ListsFor(pairs, children, numParents.Keys)
    && (forall c :: c in numParents ==> (numParents[c] == 0 <==> c in answer[i..]))
  }

  lemma SortStart(pairs: seq<Pair>, answer: seq<Item>, numParents: map<Item, int>, children: map<Item, seq<Item>>)
    requires CountsFor(pairs, numParents, Elements(pairs)) && ListsFor(pairs, children, Elements(pairs))
    requires Distinct(answer) && forall x :: x in answer <==> x in numParents && numParents[x] == 0
    ensures SortInvariant(pairs, answer, 0, numParents, children)
  {
    assert answer[0..] == answer;
    forall j | 0 <= j < |answer|
      ensures forall p :: Pair(p, answer[j]) !in pairs
    {
      assert answer[j] in answer;
      ParentCountZero(pairs, Elements(pairs), answer[j]);
      assert forall p :: Pair(p, answer[j]) in pairs ==> p in Elements(pairs);
    }
  }

  // The next item is still in the tables, and so are all its children.
  lemma NextItem(pairs: seq<Pair>, answer: seq<Item>, i: nat, numParents: map<Item, int>,
                 children: map<Item, seq<Item>>)
    requires SortInvariant(pairs, answer, i, numParents, children) && i < |answer|
    ensures answer[i] in numParents && numParents[answer[i]] == 0
    ensures forall c :: Pair(answer[i], c) in pairs ==> c in numParents && c != answer[i] && numParents[c] > 0
  {
    var parent := answer[i];
    assert parent in answer && parent in answer[i..];
    assert forall j :: 0 <= j <= i ==> parent !in answer[..j];
    assert forall j :: 0 <= j <= i ==> Pair(parent, answer[j]) !in pairs;
    forall c | Pair(parent, c) in pairs
      ensures c in numParents && c != parent && numParents[c] > 0
    {
      assert c in Elements(pairs);
      ParentCountZero(pairs, numParents.Keys, c);
    }
  }

  lemma SortStep(pairs: seq<Pair>, answer: seq<Item>, i: nat, numParents: map<Item, int>,
                 children: map<Item, seq<Item>>, numParents': map<Item, int>, released: seq<Item>)
    requires SortInvariant(pairs, answer, i, numParents, children) && i < |answer|
    requires CountsFor(pairs, numParents', numParents.Keys - {answer[i]})
    requires Distinct(released)
    requires forall c :: c in released <==> c in numParents' && numParents[c] > 0 && numParents'[c] == 0
    requires forall c :: c in numParents' ==> numParents'[c] <= numParents[c]
    ensures SortInvariant(pairs, answer + released, i + 1, numParents', children - {answer[i]})
  {
    NextItem(pairs, answer, i, numParents, children);
    ReleasedAreNew(pairs, answer, i, numParents, children, released);
    KeysAfterStep(pairs, answer, i, numParents, children, released);
    ReleasedAreReady(pairs, answer, i, numParents'.Keys, released, numParents');
    ZerosAfterStep(answer, i, numParents, numParents', released);
    ListsWithout(pairs, children, numParents.Keys, answer[i]);
  }

  lemma KeysAfterStep(pairs: seq<Pair>, answer: seq<Item>, i: nat, numParents: map<Item, int>,
                      children: map<Item, seq<Item>>, released: seq<Item>)
    requires SortInvariant(pairs, answer, i, numParents, children) && i < |answer|
    ensures forall x :: x in numParents.Keys - {answer[i]}
                        <==> x in Elements(pairs) && x !in (answer + released)[..i + 1]
  {
    assert (answer + released)[..i + 1] == answer[..i] + [answer[i]];
  }

  lemma ZerosAfterStep(answer: seq<Item>, i: nat, numParents: map<Item, int>, numParents': map<Item, int>,
                       released: seq<Item>)
    requires i < |answer| && Distinct(answer)
    requires forall c :: c in numParents ==> numParents[c] >= 0 && (numParents[c] == 0 <==> c in answer[i..])
    requires numParents'.Keys == numParents.Keys - {answer[i]}
    requires forall c :: c in released <==> c in numParents' && numParents[c] > 0 && numParents'[c] == 0
    requires forall c :: c in numParents' ==> 0 <= numParents'[c] <= numParents[c]
    ensures forall c :: c in numParents' ==> (numParents'[c] == 0 <==> c in (answer + released)[i + 1..])
  {
    assert answer[i..] == [answer[i]] + answer[i + 1..];
    assert (answer + released)[i + 1..] == answer[i + 1..] + released;
  }

  lemma ListsWithout(pairs: seq<Pair>, children: map<Item, seq<Item>>, keys: set<Item>, parent: Item)
    requires ListsFor(pairs, children, keys)
    ensures ListsFor(pairs, children - {parent}, keys - {parent})
  {
    forall p | p in keys - {parent}
      ensures List(children - {parent}, p) == ChildrenOf(pairs, p)
    {
      assert List(children, p) == ChildrenOf(pairs, p);
    }
  }

  // Every parent of a released item is listed up to position i.
  lemma ReleasedAreReady(pairs: seq<Pair>, answer: seq<Item>, i: nat, keys: set<Item>, released: seq<Item>,
                         numParents': map<Item, int>)
    requires ParentsFirst(pairs, answer) && i < |answer|
    requires forall x :: x in keys <==> x in Elements(pairs) && x !in (answer + released)[..i + 1]
    requires CountsFor(pairs, numParents', keys)
    requires forall c :: c in released ==> c in keys && numParents'[c] == 0
    ensures ParentsFirst(pairs, answer + released)
  {
    var more := answer + released;
    forall j, p | 0 <= j < |more| && Pair(p, more[j]) in pairs
      ensures p in more[..j]
    {
      if j < |answer| {
        assert more[..j] == answer[..j];
      } else {
        assert more[j] in released;
        ParentCountZero(pairs, keys, more[j]);
        assert p in Elements(pairs);
        assert p in more[..i + 1];
      }
    }
  }

  lemma ReleasedAreNew(pairs: seq<Pair>, answer: seq<Item>, i: nat, numParents: map<Item, int>,
                       children: map<Item, seq<Item>>, released: seq<Item>)
    requires SortInvariant(pairs, answer, i, numParents, children)
    requires forall c :: c in released ==> c in numParents && numParents[c] > 0
    requires Distinct(released)
    ensures Distinct(answer + released)
    ensures forall x :: x in answer + released ==> x in Elements(pairs)
  {
    assert answer == answer[..i] + answer[i..];
    var more := answer + released;
    forall j, k | 0 <= j < k < |more|
      ensures more[j] != more[k]
    {
      if j < |answer| <= k {
        assert answer[j] in answer && released[k - |answer|] in released;
      }
    }
  }

  // Once everything listed has been taken out, what is left is what cycles taint.
  lemma SortEnd(pairs: seq<Pair>, answer: seq<Item>, numParents: map<Item, int>, children: map<Item, seq<Item>>)
    requires SortInvariant(pairs, answer, |answer|, numParents, children)
    ensures forall x :: x in numParents <==> x in Elements(pairs) && Tainted(pairs, x)
    ensures forall x :: x in answer <==> x in Elements(pairs) && !Tainted(pairs, x)
    ensures numParents == map[] <==> Acyclic(pairs)
  {
    assert answer[..|answer|] == answer;
    ListedIsUntainted(pairs, answer);
    LeftoverIsTainted(pairs, numParents);
    AcyclicIffUntainted(pairs);
    if numParents != map[] {
      assert exists x :: x in numParents.Keys;
    }
  }

  lemma LeftoverIsTainted(pairs: seq<Pair>, numParents: map<Item, int>)
    requires CountsFor(pairs, numParents, numParents.Keys) && forall c :: c in numParents ==> numParents[c] != 0
    ensures forall x :: x in numParents ==> Tainted(pairs, x)
  {
    forall x | x in numParents.Keys
      ensures HasParentIn(pairs, numParents.Keys, x)
    {
      ParentCountZero(pairs, numParents.Keys, x);
    }
    ParentedIsTainted(pairs, numParents.Keys);
  }

  lemma AcyclicIffUntainted(pairs: seq<Pair>)
    ensures Acyclic(pairs) <==> forall x :: x in Elements(pairs) ==> !Tainted(pairs, x)
  {
    if !Acyclic(pairs) {
      var x :| OnCycle(pairs, x);
      OnCycleIsTainted(pairs, x);
    }
  }

  // An item of the answer leaves the tables, and its children lose a parent.
  method RemoveParent(ghost pairs: seq<Pair>, numParents: map<Item, int>, children: map<Item, seq<Item>>, parent: Item)
    returns (numParents': map<Item, int>, released: seq<Item>)
    requires CountsFor(pairs, numParents, numParents.Keys) && ListsFor(pairs, children, numParents.Keys)
    requires parent in numParents
    requires forall c :: Pair(parent, c) in pairs ==> c in numParents && c != parent
    ensures CountsFor(pairs, numParents', numParents.Keys - {parent})
    ensures forall c :: c in numParents' ==> numParents'[c] <= numParents[c]
    ensures Distinct(released)
    ensures forall c :: c in released <==> c in numParents' && numParents[c] > 0 && numParents'[c] == 0
  {
    ChildrenOfMembers(pairs, parent);
    TakeOut(pairs, numParents, numParents.Keys, parent);
    assert List(children, parent) == ChildrenOf(pairs, parent);
    numParents', released := numParents - {parent}, [];
    if parent in children {
      numParents', released := ReleaseChildren(pairs, children[parent], numParents');
    }
  }

  /** The items with every parent before its child, or the error that a cycle causes. */
  method Topsort(pairs: seq<Pair>) returns (r: SortResult)
    ensures r.Sorted? <==> Acyclic(pairs)
    ensures Distinct(r.answer) && ParentsFirst(pairs, r.answer)
    ensures forall x :: x in r.answer <==> x in Elements(pairs) && !Tainted(pairs, x)
    ensures r.CycleError? ==> forall x :: x in r.numParents <==> x in Elements(pairs) && Tainted(pairs, x)
    ensures r.CycleError? ==> CountsFor(pairs, r.numParents, r.numParents.Keys)
    ensures r.CycleError? ==> ListsFor(pairs, r.children, r.numParents.Keys)
  {
    var numParents, children := BuildTables(pairs);
    var answer := ZeroKeys(numParents);
    SortStart(pairs, answer, numParents, children);
    var i := 0;
    while i < |answer|
      invariant SortInvariant(pairs, answer, i, numParents, children)
      decreases numParents.Keys
    {
      var parent := answer[i];
      NextItem(pairs, answer, i, numParents, children);
      ghost var before := numParents;
      var released;
      numParents, released := RemoveParent(pairs, numParents, children, parent);
      SortStep(pairs, answer, i, before, children, numParents, released);
      answer, children := answer + released, children - {parent};
      i := i + 1;
    }
    SortEnd(pairs, answer, numParents, children);
    if numParents != map[] {
      return CycleError(answer, numParents, children);
    }
    return Sorted(answer);
  }

  // ----- Levels -----

  // Some chain of n + 1 items ends at x.
  ghost predicate HasChain(pairs: seq<Pair>, x: Item, n: nat) {
    exists w :: Chain(pairs, w) && |w| == n + 1 && w[n] == x
  }

  // The longest chain of ancestors of x has exactly n items.
  ghost predicate AtDepth(pairs: seq<Pair>, x: Item, n: nat) {
    HasChain(pairs, x, n) && forall m :: m > n ==> !HasChain(pairs, x, m)
  }

  lemma HasChainStep(pairs: seq<Pair>, x: Item, n: nat)
    ensures HasChain(pairs, x, 0)
    ensures HasChain(pairs, x, n + 1) <==> exists p :: Pair(p, x) in pairs && HasChain(pairs, p, n)
  {
    assert Chain(pairs, [x]) && |[x]| == 1 && [x][0] == x;
    if HasChain(pairs, x, n + 1) {
      var w :| Chain(pairs, w) && |w| == n + 2 && w[n + 1] == x;
      var v := w[..n + 1];
      assert Chain(pairs, v) && |v| == n + 1 && v[n] == w[n];
      assert Pair(w[n], w[n + 1]) in pairs;
      assert HasChain(pairs, w[n], n);
    }
    if p :| Pair(p, x) in pairs && HasChain(pairs, p, n) {
      var v :| Chain(pairs, v) && |v| == n + 1 && v[n] == p;
      assert Chain(pairs, v + [x]) && |v + [x]| == n + 2 && (v + [x])[n + 1] == x;
    }
  }

  lemma HasChainShorter(pairs: seq<Pair>, x: Item, n: nat, m: nat)
    requires HasChain(pairs, x, n) && m <= n
    ensures HasChain(pairs, x, m)
  {
    var w :| Chain(pairs, w) && |w| == n + 1 && w[n] == x;
    var v := w[n - m..];
    assert Chain(pairs, v) && |v| == m + 1 && v[m] == x;
  }

  // An item whose parents all have shorter chains than n has no longer ones itself.
  lemma DepthIsExact(pairs: seq<Pair>, x: Item, n: nat)
    ensures AtDepth(pairs, x, n) <==> HasChain(pairs, x, n) && !HasChain(pairs, x, n + 1)
  {
    forall m | m > n && HasChain(pairs, x, m)
      ensures HasChain(pairs, x, n + 1)
    {
      HasChainShorter(pairs, x, m, n + 1);
    }
  }

  ghost function Flatten(levels: seq<seq<Item>>): seq<Item> {
    if levels == [] then [] else Flatten(levels[..|levels| - 1]) + levels[|levels| - 1]
  }

  // What is left after k levels: the items with a chain of k ancestors. Their counts are up to date.
  ghost predicate LevelInvariant(pairs: seq<Pair>, all: set<Item>, k: nat, numParents: map<Item, int>,
                                 children: map<Item, seq<Item>>) {
    && Elements(pairs) <= all
    && CountsFor(pairs, numParents, numParents.Keys) && ListsFor(pairs, children, numParents.Keys)
    && (forall x {:trigger x in numParents} {:trigger HasChain(pairs, x, k)} ::
          x in numParents <==> x in all && HasChain(pairs, x, k))
  }

  lemma LevelIsDepth(pairs: seq<Pair>, all: set<Item>, k: nat, numParents: map<Item, int>,
                     children: map<Item, seq<Item>>, x: Item)
    requires LevelInvariant(pairs, all, k, numParents, children) && x in numParents
    ensures numParents[x] == 0 <==> !HasChain(pairs, x, k + 1)
  {
    HasChainStep(pairs, x, k);
    ParentCountZero(pairs, numParents.Keys, x);
    if p :| Pair(p, x) in pairs && HasChain(pairs, p, k) {
      assert p in Elements(pairs);
    }
  }

  // The children of what is left are left too, and wait for a parent.
  lemma ChildrenWait(pairs: seq<Pair>, all: set<Item>, k: nat, numParents: map<Item, int>,
                     children: map<Item, seq<Item>>)
    requires LevelInvariant(pairs, all, k, numParents, children)
    ensures forall p, c :: p in numParents && Pair(p, c) in pairs ==> c in numParents && numParents[c] > 0
  {
    forall p, c | p in numParents && Pair(p, c) in pairs
      ensures c in numParents && numParents[c] > 0
    {
      HasChainStep(pairs, c, k);
      HasChainShorter(pairs, c, k + 1, k);
      assert c in Elements(pairs);
      ParentCountZero(pairs, numParents.Keys, c);
    }
  }

  // Take the items of one level out of the tables.
  method DiscountLevel(ghost pairs: seq<Pair>, level: seq<Item>, numParents: map<Item, int>,
                       children: map<Item, seq<Item>>)
    returns (numParents': map<Item, int>, children': map<Item, seq<Item>>)
    requires CountsFor(pairs, numParents, numParents.Keys) && ListsFor(pairs, children, numParents.Keys)
    requires Distinct(level) && forall x :: x in level ==> x in numParents && numParents[x] == 0
    requires forall p, c :: p in level && Pair(p, c) in pairs ==> c in numParents && numParents[c] > 0
    ensures CountsFor(pairs, numParents', numParents'.Keys) && ListsFor(pairs, children', numParents'.Keys)
    ensures forall x :: x in numParents' <==> x in numParents && x !in level
  {
    numParents', children' := numParents, children;
    for m := 0 to |level|
      invariant CountsFor(pairs, numParents', numParents'.Keys) && ListsFor(pairs, children', numParents'.Keys)
      invariant forall x :: x in numParents' <==> x in numParents && x !in level[..m]
    {
      var parent := level[m];
      assert level[..m + 1] == level[..m] + [parent];
      assert parent in level && parent !in level[..m];
      ListsWithout(pairs, children', numParents'.Keys, parent);
      numParents' := DiscountParent(pairs, parent, numParents', children');
      children' := children' - {parent};
    }
    assert level[..|level|] == level;
  }

  method DiscountParent(ghost pairs: seq<Pair>, parent: Item, numParents: map<Item, int>,
                        children: map<Item, seq<Item>>)
    returns (numParents': map<Item, int>)
    requires CountsFor(pairs, numParents, numParents.Keys) && ListsFor(pairs, children, numParents.Keys)
    requires parent in numParents
    requires forall c :: Pair(parent, c) in pairs ==> c in numParents && c != parent
    ensures CountsFor(pairs, numParents', numParents.Keys - {parent})
  {
    ChildrenOfMembers(pairs, parent);
    TakeOut(pairs, numParents, numParents.Keys, parent);
    assert List(children, parent) == ChildrenOf(pairs, parent);
    numParents' := numParents - {parent};
    if parent in children {
      numParents' := DiscountEach(pairs, numParents', children[parent]);
    }
  }

  // The loop over the children of the parent.
  method DiscountEach(ghost pairs: seq<Pair>, numParents: map<Item, int>, list: seq<Item>)
    returns (numParents': map<Item, int>)
    requires CountsPending(pairs, numParents, numParents.Keys, list)
    requires forall c :: c in list ==> c in numParents
    ensures CountsFor(pairs, numParents', numParents.Keys)
  {
    numParents' := numParents;
    assert list[0..] == list;
    for k := 0 to |list|
      invariant numParents'.Keys == numParents.Keys
      invariant CountsPending(pairs, numParents', numParents.Keys, list[k..])
    {
      assert list[k] in list;
      assert list[k..] == [list[k]] + list[k + 1..];
      KnockDown(pairs, numParents', numParents.Keys, list[k], list[k + 1..]);
      numParents' := numParents'[list[k] := numParents'[list[k]] - 1];
    }
  }

  // The levels yielded so far hold the items of depth 0, 1, 2, ... in order.
  ghost predicate LevelsByDepth(pairs: seq<Pair>, all: set<Item>, levels: seq<seq<Item>>) {
    forall j :: 0 <= j < |levels| ==> LevelOfDepth(pairs, all, levels[j], j)
  }

  ghost predicate LevelOfDepth(pairs: seq<Pair>, all: set<Item>, level: seq<Item>, j: nat) {
    level != [] && Distinct(level) && forall x :: x in level <==> x in all && AtDepth(pairs, x, j)
  }

  lemma NextLevel(pairs: seq<Pair>, all: set<Item>, k: nat, numParents: map<Item, int>, children: map<Item, seq<Item>>,
                  level: seq<Item>)
    requires LevelInvariant(pairs, all, k, numParents, children)
    requires level != [] && Distinct(level) && forall x :: x in level <==> x in numParents && numParents[x] == 0
    ensures LevelOfDepth(pairs, all, level, k)
    ensures forall x :: x in numParents && x !in level <==> x in all && HasChain(pairs, x, k + 1)
  {
    forall x
      ensures x in level <==> x in all && AtDepth(pairs, x, k)
      ensures x in numParents && x !in level <==> x in all && HasChain(pairs, x, k + 1)
    {
      DepthIsExact(pairs, x, k);
      if x in numParents {
        LevelIsDepth(pairs, all, k, numParents, children, x);
      } else if x in all && HasChain(pairs, x, k + 1) {
        HasChainShorter(pairs, x, k + 1, k);
      }
    }
  }

  // An item with no chain of b ancestors has a depth below b.
  lemma {:induction false} DepthExists(pairs: seq<Pair>, x: Item, b: nat) returns (d: nat)
    requires !HasChain(pairs, x, b)
    ensures d < b && AtDepth(pairs, x, d)
  {
    HasChainStep(pairs, x, 0);
    if HasChain(pairs, x, b - 1) {
      d := b - 1;
      DepthIsExact(pairs, x, d);
    } else {
      d := DepthExists(pairs, x, b - 1);
    }
  }

  lemma ParentIsShallower(pairs: seq<Pair>, p: Item, x: Item, j: nat) returns (d: nat)
    requires Pair(p, x) in pairs && AtDepth(pairs, x, j)
    ensures d < j && AtDepth(pairs, p, d)
  {
    HasChainStep(pairs, x, j);
    d := DepthExists(pairs, p, j);
  }

  lemma DepthIsUnique(pairs: seq<Pair>, x: Item, i: nat, j: nat)
    requires AtDepth(pairs, x, i) && AtDepth(pairs, x, j)
    ensures i == j
  {
  }

  // The concatenated levels list, without duplicates, the items of small depth, parents first.
  lemma {:induction false} FlattenByDepth(pairs: seq<Pair>, all: set<Item>, levels: seq<seq<Item>>)
    requires Elements(pairs) <= all && LevelsByDepth(pairs, all, levels)
    ensures ShallowItems(pairs, all, |levels|, Flatten(levels))
    ensures Distinct(Flatten(levels)) && ParentsFirst(pairs, Flatten(levels))
  {
    if levels != [] {
      var k := |levels| - 1;
      var init, last := levels[..k], levels[k];
      FlattenByDepth(pairs, all, init);
      assert LevelOfDepth(pairs, all, last, k);
      FlattenMembers(pairs, all, levels, Flatten(init));
      forall x | x in last
        ensures x !in Flatten(init) && forall p :: Pair(p, x) in pairs ==> p in Flatten(init)
      {
        DeepestIsNew(pairs, all, x, k, Flatten(init));
      }
      AppendLevel(pairs, Flatten(init), last);
    }
  }

  ghost predicate ShallowItems(pairs: seq<Pair>, all: set<Item>, k: nat, list: seq<Item>) {
    forall x :: x in list <==> x in all && ShallowerThan(pairs, x, k)
  }

  ghost predicate ShallowerThan(pairs: seq<Pair>, x: Item, k: nat) {
    exists j :: 0 <= j < k && AtDepth(pairs, x, j)
  }

  lemma FlattenMembers(pairs: seq<Pair>, all: set<Item>, levels: seq<seq<Item>>, list: seq<Item>)
    requires LevelsByDepth(pairs, all, levels) && |levels| > 0
    requires ShallowItems(pairs, all, |levels| - 1, list)
    ensures ShallowItems(pairs, all, |levels|, list + levels[|levels| - 1])
  {
    var k := |levels| - 1;
    assert LevelOfDepth(pairs, all, levels[k], k);
    forall x
      ensures ShallowerThan(pairs, x, k + 1) <==> ShallowerThan(pairs, x, k) || AtDepth(pairs, x, k)
    {
    }
  }

  lemma DeepestIsNew(pairs: seq<Pair>, all: set<Item>, x: Item, k: nat, list: seq<Item>)
    requires Elements(pairs) <= all && ShallowItems(pairs, all, k, list) && AtDepth(pairs, x, k)
    ensures x !in list && forall p :: Pair(p, x) in pairs ==> p in list
  {
    forall p | Pair(p, x) in pairs
      ensures p in list
    {
      var d := ParentIsShallower(pairs, p, x, k);
      assert p in Elements(pairs) && ShallowerThan(pairs, p, k);
    }
  }

  lemma AppendLevel(pairs: seq<Pair>, list: seq<Item>, level: seq<Item>)
    requires Distinct(list) && ParentsFirst(pairs, list) && Distinct(level)
    requires forall x :: x in level ==> x !in list && forall p :: Pair(p, x) in pairs ==> p in list
    ensures Distinct(list + level) && ParentsFirst(pairs, list + level)
  {
    var more := list + level;
    forall j, k | 0 <= j < k < |more|
      ensures more[j] != more[k]
    {
      if j < |list| <= k {
        assert list[j] in list && level[k - |list|] in level;
      }
    }
    forall j, p | 0 <= j < |more| && Pair(p, more[j]) in pairs
      ensures p in more[..j]
    {
      if j < |list| {
        assert more[..j] == list[..j];
      } else {
        assert more[j] in level;
        assert more[..j] == list + level[..j - |list|];
      }
    }
  }

  // When no item is left without a parent, the levels hold what no cycle taints.
  lemma LevelsEndHere(pairs: seq<Pair>, all: set<Item>, levels: seq<seq<Item>>, numParents: map<Item, int>,
                      children: map<Item, seq<Item>>)
    requires LevelInvariant(pairs, all, |levels|, numParents, children) && LevelsByDepth(pairs, all, levels)
    requires forall x :: x in numParents ==> numParents[x] != 0
    ensures forall x :: x in Flatten(levels) <==> x in all && !Tainted(pairs, x)
    ensures forall x :: x in numParents <==> x in all && Tainted(pairs, x)
    ensures numParents == map[] <==> Acyclic(pairs)
  {
    FlattenByDepth(pairs, all, levels);
    ListedIsUntainted(pairs, Flatten(levels));
    LeftoverIsTainted(pairs, numParents);
    forall x | x in all && x !in numParents
      ensures x in Flatten(levels)
    {
      assert !HasChain(pairs, x, |levels|);
      var d := DepthExists(pairs, x, |levels|);
      assert ShallowerThan(pairs, x, |levels|);
    }
    AcyclicIffUntainted(pairs);
    if numParents != map[] {
      var x :| x in numParents.Keys;
      var w :| Chain(pairs, w) && w[|w| - 1] == x && OnCycle(pairs, w[0]);
    }
  }

  lemma LevelStart(pairs: seq<Pair>, all: set<Item>, numParents: map<Item, int>, children: map<Item, seq<Item>>)
    requires Elements(pairs) <= all && numParents.Keys == all
    requires CountsFor(pairs, numParents, all) && ListsFor(pairs, children, all)
    ensures LevelInvariant(pairs, all, 0, numParents, children)
  {
    forall x
      ensures HasChain(pairs, x, 0)
    {
      HasChainStep(pairs, x, 0);
    }
  }

  lemma LevelStep(pairs: seq<Pair>, all: set<Item>, levels: seq<seq<Item>>, numParents: map<Item, int>,
                  children: map<Item, seq<Item>>, level: seq<Item>, numParents': map<Item, int>,
                  children': map<Item, seq<Item>>)
    requires LevelInvariant(pairs, all, |levels|, numParents, children) && LevelsByDepth(pairs, all, levels)
    requires level != [] && Distinct(level) && forall x :: x in level <==> x in numParents && numParents[x] == 0
    requires CountsFor(pairs, numParents', numParents'.Keys) && ListsFor(pairs, children', numParents'.Keys)
    requires forall x :: x in numParents' <==> x in numParents && x !in level
    ensures LevelInvariant(pairs, all, |levels| + 1, numParents', children')
    ensures LevelsByDepth(pairs, all, levels + [level])
    ensures numParents'.Keys < numParents.Keys
  {
    NextLevel(pairs, all, |levels|, numParents, children, level);
    FewerKeys(numParents, level, numParents');
    forall j | 0 <= j < |levels + [level]|
      ensures LevelOfDepth(pairs, all, (levels + [level])[j], j)
    {
    }
  }

  lemma FewerKeys(numParents: map<Item, int>, level: seq<Item>, numParents': map<Item, int>)
    requires level != [] && forall x :: x in level ==> x in numParents
    requires forall x :: x in numParents' <==> x in numParents && x !in level
    ensures numParents'.Keys < numParents.Keys
  {
    assert level[0] in level && level[0] in numParents.Keys && level[0] !in numParents'.Keys;
  }

  /** The levels in the order they are yielded, and how the generator ends. */
  method TopsortLevelsCore(ghost pairs: seq<Pair>, numParents0: map<Item, int>, children0: map<Item, seq<Item>>)
    returns (levels: seq<seq<Item>>, end: LevelsEnd)
    requires Elements(pairs) <= numParents0.Keys
    requires CountsFor(pairs, numParents0, numParents0.Keys) && ListsFor(pairs, children0, numParents0.Keys)
    ensures LevelsByDepth(pairs, numParents0.Keys, levels)
    ensures forall x :: x in Flatten(levels) <==> x in numParents0.Keys && !Tainted(pairs, x)
    ensures Distinct(Flatten(levels)) && ParentsFirst(pairs, Flatten(levels))
    ensures end.Stop? <==> Acyclic(pairs)
    ensures end.LevelsError? ==> forall x :: x in end.numParents <==> x in numParents0.Keys && Tainted(pairs, x)
    ensures end.LevelsError? ==> CountsFor(pairs, end.numParents, end.numParents.Keys)
    ensures end.LevelsError? ==> ListsFor(pairs, end.children, end.numParents.Keys)
  {
    var numParents, children := numParents0, children0;
    ghost var all := numParents0.Keys;
    levels := [];
    LevelStart(pairs, all, numParents, children);
    while true
      invariant LevelInvariant(pairs, all, |levels|, numParents, children)
      invariant LevelsByDepth(pairs, all, levels)
      decreases numParents.Keys
    {
      var level := ZeroKeys(numParents);
      if level == [] {
        LevelsEndHere(pairs, all, levels, numParents, children);
        FlattenByDepth(pairs, all, levels);
        break;
      }
      ghost var before, lists := numParents, children;
      ChildrenWait(pairs, all, |levels|, numParents, children);
      numParents, children := DiscountLevel(pairs, level, numParents, children);
      LevelStep(pairs, all, levels, before, lists, level, numParents, children);
      levels := levels + [level];
    }
    if numParents != map[] {
      return levels, LevelsError(numParents, children);
    }
    return levels, Stop;
  }

  method TopsortLevels(pairs: seq<Pair>) returns (levels: seq<seq<Item>>, end: LevelsEnd)
    ensures LevelsByDepth(pairs, Elements(pairs), levels)
    ensures forall x :: x in Flatten(levels) <==> x in Elements(pairs) && !Tainted(pairs, x)
    ensures Distinct(Flatten(levels)) && ParentsFirst(pairs, Flatten(levels))
    ensures end.Stop? <==> Acyclic(pairs)
    ensures end.LevelsError? ==> forall x :: x in end.numParents <==> x in Elements(pairs) && Tainted(pairs, x)
  {
    var numParents, children := BuildTables(pairs);
    levels, end := TopsortLevelsCore(pairs, numParents, children);
  }
}
