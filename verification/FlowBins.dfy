/** The bins that traffic_gen/flow_bins.py chooses for a distribution of flow sizes. */
module FlowBins {
  import opened Common
  import opened Cdf

  // int, which truncates toward zero.
  function Int(r: real): int {
    if r >= 0.0 then r.Floor else -(-r).Floor
  }

  // The size at a percentile.
  function SizeAt(cdf: seq<Point>, y: real): (x: int)
    requires Accepted(cdf) && InPercentiles(y)
  {
    ValueInSegment(cdf, y);
    Int(Value(cdf, y).value)
  }

  lemma SizeKeepsOrder(cdf: seq<Point>, y: real, z: real)
    requires Accepted(cdf) && 0.0 <= y <= z <= 100.0
    ensures SizeAt(cdf, y) <= SizeAt(cdf, z)
  {
    ValueInSegment(cdf, y);
    if y < z {
      ValueIsIncreasing(cdf, y, z);
    }
  }

  ghost predicate Decreasing(bins: seq<int>) {
    forall i, j :: 0 <= i < j < |bins| ==> bins[i] > bins[j]
  }

  // Above 1000, the next smaller size is at least half as large.
  ghost predicate Halving(bins: seq<int>) {
    forall i :: 0 < i < |bins| && bins[i - 1] > 1000 ==> bins[i] >= bins[i - 1] / 2
  }

  function Min(y: real, z: real): real {
    if y <= z then y else z
  }

  // Within one percentile above y there is a bin.
  ghost predicate Covered(cdf: seq<Point>, bins: seq<int>, y: real)
    requires Accepted(cdf)
  {
    InPercentiles(y) ==> exists b :: b in bins && SizeAt(cdf, y) <= b <= SizeAt(cdf, Min(y + 1.0, 100.0))
  }

  // What the bins are for: sizes of the distribution, from its largest down, with no wide gap between
  // neighbours, and one for every percentile that has a positive size.
  ghost predicate Bins(cdf: seq<Point>, bins: seq<int>)
    requires Accepted(cdf)
  {
    && Decreasing(bins) && Halving(bins)
    && (forall b :: b in bins ==> b > 0 && exists y :: 1.0 <= y <= 100.0 && SizeAt(cdf, y) == b)
    && (forall y :: 1.0 <= y <= 100.0 && SizeAt(cdf, y) > 0 ==> Covered(cdf, bins, y))
    && (SizeAt(cdf, 100.0) > 0 ==> |bins| > 0 && bins[0] == SizeAt(cdf, 100.0))
  }

  // Before a round of the loop: percentiles above p are done.
  ghost predicate Binning(cdf: seq<Point>, bins: seq<int>, x: int, p: real)
    requires Accepted(cdf)
  {
    && 1.0 <= p <= 100.0 && x == SizeAt(cdf, p)
    && Decreasing(bins) && Halving(bins)
    && (forall b :: b in bins ==> x <= b && b > 0 && exists y :: 1.0 <= y <= 100.0 && SizeAt(cdf, y) == b)
    && (|bins| > 0 && bins[|bins| - 1] > 1000 ==> x >= bins[|bins| - 1] / 2)
    && (forall y :: p < y <= 100.0 ==> Covered(cdf, bins, y))
    && (bins == [] ==> p == 100.0)
    && (bins != [] ==> bins[0] == SizeAt(cdf, 100.0))
  }

  function Record(bins: seq<int>, x: int): (r: seq<int>)
    ensures r != [] && r[|r| - 1] == x
  {
    if |bins| == 0 || x != bins[|bins| - 1] then bins + [x] else bins
  }

  lemma CoveredGrows(cdf: seq<Point>, bins: seq<int>, more: seq<int>, y: real)
    requires Accepted(cdf) && Covered(cdf, bins, y) && forall b :: b in bins ==> b in more
    ensures Covered(cdf, more, y)
  {
  }

  lemma RecordKeepsShape(bins: seq<int>, x: int)
    requires Decreasing(bins) && Halving(bins) && forall b :: b in bins ==> x <= b
    requires |bins| > 0 && bins[|bins| - 1] > 1000 ==> x >= bins[|bins| - 1] / 2
    ensures Decreasing(Record(bins, x)) && Halving(Record(bins, x))
  {
    var r := Record(bins, x);
    if r != bins {
      forall i | 0 <= i < |bins|
        ensures bins[i] > x
      {
        assert bins[i] in bins;
        if i < |bins| - 1 {
          assert bins[|bins| - 1] in bins && bins[i] > bins[|bins| - 1];
        }
      }
    }
  }

  lemma RecordKeepsBinning(cdf: seq<Point>, bins: seq<int>, x: int, p: real)
    requires Accepted(cdf) && Binning(cdf, bins, x, p) && x > 0
    ensures Binning(cdf, Record(bins, x), x, p)
  {
    var r := Record(bins, x);
    RecordKeepsShape(bins, x);
    assert forall b :: b in r ==> b in bins || b == x;
    forall y | p < y <= 100.0
      ensures Covered(cdf, r, y)
    {
      CoveredGrows(cdf, bins, r, y);
    }
  }

  // A step down to a percentile that is at most one below.
  lemma StepKeepsBinning(cdf: seq<Point>, bins: seq<int>, x: int, p: real, x': int, p': real)
    requires Accepted(cdf) && Binning(cdf, bins, x, p) && x > 0
    requires bins != [] && bins[|bins| - 1] == x
    requires 1.0 <= p' < p <= p' + 1.0 && x' == SizeAt(cdf, p') && (x > 1000 ==> x' >= x / 2)
    ensures Binning(cdf, bins, x', p') && x' <= x
  {
    SizeKeepsOrder(cdf, p', p);
    forall y | p' < y <= 100.0
      ensures Covered(cdf, bins, y)
    {
      if y <= p {
        SizeKeepsOrder(cdf, y, p);
        SizeKeepsOrder(cdf, p, Min(y + 1.0, 100.0));
        assert x in bins;
      }
    }
  }

  // Where the size at p' falls below n, the percentile of n lies between p' and p.
  lemma PercentileBetween(cdf: seq<Point>, n: int, p: real, p': real)
    requires Accepted(cdf) && 0.0 <= p' < p <= 100.0 && SizeAt(cdf, p') < n < SizeAt(cdf, p) && n > 0
    ensures Percentile(cdf, n as real).Some?
    ensures var y := Percentile(cdf, n as real).value;
            p' < y < p && InPercentiles(y) && SizeAt(cdf, y) == n
  {
    var v := n as real;
    ValueInSegment(cdf, p);
    ValueInSegment(cdf, p');
    assert v <= Value(cdf, p).value;
    ValueOfPercentile(cdf, v);
    var y := Percentile(cdf, v).value;
    assert SizeAt(cdf, y) == n;
    if y >= p {
      SizeKeepsOrder(cdf, p, y);
    } else if y <= p' {
      SizeKeepsOrder(cdf, y, p');
    }
  }

  lemma BinningEnds(cdf: seq<Point>, bins: seq<int>, x: int, p: real)
    requires Accepted(cdf) && Binning(cdf, bins, x, p) && (x <= 0 || (p <= 1.0 && x in bins))
    ensures Bins(cdf, bins)
  {
    forall y | 1.0 <= y <= 100.0 && SizeAt(cdf, y) > 0
      ensures Covered(cdf, bins, y)
    {
      if y <= p {
        SizeKeepsOrder(cdf, y, p);
        SizeKeepsOrder(cdf, y, Min(y + 1.0, 100.0));
      }
    }
  }

  // Measures p where x does not shrink: p falls by one, or to 1.
  function Rank(p: real): int {
    if p > 1.0 then p.Floor + 1 else 0
  }

  // The percentile that a round tries first; none ends the loop.
  function StepDown(p: real): Option<real> {
    if p > 2.0 then Some(p - 1.0) else if p > 1.0 then Some(1.0) else None
  }

  // What a round makes of size x at percentile p: the size one percentile down, or at 1; but above 1000, if that is
  // less than half of x, half of x, at the percentile where it stands.
  ghost predicate NextRound(cdf: seq<Point>, x: int, p: real, x': int, p': real)
    requires Accepted(cdf)
  {
    && 1.0 < p <= 100.0 && 1.0 <= p' < p
    && var p1 := if p > 2.0 then p - 1.0 else 1.0;
       if x > 1000 && SizeAt(cdf, p1) < x / 2
       then x' == x / 2 && Percentile(cdf, x' as real) == Some(p')
       else p' == p1 && x' == SizeAt(cdf, p1)
  }

  // Rounds from percentile 100 down.
  ghost predicate Rounds(cdf: seq<Point>, xs: seq<int>, ps: seq<real>)
    requires Accepted(cdf)
  {
    && |xs| == |ps| > 0 && ps[0] == 100.0 && xs[0] == SizeAt(cdf, 100.0)
    && forall k, j :: 0 <= k < |xs| - 1 && j == k + 1 ==> xs[k] > 0 && NextRound(cdf, xs[k], ps[k], xs[j], ps[j])
  }

  // They go on until a size is not positive or percentile 1 is done.
  ghost predicate AllRounds(cdf: seq<Point>, xs: seq<int>, ps: seq<real>)
    requires Accepted(cdf)
  {
    Rounds(cdf, xs, ps) && (xs[|xs| - 1] <= 0 || ps[|ps| - 1] <= 1.0)
  }

  lemma RoundsGoOn(cdf: seq<Point>, xs: seq<int>, ps: seq<real>, x: int, p: real)
    requires Accepted(cdf) && Rounds(cdf, xs, ps) && xs[|xs| - 1] > 0
    requires NextRound(cdf, xs[|xs| - 1], ps[|ps| - 1], x, p)
    ensures Rounds(cdf, xs + [x], ps + [p])
  {
  }

  // The sizes but the last.
  ghost predicate Recorded(bins: seq<int>, xs: seq<int>) {
    xs != [] && forall b :: b in bins <==> b in xs[..|xs| - 1]
  }

  lemma RecordedMore(bins: seq<int>, xs: seq<int>, x: int)
    requires Recorded(bins, xs)
    ensures Recorded(Record(bins, xs[|xs| - 1]), xs + [x])
    ensures forall b :: b in Record(bins, xs[|xs| - 1]) <==> b in xs
  {
    var n := |xs| - 1;
    assert xs == xs[..n] + [xs[n]] && (xs + [x])[..n + 1] == xs;
  }

  // The next size, at most one percentile down: half of x where the size there would be smaller still.
  method NextSize(rand: CustomRand, x: int, p: real, p1: real) returns (x': int, p': real)
    requires Accepted(rand.cdf) && 1.0 < p <= 100.0 && x > 0 && x == SizeAt(rand.cdf, p) && StepDown(p) == Some(p1)
    ensures 1.0 <= p' < p <= p' + 1.0 && x' == SizeAt(rand.cdf, p') && (x > 1000 ==> x' >= x / 2)
    ensures x' < x || (x' == x && Rank(p') < Rank(p))
    ensures NextRound(rand.cdf, x, p, x', p')
  {
    ValueInSegment(rand.cdf, p1);
    SizeKeepsOrder(rand.cdf, p1, p);
    var v := rand.GetValueFromPercentile(p1);
    x', p' := Int(v.value), p1;
    if x' < x / 2 && x > 1000 {
      PercentileBetween(rand.cdf, x / 2, p, p1);
      x' := x / 2;
      var y := rand.GetPercentileFromValue(x' as real);
      p' := y.value;
    }
  }

  // Before a round of the loop, with all rounds made so far.
  ghost predicate Building(cdf: seq<Point>, bins: seq<int>, x: int, p: real, xs: seq<int>, ps: seq<real>)
    requires Accepted(cdf)
  {
    && Binning(cdf, bins, x, p) && Rounds(cdf, xs, ps) && Recorded(bins, xs)
    && xs[|xs| - 1] == x && ps[|ps| - 1] == p
  }

  lemma RoundKeepsBuilding(
    cdf: seq<Point>, bins: seq<int>, x: int, p: real, xs: seq<int>, ps: seq<real>, x': int, p': real)
    requires Accepted(cdf) && Building(cdf, bins, x, p, xs, ps) && x > 0 && NextRound(cdf, x, p, x', p')
    requires 1.0 <= p' < p <= p' + 1.0 && x' == SizeAt(cdf, p') && (x > 1000 ==> x' >= x / 2)
    ensures Building(cdf, Record(bins, x), x', p', xs + [x'], ps + [p'])
  {
    RecordKeepsBinning(cdf, bins, x, p);
    StepKeepsBinning(cdf, Record(bins, x), x, p, x', p');
    RoundsGoOn(cdf, xs, ps, x', p');
    RecordedMore(bins, xs, x');
  }

  // The loop ends at a size that is not positive, or after it has recorded the size at percentile 1.
  lemma BuildingEnds(cdf: seq<Point>, bins: seq<int>, x: int, p: real, xs: seq<int>, ps: seq<real>)
    requires Accepted(cdf) && Building(cdf, bins, x, p, xs, ps) && (x <= 0 || p <= 1.0)
    ensures var all := if x > 0 then Record(bins, x) else bins;
            Bins(cdf, all) && AllRounds(cdf, xs, ps) && forall b :: b in all <==> b > 0 && b in xs
  {
    if x > 0 {
      var all := Record(bins, x);
      RecordKeepsBinning(cdf, bins, x, p);
      assert all[|all| - 1] in all;
      BinningEnds(cdf, all, x, p);
    } else {
      BinningEnds(cdf, bins, x, p);
    }
    RecordedAll(cdf, bins, x, p, xs);
  }

  lemma RecordedAll(cdf: seq<Point>, bins: seq<int>, x: int, p: real, xs: seq<int>)
    requires Accepted(cdf) && Binning(cdf, bins, x, p) && Recorded(bins, xs) && xs[|xs| - 1] == x
    ensures forall b :: b in (if x > 0 then Record(bins, x) else bins) <==> b > 0 && b in xs
  {
    assert xs == xs[..|xs| - 1] + [x];
    if x > 0 {
      RecordedMore(bins, xs, 0);
    }
  }

  /** The loop. It ends, it never takes its error exit, and the bins it builds serve their purpose; they are just the
      positive sizes of the rounds, xs at percentiles ps. */
  method BuildBins(rand: CustomRand) returns (bins: seq<int>, failed: bool, ghost xs: seq<int>, ghost ps: seq<real>)
    requires Accepted(rand.cdf)
    ensures !failed && Bins(rand.cdf, bins)
    ensures AllRounds(rand.cdf, xs, ps) && forall b :: b in bins <==> b > 0 && b in xs
  {
    failed := false;
    ValueInSegment(rand.cdf, 100.0);
    var v := rand.GetValueFromPercentile(100.0);
    var x, p := Int(v.value), 100.0;
    bins, xs, ps := [], [x], [p];
    while x > 0
      invariant !failed && Building(rand.cdf, bins, x, p, xs, ps)
      decreases x, Rank(p)
    {
      ghost var before := bins;
      bins := Record(bins, x);
      if StepDown(p).None? {
        BuildingEnds(rand.cdf, before, x, p, xs, ps);
        return;
      }
      var x1, p1 := NextSize(rand, x, p, StepDown(p).value);
      if p1 < 0.0 {
        failed := true;
        break;
      }
      RoundKeepsBuilding(rand.cdf, before, x, p, xs, ps, x1, p1);
      x, p, xs, ps := x1, p1, xs + [x1], ps + [p1];
    }
    BuildingEnds(rand.cdf, bins, x, p, xs, ps);
  }

  // ----- The table that is printed -----

  function Reversed(s: seq<int>): (r: seq<int>)
    ensures |r| == |s| && forall i :: 0 <= i < |s| ==> r[i] == s[|s| - 1 - i]
  {
    if s == [] then [] else Reversed(s[1..]) + [s[0]]
  }

  // Backwards, bins are in ascending order: what sort makes of them.
  lemma {:induction false} ReversedIsSorted(s: seq<int>)
    requires Decreasing(s)
    ensures forall i, j :: 0 <= i < j < |s| ==> Reversed(s)[i] < Reversed(s)[j]
    ensures multiset(Reversed(s)) == multiset(s)
  {
    if s != [] {
      ReversedIsSorted(s[1..]);
      assert s == [s[0]] + s[1..];
    }
  }

  lemma SizeBelowTop(cdf: seq<Point>, y: real)
    requires Accepted(cdf) && InPercentiles(y) && SizeAt(cdf, y) > 0
    ensures SizeAt(cdf, y) as real <= cdf[|cdf| - 1].x
  {
    ValueInSegment(cdf, y);
  }

  lemma BinBelowTop(cdf: seq<Point>, bins: seq<int>, b: int)
    requires Accepted(cdf) && Bins(cdf, bins) && b in bins
    ensures 0.0 < b as real <= cdf[|cdf| - 1].x
  {
    var y :| 1.0 <= y <= 100.0 && SizeAt(cdf, y) == b;
    SizeBelowTop(cdf, y);
  }

  lemma BelowFirst(cdf: seq<Point>, v: real)
    requires Accepted(cdf) && 0.0 <= v < cdf[0].x
    ensures Percentile(cdf, v).Some? && Percentile(cdf, v).value < 0.0
  {
    var p, q := cdf[0], cdf[1];
    Increasing(cdf, 0, |cdf| - 1);
    assert First(cdf, Values, 1, v) == 1;
    LineRises(p.x, p.y, q.x, q.y, v, p.x);
  }

  // Every bin has a percentile, and it is negative just when truncation took the size below the distribution.
  lemma PercentileOfBin(cdf: seq<Point>, bins: seq<int>, b: int)
    requires Accepted(cdf) && Bins(cdf, bins) && b in bins
    ensures Percentile(cdf, b as real).Some?
    ensures Percentile(cdf, b as real).value >= 0.0 <==> cdf[0].x <= b as real
    ensures cdf[0].x <= b as real ==> Value(cdf, Percentile(cdf, b as real).value) == Some(b as real)
  {
    BinBelowTop(cdf, bins, b);
    if cdf[0].x <= b as real {
      ValueOfPercentile(cdf, b as real);
    } else {
      BelowFirst(cdf, b as real);
    }
  }

  ghost predicate Rows(cdf: seq<Point>, sizes: seq<int>, rows: seq<(int, real)>)
    requires Accepted(cdf)
  {
    && |rows| == |sizes|
    && forall i :: 0 <= i < |rows| ==> rows[i].0 == sizes[i] && Percentile(cdf, sizes[i] as real) == Some(rows[i].1)
  }

  /** The printed table: every bin in ascending order, with its percentile. */
  method BinTable(rand: CustomRand) returns (rows: seq<(int, real)>, bins: seq<int>)
    requires Accepted(rand.cdf)
    ensures Bins(rand.cdf, bins) && Rows(rand.cdf, Reversed(bins), rows)
  {
    var failed;
    ghost var xs, ps;
    bins, failed, xs, ps := BuildBins(rand);
    var sorted := Reversed(bins);
    rows := [];
    for k := 0 to |sorted|
      invariant Rows(rand.cdf, sorted[..k], rows)
    {
      var y := rand.GetPercentileFromValue(sorted[k] as real);
      rows := rows + [(sorted[k], y.value)];
    }
    assert sorted[..|sorted|] == sorted;
  }

  // Sizes from 1.5 to 10.
  ghost predicate FromOneAndHalf(cdf: seq<Point>) {
    |cdf| == 2 && cdf[0] == Point(1.5, 0.0) && cdf[1] == Point(10.0, 100.0)
  }

  lemma LowValue(y: real)
    requires 1.0 <= y <= 2.0
    ensures 1.0 < ValueOn(Point(1.5, 0.0), Point(10.0, 100.0), y) < 2.0
  {
    assert (10.0 - 1.5) / (100.0 - 0.0) == 0.085;
  }

  lemma LowSize(cdf: seq<Point>, y: real)
    requires FromOneAndHalf(cdf) && 1.0 <= y <= 2.0
    ensures Accepted(cdf) && SizeAt(cdf, y) == 1
  {
    LowValue(y);
    assert First(cdf, Percentiles, 1, y) == 1;
  }

  lemma CoveredByOne(cdf: seq<Point>, bins: seq<int>)
    requires FromOneAndHalf(cdf) && Accepted(cdf) && Covered(cdf, bins, 1.0)
    ensures 1 in bins
  {
    LowSize(cdf, 1.0);
    LowSize(cdf, 2.0);
    assert Min(1.0 + 1.0, 100.0) == 2.0;
    var b :| b in bins && SizeAt(cdf, 1.0) <= b <= SizeAt(cdf, Min(1.0 + 1.0, 100.0));
  }

  // The lowest bin is 1, and its percentile is negative.
  lemma LowBinHasNoPercentile(cdf: seq<Point>, bins: seq<int>)
    requires FromOneAndHalf(cdf) && Accepted(cdf) && Bins(cdf, bins)
    ensures 1 in bins && Percentile(cdf, 1.0).Some? && Percentile(cdf, 1.0).value < 0.0
  {
    LowSize(cdf, 1.0);
    CoveredByOne(cdf, bins);
    PercentileOfBin(cdf, bins, 1);
  }
}
