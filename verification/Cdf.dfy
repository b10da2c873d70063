/** Piecewise-linear distributions of traffic_gen/custom_rand.py, over the reals. */
module Cdf {
  import opened Common

  // A breakpoint: value and percentile.
  datatype Point = Point(x: real, y: real)

  // What testCdf accepts: percentiles from 0 to 100, both coordinates strictly increasing.
  ghost predicate Accepted(cdf: seq<Point>) {
    && |cdf| > 0 && cdf[0].y == 0.0 && cdf[|cdf| - 1].y == 100.0
    && forall i :: 0 < i < |cdf| ==> cdf[i - 1].y < cdf[i].y && cdf[i - 1].x < cdf[i].x
  }

  lemma {:induction false} Increasing(cdf: seq<Point>, i: nat, j: nat)
    requires Accepted(cdf) && i < j < |cdf|
    ensures cdf[i].x < cdf[j].x && cdf[i].y < cdf[j].y
    decreases j - i
  {
    if i < j - 1 {
      Increasing(cdf, i, j - 1);
    }
  }

  // ----- Lines -----

  // The line through (s, a) and (t, b), at z.
  function Line(s: real, a: real, t: real, b: real, z: real): real
    requires s < t
  {
    a + (b - a) / (t - s) * (z - s)
  }

  function ValueOn(p: Point, q: Point, y: real): real
    requires p.y < q.y
  {
    Line(p.y, p.x, q.y, q.x, y)
  }

  function PercentileOn(p: Point, q: Point, x: real): real
    requires p.x < q.x
  {
    Line(p.x, p.y, q.x, q.y, x)
  }

  lemma SlopeTimes(a: real, b: real, u: real, v: real, t: real)
    requires a > 0.0 && b > 0.0 && u == b / a && v == a / b
    ensures u * (v * t) == t && v * (u * t) == t
  {
    assert u * a == b && v * b == a;
    var w := u * v;
    assert w * b == u * a;
  }

  lemma LinesAreInverse(p: Point, q: Point, y: real)
    requires p.x < q.x && p.y < q.y
    ensures PercentileOn(p, q, ValueOn(p, q, y)) == y
    ensures ValueOn(p, q, PercentileOn(p, q, y)) == y
  {
    var u, v := (q.y - p.y) / (q.x - p.x), (q.x - p.x) / (q.y - p.y);
    SlopeTimes(q.x - p.x, q.y - p.y, u, v, y - p.y);
    SlopeTimes(q.x - p.x, q.y - p.y, u, v, y - p.x);
    assert ValueOn(p, q, y) - p.x == v * (y - p.y);
    assert PercentileOn(p, q, y) - p.y == u * (y - p.x);
  }

  lemma LineEnd(s: real, a: real, t: real, b: real)
    requires s < t
    ensures Line(s, a, t, b, t) == b
  {
    var w := t - s;
    assert (b - a) / w * w == b - a;
  }

  lemma LineEnds(p: Point, q: Point)
    requires p.x < q.x && p.y < q.y
    ensures ValueOn(p, q, p.y) == p.x && ValueOn(p, q, q.y) == q.x
  {
    LineEnd(p.y, p.x, q.y, q.x);
  }

  lemma QuotientIsPositive(d: real, w: real)
    requires d > 0.0 && w > 0.0
    ensures d / w > 0.0
  {
    assert d / w * w == d;
  }

  // Adding multiples of a positive slope.
  lemma SlopeRises(a: real, k: real, u: real, v: real, f: real, g: real)
    requires k > 0.0 && u < v && f == a + k * u && g == a + k * v
    ensures f < g
  {
    assert k * (v - u) > 0.0;
  }

  lemma LineRises(s: real, a: real, t: real, b: real, z: real, z': real)
    requires s < t && a < b && z < z'
    ensures Line(s, a, t, b, z) < Line(s, a, t, b, z')
  {
    var k := (b - a) / (t - s);
    var u, v := z - s, z' - s;
    QuotientIsPositive(b - a, t - s);
    SlopeRises(a, k, u, v, Line(s, a, t, b, z), Line(s, a, t, b, z'));
  }

  lemma LineOrder(p: Point, q: Point, y: real, y': real)
    requires p.x < q.x && p.y < q.y && y < y'
    ensures ValueOn(p, q, y) < ValueOn(p, q, y')
  {
    LineRises(p.y, p.x, q.y, q.x, y, y');
  }

  // ----- The searches -----

  datatype Axis = Values | Percentiles

  function On(p: Point, axis: Axis): real {
    if axis == Values then p.x else p.y
  }

  // The first breakpoint from i on that is not below v, or the length if there is none.
  function First(cdf: seq<Point>, axis: Axis, i: nat, v: real): (k: nat)
    requires i <= |cdf|
    ensures i <= k <= |cdf| && (k < |cdf| ==> v <= On(cdf[k], axis)) && forall j :: i <= j < k ==> On(cdf[j], axis) < v
    decreases |cdf| - i
  {
    if i == |cdf| || v <= On(cdf[i], axis) then i else First(cdf, axis, i + 1, v)
  }

  // getValueFromPercentile; the loop falls through, returning nothing, above 100.
  function Value(cdf: seq<Point>, y: real): Option<real>
    requires Accepted(cdf)
  {
    var i := First(cdf, Percentiles, 1, y);
    if i == |cdf| then None else Some(ValueOn(cdf[i - 1], cdf[i], y))
  }

  // getPercentileFromValue, whose error value is -1.
  function Percentile(cdf: seq<Point>, x: real): Option<real>
    requires Accepted(cdf)
  {
    if x < 0.0 || x > cdf[|cdf| - 1].x then Some(-1.0)
    else
      var i := First(cdf, Values, 1, x);
      if i == |cdf| then None else Some(PercentileOn(cdf[i - 1], cdf[i], x))
  }

  predicate InPercentiles(y: real) {
    0.0 <= y <= 100.0
  }

  predicate InValues(cdf: seq<Point>, x: real)
    requires |cdf| > 0
  {
    cdf[0].x <= x <= cdf[|cdf| - 1].x
  }

  // Where a percentile lies, and where its value lies.
  lemma ValueInSegment(cdf: seq<Point>, y: real)
    requires Accepted(cdf) && InPercentiles(y)
    ensures var i := First(cdf, Percentiles, 1, y);
            && 0 < i < |cdf| && cdf[i - 1].y <= y <= cdf[i].y && (y == cdf[i - 1].y ==> i == 1)
            && Value(cdf, y) == Some(ValueOn(cdf[i - 1], cdf[i], y))
            && cdf[i - 1].x <= Value(cdf, y).value <= cdf[i].x && (Value(cdf, y).value == cdf[i - 1].x ==> i == 1)
            && InValues(cdf, Value(cdf, y).value)
  {
    var i := First(cdf, Percentiles, 1, y);
    var n := |cdf| - 1;
    LineEnds(cdf[i - 1], cdf[i]);
    if cdf[i - 1].y < y {
      LineOrder(cdf[i - 1], cdf[i], cdf[i - 1].y, y);
    }
    if y < cdf[i].y {
      LineOrder(cdf[i - 1], cdf[i], y, cdf[i].y);
    }
    if 0 < i - 1 {
      Increasing(cdf, 0, i - 1);
    }
    if i < n {
      Increasing(cdf, i, n);
    }
  }

  // Only above 100 there is no value.
  lemma NoneAbove(cdf: seq<Point>, y: real)
    requires Accepted(cdf)
    ensures Value(cdf, y) == None <==> y > 100.0
  {
    var k := First(cdf, Percentiles, 1, y);
    if k < |cdf| - 1 {
      Increasing(cdf, k, |cdf| - 1);
    }
    assert cdf[0].y < cdf[|cdf| - 1].y;
  }

  lemma LineIsLine(p: Point, q: Point, y: real)
    requires p.y < q.y
    ensures (ValueOn(p, q, y) - p.x) * (q.y - p.y) == (y - p.y) * (q.x - p.x)
  {
    var w, d, z := q.y - p.y, q.x - p.x, y - p.y;
    var k := d / w;
    assert k * w == d && ValueOn(p, q, y) - p.x == k * z;
    assert k * z * w == z * (k * w);
  }

  // At a breakpoint the two segments agree.
  lemma ValueIsOn(cdf: seq<Point>, i: nat, y: real)
    requires Accepted(cdf) && 0 < i < |cdf| && cdf[i - 1].y <= y <= cdf[i].y
    ensures Value(cdf, y) == Some(ValueOn(cdf[i - 1], cdf[i], y))
  {
    var k := First(cdf, Percentiles, 1, y);
    if k < i - 1 {
      Increasing(cdf, k, i - 1);
    } else if k == i - 1 {
      LineEnds(cdf[i - 2], cdf[i - 1]);
      LineEnds(cdf[i - 1], cdf[i]);
    }
  }

  // From one breakpoint to the next, values grow in proportion to percentiles.
  lemma ValueIsLinear(cdf: seq<Point>, i: nat, y: real)
    requires Accepted(cdf) && 0 < i < |cdf| && cdf[i - 1].y <= y <= cdf[i].y
    ensures Value(cdf, y).Some?
    ensures (Value(cdf, y).value - cdf[i - 1].x) * (cdf[i].y - cdf[i - 1].y)
            == (y - cdf[i - 1].y) * (cdf[i].x - cdf[i - 1].x)
  {
    ValueIsOn(cdf, i, y);
    LineIsLine(cdf[i - 1], cdf[i], y);
  }

  // The value increases strictly with the percentile.
  lemma ValueIsIncreasing(cdf: seq<Point>, y: real, y': real)
    requires Accepted(cdf) && 0.0 <= y < y' <= 100.0
    ensures Value(cdf, y).Some? && Value(cdf, y').Some? && Value(cdf, y).value < Value(cdf, y').value
  {
    ValueInSegment(cdf, y);
    ValueInSegment(cdf, y');
    var i, i' := First(cdf, Percentiles, 1, y), First(cdf, Percentiles, 1, y');
    if i == i' {
      LineOrder(cdf[i - 1], cdf[i], y, y');
    } else {
      assert i < i';
      if i < i' - 1 {
        Increasing(cdf, i, i' - 1);
      }
    }
  }

  // The percentile of the value of a percentile is that percentile.
  lemma PercentileOfValue(cdf: seq<Point>, y: real)
    requires Accepted(cdf) && cdf[0].x >= 0.0 && InPercentiles(y)
    ensures Value(cdf, y).Some? && Percentile(cdf, Value(cdf, y).value) == Some(y)
  {
    ValueInSegment(cdf, y);
    var i := First(cdf, Percentiles, 1, y);
    var x := Value(cdf, y).value;
    var k := First(cdf, Values, 1, x);
    if k < i {
      if k < i - 1 {
        Increasing(cdf, k, i - 1);
      }
      assert false;
    }
    LinesAreInverse(cdf[i - 1], cdf[i], y);
  }

  function Flip(p: Point): Point {
    Point(p.y, p.x)
  }

  lemma Flipped(p: Point, q: Point, x: real)
    requires p.x < q.x && p.y < q.y
    ensures PercentileOn(p, q, x) == ValueOn(Flip(p), Flip(q), x)
  {
  }

  lemma PercentileInSegment(cdf: seq<Point>, x: real)
    requires Accepted(cdf) && InValues(cdf, x)
    ensures var i := First(cdf, Values, 1, x);
            && 0 < i < |cdf| && cdf[i - 1].x <= x <= cdf[i].x && (x == cdf[i - 1].x ==> i == 1)
            && cdf[i - 1].y <= PercentileOn(cdf[i - 1], cdf[i], x) <= cdf[i].y
            && (PercentileOn(cdf[i - 1], cdf[i], x) == cdf[i - 1].y ==> i == 1)
            && InPercentiles(PercentileOn(cdf[i - 1], cdf[i], x))
  {
    var i, n := First(cdf, Values, 1, x), |cdf| - 1;
    var p, q := Flip(cdf[i - 1]), Flip(cdf[i]);
    Flipped(cdf[i - 1], cdf[i], x);
    LineEnds(p, q);
    if cdf[i - 1].x < x {
      LineOrder(p, q, cdf[i - 1].x, x);
    }
    if x < cdf[i].x {
      LineOrder(p, q, x, cdf[i].x);
    }
    if 0 < i - 1 {
      Increasing(cdf, 0, i - 1);
    }
    if i < n {
      Increasing(cdf, i, n);
    }
  }

  // The value of the percentile of a value in the range is that value.
  lemma ValueOfPercentile(cdf: seq<Point>, x: real)
    requires Accepted(cdf) && x >= 0.0 && InValues(cdf, x)
    ensures Percentile(cdf, x).Some? && InPercentiles(Percentile(cdf, x).value)
    ensures Value(cdf, Percentile(cdf, x).value) == Some(x)
  {
    PercentileInSegment(cdf, x);
    var i := First(cdf, Values, 1, x);
    var y := PercentileOn(cdf[i - 1], cdf[i], x);
    var k := First(cdf, Percentiles, 1, y);
    if k < i {
      if k < i - 1 {
        Increasing(cdf, k, i - 1);
      }
      assert false;
    }
    LinesAreInverse(cdf[i - 1], cdf[i], x);
  }

  // The percentile increases strictly with the value.
  lemma PercentileIsIncreasing(cdf: seq<Point>, x: real, x': real)
    requires Accepted(cdf) && 0.0 <= x < x' && InValues(cdf, x) && InValues(cdf, x')
    ensures Percentile(cdf, x).Some? && Percentile(cdf, x').Some?
    ensures Percentile(cdf, x).value < Percentile(cdf, x').value
  {
    ValueOfPercentile(cdf, x);
    ValueOfPercentile(cdf, x');
    var y, y' := Percentile(cdf, x).value, Percentile(cdf, x').value;
    if y' < y {
      ValueIsIncreasing(cdf, y', y);
    }
  }

  // ----- The integral -----

  // The area under a segment up to y: a trapezoid, with percentiles as fractions.
  function Part(p: Point, q: Point, y: real): real
    requires p.y < q.y
  {
    0.5 * (p.x + ValueOn(p, q, y)) * (y - p.y) / 100.0
  }

  // The area under a whole segment.
  function Whole(p: Point, q: Point): real {
    0.5 * (q.x + p.x) * (q.y - p.y) / 100.0
  }

  // What the loop of getIntegralY adds from segment i on.
  function IntegralFrom(cdf: seq<Point>, i: nat, y: real): real
    requires Accepted(cdf) && 0 < i <= |cdf|
    decreases |cdf| - i
  {
    if i == |cdf| then 0.0
    else if y <= cdf[i].y then Part(cdf[i - 1], cdf[i], y)
    else Whole(cdf[i - 1], cdf[i]) + IntegralFrom(cdf, i + 1, y)
  }

  function Integral(cdf: seq<Point>, y: real): real
    requires Accepted(cdf)
  {
    IntegralFrom(cdf, 1, y)
  }

  // The whole segments before breakpoint i.
  function Before(cdf: seq<Point>, i: nat): real
    requires i < |cdf|
  {
    if i == 0 then 0.0 else Before(cdf, i - 1) + Whole(cdf[i - 1], cdf[i])
  }

  // The integral up to y, reckoned as lying on segment i.
  function IntegralAt(cdf: seq<Point>, i: nat, y: real): real
    requires Accepted(cdf) && 0 < i < |cdf|
  {
    Before(cdf, i - 1) + Part(cdf[i - 1], cdf[i], y)
  }

  lemma {:induction false} IntegralIsAt(cdf: seq<Point>, i: nat, y: real)
    requires Accepted(cdf) && 0 < i < |cdf| && y <= 100.0 && cdf[i - 1].y <= y && (cdf[i - 1].y == y ==> i == 1)
    ensures var k := First(cdf, Percentiles, i, y);
            k < |cdf| && Before(cdf, i - 1) + IntegralFrom(cdf, i, y) == IntegralAt(cdf, k, y)
    decreases |cdf| - i
  {
    if cdf[i].y < y {
      IntegralIsAt(cdf, i + 1, y);
    }
  }

  // Where two segments meet it does not matter on which the breakpoint is reckoned.
  lemma IntegralIsContinuous(cdf: seq<Point>, i: nat)
    requires Accepted(cdf) && 0 < i < |cdf| - 1
    ensures IntegralAt(cdf, i, cdf[i].y) == Before(cdf, i) == IntegralAt(cdf, i + 1, cdf[i].y)
    ensures ValueOn(cdf[i - 1], cdf[i], cdf[i].y) == cdf[i].x == ValueOn(cdf[i], cdf[i + 1], cdf[i].y)
  {
    LineEnds(cdf[i - 1], cdf[i]);
    LineEnds(cdf[i], cdf[i + 1]);
  }

  lemma MeanBetween(v: real, w: real, d: real)
    requires v <= w && d >= 0.0
    ensures v * d <= 0.5 * (v + w) * d <= w * d
  {
    var half := 0.5 * (w - v) * d;
    assert half >= 0.0;
    assert v * d + half == 0.5 * (v + w) * d;
    assert w * d - half == 0.5 * (v + w) * d;
  }

  // An increment of 100 times the integral lies between width times lowest and width times highest value.
  ghost predicate Between(lo: real, hi: real, width: real, increment: real) {
    lo <= hi && width >= 0.0 && lo * width <= increment <= hi * width
  }

  lemma PartIs(p: Point, q: Point, y: real)
    requires p.y < q.y
    ensures 100.0 * Part(p, q, y) == 0.5 * ((p.x + ValueOn(p, q, y)) * (y - p.y))
  {
    var u := (p.x + ValueOn(p, q, y)) * (y - p.y);
    assert 0.5 * (p.x + ValueOn(p, q, y)) * (y - p.y) == 0.5 * u;
  }

  lemma Difference(x: real, m: real, a: real, b: real)
    ensures (x + (x + m * b)) * b - (x + (x + m * a)) * a == ((x + m * a) + (x + m * b)) * (b - a)
  {
    assert (m * b) * a == (m * a) * b;
  }

  lemma BetweenOnSegment(p: Point, q: Point, y: real, y': real)
    requires p.x < q.x && p.y < q.y && p.y <= y <= y'
    ensures Between(ValueOn(p, q, y), ValueOn(p, q, y'), y' - y, 100.0 * (Part(p, q, y') - Part(p, q, y)))
  {
    var m := (q.x - p.x) / (q.y - p.y);
    var a, b := y - p.y, y' - p.y;
    var v, w := p.x + m * a, p.x + m * b;
    assert ValueOn(p, q, y) == v && ValueOn(p, q, y') == w;
    if y < y' {
      LineOrder(p, q, y, y');
    }
    MeanBetween(v, w, b - a);
    PartIs(p, q, y);
    PartIs(p, q, y');
    Difference(p.x, m, a, b);
    assert 0.5 * ((v + w) * (b - a)) == 0.5 * (v + w) * (b - a);
  }

  lemma SumBetween(us: real, d: real, vs: real, ws: real, ut: real, vt: real, e: real, wt: real)
    requires us <= d <= vs <= ws && ut <= vt <= e <= wt
    ensures us + ut <= d + e <= ws + wt
  {
  }

  lemma BetweenJoins(u: real, v: real, w: real, s: real, t: real, d: real, e: real)
    requires Between(u, v, s, d) && Between(v, w, t, e)
    ensures Between(u, w, s + t, d + e)
  {
    SumBetween(u * s, d, v * s, w * s, u * t, v * t, e, w * t);
  }

  lemma {:induction false} BetweenAcross(cdf: seq<Point>, i: nat, y: real, k: nat, y': real)
    requires Accepted(cdf) && 0 < i <= k < |cdf|
    requires cdf[i - 1].y <= y <= cdf[i].y && cdf[k - 1].y <= y' <= cdf[k].y && y <= y'
    ensures Between(ValueOn(cdf[i - 1], cdf[i], y), ValueOn(cdf[k - 1], cdf[k], y'), y' - y,
                    100.0 * (IntegralAt(cdf, k, y') - IntegralAt(cdf, i, y)))
    decreases k - i
  {
    if i == k {
      BetweenOnSegment(cdf[i - 1], cdf[i], y, y');
    } else {
      var b := cdf[i].y;
      if i < k - 1 {
        Increasing(cdf, i, k - 1);
      }
      BetweenOnSegment(cdf[i - 1], cdf[i], y, b);
      IntegralIsContinuous(cdf, i);
      BetweenAcross(cdf, i + 1, b, k, y');
      BetweenJoins(ValueOn(cdf[i - 1], cdf[i], y), cdf[i].x, ValueOn(cdf[k - 1], cdf[k], y'), b - y, y' - b,
                   100.0 * (IntegralAt(cdf, i, b) - IntegralAt(cdf, i, y)),
                   100.0 * (IntegralAt(cdf, k, y') - IntegralAt(cdf, i + 1, b)));
    }
  }

  lemma NotDecreasing(lo: real, hi: real, width: real, s: real, t: real)
    requires Between(lo, hi, width, 100.0 * (t - s)) && lo >= 0.0
    ensures s <= t
  {
    assert lo * width >= 0.0;
  }

  lemma BetweenOnIntegral(cdf: seq<Point>, y: real, y': real)
    requires Accepted(cdf) && 0.0 <= y <= y' <= 100.0
    ensures var i, k := First(cdf, Percentiles, 1, y), First(cdf, Percentiles, 1, y');
            && 0 < i < |cdf| && 0 < k < |cdf|
            && Between(ValueOn(cdf[i - 1], cdf[i], y), ValueOn(cdf[k - 1], cdf[k], y'), y' - y,
                       100.0 * (IntegralAt(cdf, k, y') - IntegralAt(cdf, i, y)))
  {
    ValueInSegment(cdf, y);
    ValueInSegment(cdf, y');
    var i, k := First(cdf, Percentiles, 1, y), First(cdf, Percentiles, 1, y');
    assert i <= k;
    BetweenAcross(cdf, i, y, k, y');
  }

  lemma IntegralIs(cdf: seq<Point>, y: real)
    requires Accepted(cdf) && 0.0 <= y <= 100.0
    ensures var i := First(cdf, Percentiles, 1, y); 0 < i < |cdf| && Integral(cdf, y) == IntegralAt(cdf, i, y)
  {
    IntegralIsAt(cdf, 1, y);
  }

  // getIntegralY is the integral of getValueFromPercentile: over any interval it grows by the width times
  // something between the lowest and the highest value there. So it is continuous, and monotone where
  // values are not negative.
  lemma IntegralOfValues(cdf: seq<Point>, y: real, y': real)
    requires Accepted(cdf) && 0.0 <= y <= y' <= 100.0
    ensures Value(cdf, y).Some? && Value(cdf, y').Some?
    ensures Between(Value(cdf, y).value, Value(cdf, y').value, y' - y, 100.0 * (Integral(cdf, y') - Integral(cdf, y)))
    ensures cdf[0].x >= 0.0 ==> Integral(cdf, y) <= Integral(cdf, y')
  {
    BetweenOnIntegral(cdf, y, y');
    IntegralIs(cdf, y);
    IntegralIs(cdf, y');
    assert Value(cdf, y)
           == Some(ValueOn(cdf[First(cdf, Percentiles, 1, y) - 1], cdf[First(cdf, Percentiles, 1, y)], y));
    ValueInSegment(cdf, y);
    if cdf[0].x >= 0.0 {
      NotDecreasing(Value(cdf, y).value, Value(cdf, y').value, y' - y, Integral(cdf, y), Integral(cdf, y'));
    }
  }

  function Trapezoid(p: Point, q: Point): real {
    (q.x + p.x) / 2.0 * (q.y - p.y)
  }

  // The sum that getAvg divides by 100.
  function AreaUpTo(cdf: seq<Point>, i: nat): real
    requires i < |cdf|
  {
    if i == 0 then 0.0 else AreaUpTo(cdf, i - 1) + Trapezoid(cdf[i - 1], cdf[i])
  }

  lemma HalfOf(w: real, h: real)
    ensures w / 2.0 * h == 0.5 * w * h
  {
    var u := w / 2.0;
    assert u == 0.5 * w;
  }

  lemma WholeIsTrapezoid(p: Point, q: Point)
    ensures Whole(p, q) == Trapezoid(p, q) / 100.0
  {
    HalfOf(q.x + p.x, q.y - p.y);
  }

  lemma {:induction false} AreaIsIntegral(cdf: seq<Point>, i: nat)
    requires i < |cdf|
    ensures AreaUpTo(cdf, i) / 100.0 == Before(cdf, i)
  {
    if i > 0 {
      AreaIsIntegral(cdf, i - 1);
      WholeIsTrapezoid(cdf[i - 1], cdf[i]);
    }
  }

  lemma PartIsWhole(p: Point, q: Point)
    requires p.x < q.x && p.y < q.y
    ensures Part(p, q, q.y) == Whole(p, q)
  {
    LineEnds(p, q);
  }

  lemma LastPercentile(cdf: seq<Point>)
    requires Accepted(cdf)
    ensures |cdf| > 1 && First(cdf, Percentiles, 1, 100.0) == |cdf| - 1
  {
    var k := First(cdf, Percentiles, 1, 100.0);
    if k < |cdf| - 1 {
      Increasing(cdf, k, |cdf| - 1);
    }
  }

  // The average is the integral over all percentiles.
  lemma AverageIsIntegral(cdf: seq<Point>)
    requires Accepted(cdf)
    ensures Integral(cdf, 100.0) == AreaUpTo(cdf, |cdf| - 1) / 100.0
  {
    LastPercentile(cdf);
    var n := |cdf| - 1;
    IntegralIs(cdf, 100.0);
    PartIsWhole(cdf[n - 1], cdf[n]);
    AreaIsIntegral(cdf, n);
  }

  class CustomRand {
    var cdf: seq<Point>

    method TestCdf(cdf: seq<Point>) returns (ok: bool)
      requires |cdf| > 0
      ensures ok <==> Accepted(cdf)
    {
      if cdf[0].y != 0.0 {
        return false;
      }
      if cdf[|cdf| - 1].y != 100.0 {
        return false;
      }
      for i := 1 to |cdf|
        invariant forall k :: 0 < k < i ==> cdf[k - 1].y < cdf[k].y && cdf[k - 1].x < cdf[k].x
      {
        if cdf[i].y <= cdf[i - 1].y || cdf[i].x <= cdf[i - 1].x {
          return false;
        }
      }
      return true;
    }

    method SetCdf(cdf: seq<Point>) returns (ok: bool)
      requires |cdf| > 0
      modifies this
      ensures ok <==> Accepted(cdf)
      ensures this.cdf == if ok then cdf else old(this.cdf)
    {
      ok := TestCdf(cdf);
      if ok {
        this.cdf := cdf;
      }
    }

    method GetAvg() returns (avg: real)
      requires Accepted(cdf)
      ensures avg == Integral(cdf, 100.0)
    {
      var s := 0.0;
      var last := cdf[0];
      for i := 1 to |cdf|
        invariant last == cdf[i - 1] && s == AreaUpTo(cdf, i - 1)
      {
        s := s + (cdf[i].x + last.x) / 2.0 * (cdf[i].y - last.y);
        last := cdf[i];
      }
      AverageIsIntegral(cdf);
      return s / 100.0;
    }

    method GetPercentileFromValue(x: real) returns (y: Option<real>)
      requires Accepted(cdf)
      ensures y == Percentile(cdf, x) && (x < 0.0 || x > cdf[|cdf| - 1].x ==> y == Some(-1.0))
    {
      if x < 0.0 || x > cdf[|cdf| - 1].x {
        return Some(-1.0);
      }
      for i := 1 to |cdf|
        invariant First(cdf, Values, 1, x) == First(cdf, Values, i, x)
      {
        if x <= cdf[i].x {
          return Some(PercentileOn(cdf[i - 1], cdf[i], x));
        }
      }
      return None;
    }

    method GetValueFromPercentile(y: real) returns (x: Option<real>)
      requires Accepted(cdf)
      ensures x == Value(cdf, y) && (x == None <==> y > 100.0)
    {
      NoneAbove(cdf, y);
      for i := 1 to |cdf|
        invariant First(cdf, Percentiles, 1, y) == First(cdf, Percentiles, i, y)
      {
        if y <= cdf[i].y {
          return Some(ValueOn(cdf[i - 1], cdf[i], y));
        }
      }
      return None;
    }

    method GetIntegralY(y: real) returns (s: real)
      requires Accepted(cdf)
      ensures s == Integral(cdf, y)
    {
      s := 0.0;
      for i := 1 to |cdf|
        invariant s + IntegralFrom(cdf, i, y) == IntegralFrom(cdf, 1, y)
      {
        if y <= cdf[i].y {
          s := s + Part(cdf[i - 1], cdf[i], y);
          return s;
        }
        s := s + Whole(cdf[i - 1], cdf[i]);
      }
    }
  }
}
