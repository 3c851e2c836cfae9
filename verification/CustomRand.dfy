/** The CustomRand class of traffic_gen/custom_rand.py, with the integral of its values over the
    percentiles. */
module CustomRand {
  import opened Common
  import opened Distribution

  /* The integral. */

  function Trapezoid(a: Point, x: real, y: real): real { (a.x + x) / 2.0 * (y - a.y) }

  // The area over the first i pieces.
  function Area(cdf: seq<Point>, i: nat): real
    requires i < |cdf|
  {
    if i == 0 then 0.0 else Area(cdf, i - 1) + Trapezoid(cdf[i - 1], cdf[i].x, cdf[i].y)
  }

  function AreaTo(cdf: seq<Point>, y: real): real
    requires Accepted(cdf)
  {
    if y > 100.0 then Area(cdf, |cdf| - 1)
    else
      TwoPoints(cdf);
      var k := PieceOf(cdf, y, 1);
      Area(cdf, k - 1) + Trapezoid(cdf[k - 1], ValueOn(cdf[k - 1], cdf[k], y), y)
  }

  // The part of the mean that lies below percentile y.
  function IntegralY(cdf: seq<Point>, y: real): real
    requires Accepted(cdf)
  {
    AreaTo(cdf, y) / 100.0
  }

  function Average(cdf: seq<Point>): real
    requires Accepted(cdf)
  {
    Area(cdf, |cdf| - 1) / 100.0
  }

  // An area lies between that of the rectangle as high as its left end and that of its right end.
  predicate Between(width: real, low: real, area: real, high: real) {
    width * low <= area <= width * high
  }

  lemma BetweenTrapezoid(a: Point, x: real, y: real)
    requires a.x <= x && a.y <= y
    ensures Between(y - a.y, a.x, Trapezoid(a, x, y), x)
  {
    assert Trapezoid(a, x, y) - (y - a.y) * a.x == (x - a.x) / 2.0 * (y - a.y);
    assert (y - a.y) * x - Trapezoid(a, x, y) == (x - a.x) / 2.0 * (y - a.y);
    assert (x - a.x) / 2.0 * (y - a.y) >= 0.0;
  }

  lemma BetweenJoin(w: real, w': real, low: real, mid: real, high: real, area: real, area': real)
    requires w >= 0.0 && w' >= 0.0 && low <= mid <= high
    requires Between(w, low, area, mid) && Between(w', mid, area', high)
    ensures Between(w + w', low, area + area', high)
  {
    assert w' * low <= w' * mid && w * mid <= w * high;
    assert (w + w') * low == w * low + w' * low && (w + w') * high == w * high + w' * high;
  }

  // Two trapezoids on one line differ by the one between.
  lemma Split(a: Point, b: Point, x: real, y: real, u: real, v: real)
    requires Rises(a, b) && OnLine(a, b, x, y) && OnLine(a, b, u, v)
    ensures Trapezoid(a, u, v) - Trapezoid(a, x, y) == Trapezoid(Point(x, y), u, v)
  {
    var dx, dy := b.x - a.x, b.y - a.y;
    Cross(x - a.x, y - a.y, u - a.x, v - a.y, dx, dy);
    SplitSum(a.x, x - a.x, y - a.y, u - a.x, v - a.y);
    assert Trapezoid(a, u, v) == (2.0 * a.x + (u - a.x)) / 2.0 * (v - a.y);
    assert Trapezoid(a, x, y) == (2.0 * a.x + (x - a.x)) / 2.0 * (y - a.y);
    assert Trapezoid(Point(x, y), u, v) == (2.0 * a.x + (x - a.x) + (u - a.x)) / 2.0 * ((v - a.y) - (y - a.y));
  }

  lemma Cross(p: real, q: real, r: real, s: real, dx: real, dy: real)
    requires p * dy == q * dx && r * dy == s * dx && dx > 0.0 && dy > 0.0
    ensures p * s == r * q
  {
    assert p * s * dx == p * (r * dy) && r * q * dx == r * (p * dy);
    assert (p * s - r * q) * dx == 0.0;
  }

  lemma SplitSum(c: real, p: real, q: real, r: real, s: real)
    requires p * s == r * q
    ensures (2.0 * c + r) / 2.0 * s - (2.0 * c + p) / 2.0 * q == (2.0 * c + p + r) / 2.0 * (s - q)
  {
    assert (2.0 * c + r) / 2.0 * s == c * s + r * s / 2.0;
    assert (2.0 * c + p) / 2.0 * q == c * q + p * q / 2.0;
    assert (2.0 * c + p + r) / 2.0 * (s - q) == c * s - c * q + (p * s - p * q + r * s - r * q) / 2.0;
  }

  lemma {:induction false} BetweenKnots(cdf: seq<Point>, i: nat, j: nat)
    requires Accepted(cdf) && i <= j < |cdf|
    ensures cdf[i].x <= cdf[j].x && cdf[i].y <= cdf[j].y
    ensures Between(cdf[j].y - cdf[i].y, cdf[i].x, Area(cdf, j) - Area(cdf, i), cdf[j].x)
    decreases j
  {
    if i < j {
      assert Rises(cdf[j - 1], cdf[j]);
      BetweenKnots(cdf, i, j - 1);
      BetweenTrapezoid(cdf[j - 1], cdf[j].x, cdf[j].y);
      BetweenJoin(cdf[j - 1].y - cdf[i].y, cdf[j].y - cdf[j - 1].y, cdf[i].x, cdf[j - 1].x, cdf[j].x,
                  Area(cdf, j - 1) - Area(cdf, i), Trapezoid(cdf[j - 1], cdf[j].x, cdf[j].y));
    }
  }

  // Where percentile y lies: on piece k, with the area up to it.
  lemma Located(cdf: seq<Point>, y: real) returns (k: nat)
    requires Accepted(cdf) && 0.0 <= y <= 100.0
    ensures 1 <= k < |cdf| && Rises(cdf[k - 1], cdf[k]) && OnPiece(cdf[k - 1], cdf[k], Value(cdf, y), y)
    ensures AreaTo(cdf, y) == Area(cdf, k - 1) + Trapezoid(cdf[k - 1], Value(cdf, y), y)
    ensures k > 1 ==> cdf[k - 1].y < y
  {
    TwoPoints(cdf);
    k := PieceOf(cdf, y, 1);
    assert k > 1 ==> cdf[k - 1].y < y;
    assert Rises(cdf[k - 1], cdf[k]);
    ValueOnLine(cdf[k - 1], cdf[k], y);
  }

  /** getIntegralY is the integral of the values: over any stretch of percentiles it grows at least
      by the value at the beginning and at most by the value at the end, per percent. */
  lemma IntegralIsIntegral(cdf: seq<Point>, y: real, v: real)
    requires Accepted(cdf) && 0.0 <= y <= v <= 100.0
    ensures Between(v - y, Value(cdf, y), 100.0 * (IntegralY(cdf, v) - IntegralY(cdf, y)), Value(cdf, v))
  {
    var k := Located(cdf, y);
    var m := Located(cdf, v);
    var a, b, x, u := cdf[k - 1], cdf[k], Value(cdf, y), Value(cdf, v);
    assert 100.0 * (IntegralY(cdf, v) - IntegralY(cdf, y)) == AreaTo(cdf, v) - AreaTo(cdf, y);
    if k == m {
      LineRises(a, b, x, y, u, v);
      Split(a, b, x, y, u, v);
      BetweenTrapezoid(Point(x, y), u, v);
    } else {
      if m < k { BetweenKnots(cdf, m, k - 1); }
      BetweenKnots(cdf, k, m - 1);
      EndsOnLine(a, b);
      Split(a, b, x, y, b.x, b.y);
      BetweenTrapezoid(Point(x, y), b.x, b.y);
      var c := cdf[m - 1];
      BetweenTrapezoid(c, u, v);
      BetweenJoin(b.y - y, c.y - b.y, x, b.x, c.x, Trapezoid(Point(x, y), b.x, b.y), Area(cdf, m - 1) - Area(cdf, k));
      BetweenJoin(c.y - y, v - c.y, x, c.x, u,
                  Trapezoid(Point(x, y), b.x, b.y) + (Area(cdf, m - 1) - Area(cdf, k)), Trapezoid(c, u, v));
    }
  }

  lemma IntegralStarts(cdf: seq<Point>)
    requires Accepted(cdf)
    ensures IntegralY(cdf, 0.0) == 0.0
  {
    var k := Located(cdf, 0.0);
    if k > 1 { BetweenKnots(cdf, 0, k - 1); }
    assert Trapezoid(cdf[0], Value(cdf, 0.0), 0.0) == 0.0;
  }

  lemma IntegralEnds(cdf: seq<Point>)
    requires Accepted(cdf)
    ensures IntegralY(cdf, 100.0) == Average(cdf)
  {
    hide Value;
    var n := |cdf| - 1;
    var m := Located(cdf, 100.0);
    if m < n { RisesFar(cdf, m, n); }
    EndsOnLine(cdf[m - 1], cdf[m]);
    LineRises(cdf[m - 1], cdf[m], Value(cdf, 100.0), 100.0, cdf[m].x, cdf[m].y);
  }

  lemma IntegralGrows(cdf: seq<Point>, y: real, v: real)
    requires Accepted(cdf) && cdf[0].x >= 0.0 && 0.0 <= y <= v <= 100.0
    ensures IntegralY(cdf, y) <= IntegralY(cdf, v)
  {
    hide IntegralY, Value, Between, Accepted, OnCurve;
    ValueOnCurve(cdf, y);
    CurveRange(cdf, Value(cdf, y), y);
    IntegralIsIntegral(cdf, y, v);
    BetweenPositive(v - y, Value(cdf, y), 100.0 * (IntegralY(cdf, v) - IntegralY(cdf, y)), Value(cdf, v));
  }

  lemma BetweenPositive(w: real, low: real, area: real, high: real)
    requires Between(w, low, area, high) && w >= 0.0 && low >= 0.0
    ensures area >= 0.0
  {
    assert w * low >= 0.0;
  }

  // A point of the curve at a negative value, above percentile 0.
  lemma NegativeStart(cdf: seq<Point>) returns (x: real, v: real)
    requires Accepted(cdf) && cdf[0].x < 0.0
    ensures x < 0.0 && 0.0 < v <= 100.0 && OnCurve(cdf, x, v)
  {
    TwoPoints(cdf);
    assert Rises(cdf[1 - 1], cdf[1]);
    x := if cdf[1].x < cdf[0].x / 2.0 then cdf[1].x else cdf[0].x / 2.0;
    v := PercentileOn(cdf[0], cdf[1], x);
    PercentileOnLine(cdf[0], cdf[1], x);
    assert OnPiece(cdf[1 - 1], cdf[1], x, v);
    EndsOnCurve(cdf);
    CurveRises(cdf, cdf[0].x, 0.0, x, v);
    CurveRange(cdf, x, v);
  }

  lemma IntegralFalls(cdf: seq<Point>) returns (v: real)
    requires Accepted(cdf) && cdf[0].x < 0.0
    ensures 0.0 < v <= 100.0 && IntegralY(cdf, v) < IntegralY(cdf, 0.0)
  {
    hide IntegralY, Value, Accepted, OnCurve, Between;
    var x;
    x, v := NegativeStart(cdf);
    ValueOnCurve(cdf, v);
    CurveRises(cdf, x, v, Value(cdf, v), v);
    IntegralIsIntegral(cdf, 0.0, v);
    BetweenNegative(v, Value(cdf, 0.0), 100.0 * (IntegralY(cdf, v) - IntegralY(cdf, 0.0)), x);
  }

  lemma BetweenNegative(w: real, low: real, area: real, high: real)
    requires Between(w, low, area, high) && w > 0.0 && high < 0.0
    ensures area < 0.0
  {
    assert w * high < 0.0;
  }

  /** It starts at 0, ends at the average, and grows with the percentile if and only if no value is
      negative. */
  lemma IntegralRises(cdf: seq<Point>)
    requires Accepted(cdf)
    ensures IntegralY(cdf, 0.0) == 0.0 && IntegralY(cdf, 100.0) == Average(cdf)
    ensures forall y :: y > 100.0 ==> IntegralY(cdf, y) == Average(cdf)
    ensures (forall y, v :: 0.0 <= y <= v <= 100.0 ==> IntegralY(cdf, y) <= IntegralY(cdf, v)) <==> cdf[0].x >= 0.0
  {
    assert forall y :: y > 100.0 ==> IntegralY(cdf, y) == Average(cdf);
    hide IntegralY, Value;
    IntegralStarts(cdf);
    IntegralEnds(cdf);
    if cdf[0].x >= 0.0 {
      forall y, v | 0.0 <= y <= v <= 100.0 ensures IntegralY(cdf, y) <= IntegralY(cdf, v) {
        IntegralGrows(cdf, y, v);
      }
    } else {
      var v := IntegralFalls(cdf);
      assert !(IntegralY(cdf, 0.0) <= IntegralY(cdf, v));
    }
  }

  class CustomRand {
    var cdf: seq<Point>

    ghost predicate Valid()
      reads this
    {
      Accepted(cdf)
    }

    constructor ()
    {
      cdf := [];
    }

    /** An empty list raises an exception in the source. */
    method TestCdf(cdf: seq<Point>) returns (ok: bool)
      requires |cdf| > 0
      ensures ok <==> Accepted(cdf)
    {
      if cdf[0].y != 0.0 { return false; }
      if cdf[|cdf|-1].y != 100.0 { return false; }
      for i := 1 to |cdf|
        invariant forall j :: 1 <= j < i ==> Rises(cdf[j - 1], cdf[j])
      {
        if cdf[i].y <= cdf[i - 1].y || cdf[i].x <= cdf[i - 1].x {
          assert !Rises(cdf[i - 1], cdf[i]);
          return false;
        }
      }
      return true;
    }

    method SetCdf(cdf: seq<Point>) returns (ok: bool)
      requires |cdf| > 0
      modifies this
      ensures ok <==> Accepted(cdf)
      ensures this.cdf == if ok then cdf else old(this.cdf)
      ensures ok ==> Valid()
    {
      ok := TestCdf(cdf);
      if ok { this.cdf := cdf; }
    }

    method GetAvg() returns (avg: real)
      requires Valid()
      ensures avg == Average(cdf)
    {
      var s, lastX, lastY := 0.0, cdf[0].x, cdf[0].y;
      for i := 1 to |cdf|
        invariant Point(lastX, lastY) == cdf[i - 1] && s == Area(cdf, i - 1)
      {
        var c := cdf[i];
        s := s + (c.x + lastX) / 2.0 * (c.y - lastY);
        lastX, lastY := c.x, c.y;
      }
      return s / 100.0;
    }

    /** The percentile of a value in the range; -1 above it and below 0. */
    method GetPercentileFromValue(x: real) returns (y: real)
      requires Valid()
      ensures y == Percentile(cdf, x)
      ensures cdf[0].x <= x <= cdf[|cdf|-1].x && 0.0 <= x ==> OnCurve(cdf, x, y)
      ensures x < 0.0 || cdf[|cdf|-1].x < x ==> y == -1.0
    {
      hide PercentileOn, OnCurve;
      TwoPoints(cdf);
      if cdf[0].x <= x <= cdf[|cdf|-1].x && 0.0 <= x { PercentileOnCurve(cdf, x); }
      if x < 0.0 || x > cdf[|cdf|-1].x { return -1.0; }
      var i := 1;
      while x > cdf[i].x
        invariant 1 <= i < |cdf| && PieceAt(cdf, x, 1) == PieceAt(cdf, x, i)
        decreases |cdf| - i
      {
        i := i + 1;
      }
      assert Rises(cdf[i - 1], cdf[i]);
      return PercentileOn(cdf[i - 1], cdf[i], x);
    }

    /** The value at a percentile; nothing is returned above 100. */
    method GetValueFromPercentile(y: real) returns (x: Option<real>)
      requires Valid()
      ensures x.Some? <==> y <= 100.0
      ensures x.Some? ==> x.value == Value(cdf, y) && (0.0 <= y ==> OnCurve(cdf, x.value, y))
    {
      hide ValueOn, OnCurve;
      TwoPoints(cdf);
      if 0.0 <= y <= 100.0 { ValueOnCurve(cdf, y); }
      for i := 1 to |cdf|
        invariant forall j :: 1 <= j < i ==> cdf[j].y < y
        invariant i < |cdf| && y <= 100.0 ==> PieceOf(cdf, y, 1) == PieceOf(cdf, y, i)
      {
        if y <= cdf[i].y {
          UpToHundred(cdf, i);
          assert Rises(cdf[i - 1], cdf[i]);
          return Some(ValueOn(cdf[i - 1], cdf[i], y));
        }
      }
      return None;
    }

    /** The area under the values up to a percentile, in percent. */
    method GetIntegralY(y: real) returns (s: real)
      requires Valid()
      ensures s == IntegralY(cdf, y)
    {
      hide ValueOn, Area, Trapezoid;
      TwoPoints(cdf);
      s := 0.0;
      AreaOfNone(cdf);
      for i := 1 to |cdf|
        invariant s == Area(cdf, i - 1) / 100.0
        invariant forall j :: 1 <= j < i ==> cdf[j].y < y
        invariant i < |cdf| && y <= 100.0 ==> PieceOf(cdf, y, 1) == PieceOf(cdf, y, i)
      {
        var a, b := cdf[i - 1], cdf[i];
        assert Rises(a, b);
        UpToHundred(cdf, i);
        AreaOfNext(cdf, i);
        if y <= b.y {
          var x := ValueOn(a, b, y);
          s := s + 0.5 * (a.x + x) * (y - a.y) / 100.0;
          HalfSum(a, x, y);
          return;
        } else {
          s := s + 0.5 * (b.x + a.x) * (b.y - a.y) / 100.0;
          HalfSum(a, b.x, b.y);
        }
      }
    }
  }

  lemma UpToHundred(cdf: seq<Point>, i: nat)
    requires Accepted(cdf) && i < |cdf|
    ensures cdf[i].y <= 100.0
  {
    if i < |cdf| - 1 { RisesFar(cdf, i, |cdf| - 1); }
  }

  lemma AreaOfNone(cdf: seq<Point>)
    requires |cdf| > 0
    ensures Area(cdf, 0) == 0.0
  {
  }

  lemma AreaOfNext(cdf: seq<Point>, i: nat)
    requires 1 <= i < |cdf|
    ensures Area(cdf, i) == Area(cdf, i - 1) + Trapezoid(cdf[i - 1], cdf[i].x, cdf[i].y)
  {
  }

  lemma HalfSum(a: Point, x: real, y: real)
    ensures 0.5 * (a.x + x) * (y - a.y) / 100.0 == Trapezoid(a, x, y) / 100.0
    ensures 0.5 * (x + a.x) * (y - a.y) / 100.0 == Trapezoid(a, x, y) / 100.0
  {
  }
}
