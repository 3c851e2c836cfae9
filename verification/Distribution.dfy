/** The piecewise-linear distribution of traffic_gen/custom_rand.py, over real numbers: values and
    percentiles are two readings of one increasing curve. */
module Distribution {

  // Percentile y of the distribution lies at value x.
  datatype Point = Point(x: real, y: real)

  // What testCdf accepts: from 0 to 100 percent, values and percentiles strictly increasing.
  predicate Accepted(cdf: seq<Point>) {
    && |cdf| >= 1 && cdf[0].y == 0.0 && cdf[|cdf|-1].y == 100.0
    && forall i :: 1 <= i < |cdf| ==> Rises(cdf[i - 1], cdf[i])
  }

  predicate Rises(a: Point, b: Point) { a.x < b.x && a.y < b.y }

  lemma {:induction false} RisesFar(cdf: seq<Point>, i: nat, j: nat)
    requires Accepted(cdf) && i < j < |cdf|
    ensures Rises(cdf[i], cdf[j])
    decreases j
  {
    assert Rises(cdf[j - 1], cdf[j]);
    if i < j - 1 { RisesFar(cdf, i, j - 1); }
  }

  lemma TwoPoints(cdf: seq<Point>)
    requires Accepted(cdf)
    ensures |cdf| >= 2
  {
  }

  /* The curve. */

  predicate OnLine(a: Point, b: Point, x: real, y: real) {
    (x - a.x) * (b.y - a.y) == (y - a.y) * (b.x - a.x)
  }

  predicate OnPiece(a: Point, b: Point, x: real, y: real) {
    a.x <= x <= b.x && a.y <= y <= b.y && OnLine(a, b, x, y)
  }

  ghost predicate OnCurve(cdf: seq<Point>, x: real, y: real) {
    exists i :: 1 <= i < |cdf| && OnPiece(cdf[i - 1], cdf[i], x, y)
  }

  function ValueOn(a: Point, b: Point, y: real): real
    requires a.y != b.y
  {
    a.x + (b.x - a.x) / (b.y - a.y) * (y - a.y)
  }

  function PercentileOn(a: Point, b: Point, x: real): real
    requires a.x != b.x
  {
    a.y + (b.y - a.y) / (b.x - a.x) * (x - a.x)
  }

  lemma Scale(n: real, d: real, k: real)
    requires d != 0.0
    ensures n / d * k * d == k * n
  {
    assert n / d * k * d == (n / d * d) * k;
  }

  lemma Order(u: real, v: real, s: real, t: real)
    requires u * s == v * t && s > 0.0 && t > 0.0
    ensures (u > 0.0 <==> v > 0.0) && (u == 0.0 <==> v == 0.0) && (u < 0.0 <==> v < 0.0)
  {
    if u > 0.0 { assert u * s > 0.0; } else if u < 0.0 { assert u * s < 0.0; }
    if v > 0.0 { assert v * t > 0.0; } else if v < 0.0 { assert v * t < 0.0; }
  }

  // Two points of one line: the further right, the higher.
  lemma LineRises(a: Point, b: Point, x: real, y: real, u: real, v: real)
    requires Rises(a, b) && OnLine(a, b, x, y) && OnLine(a, b, u, v)
    ensures (x < u <==> y < v) && (x == u <==> y == v)
  {
    var dx, dy := b.x - a.x, b.y - a.y;
    assert (u - x) * dy == (v - y) * dx by {
      assert (u - x) * dy == (u - a.x) * dy - (x - a.x) * dy;
      assert (v - y) * dx == (v - a.y) * dx - (y - a.y) * dx;
    }
    Order(u - x, v - y, dy, dx);
  }

  lemma EndsOnLine(a: Point, b: Point)
    ensures OnLine(a, b, a.x, a.y) && OnLine(a, b, b.x, b.y)
  {
  }

  lemma ValueOnLine(a: Point, b: Point, y: real)
    requires Rises(a, b)
    ensures var x := ValueOn(a, b, y); OnLine(a, b, x, y) && (a.y <= y <= b.y ==> OnPiece(a, b, x, y))
  {
    Scale(b.x - a.x, b.y - a.y, y - a.y);
    EndsOnLine(a, b);
    var x := ValueOn(a, b, y);
    LineRises(a, b, a.x, a.y, x, y);
    LineRises(a, b, x, y, b.x, b.y);
  }

  lemma PercentileOnLine(a: Point, b: Point, x: real)
    requires Rises(a, b)
    ensures var y := PercentileOn(a, b, x); OnLine(a, b, x, y) && (a.x <= x <= b.x ==> OnPiece(a, b, x, y))
  {
    Scale(b.y - a.y, b.x - a.x, x - a.x);
    EndsOnLine(a, b);
    var y := PercentileOn(a, b, x);
    LineRises(a, b, a.x, a.y, x, y);
    LineRises(a, b, x, y, b.x, b.y);
  }

  // A point on a piece, and one on the same or a later piece.
  lemma PiecesRise(cdf: seq<Point>, i: nat, j: nat, x: real, y: real, u: real, v: real)
    requires Accepted(cdf) && 1 <= i <= j < |cdf|
    requires OnPiece(cdf[i - 1], cdf[i], x, y) && OnPiece(cdf[j - 1], cdf[j], u, v)
    ensures (x < u <==> y < v) && (x == u <==> y == v)
  {
    assert Rises(cdf[i - 1], cdf[i]) && Rises(cdf[j - 1], cdf[j]);
    if i == j {
      LineRises(cdf[i - 1], cdf[i], x, y, u, v);
    } else {
      EndsOnLine(cdf[i - 1], cdf[i]);
      EndsOnLine(cdf[j - 1], cdf[j]);
      LineRises(cdf[i - 1], cdf[i], x, y, cdf[i].x, cdf[i].y);
      LineRises(cdf[j - 1], cdf[j], cdf[j - 1].x, cdf[j - 1].y, u, v);
      if i < j - 1 { RisesFar(cdf, i, j - 1); }
    }
  }

  /** The curve rises strictly: of two of its points the one at the greater value has the greater
      percentile, and the other way round. */
  lemma CurveRises(cdf: seq<Point>, x: real, y: real, u: real, v: real)
    requires Accepted(cdf) && OnCurve(cdf, x, y) && OnCurve(cdf, u, v)
    ensures (x < u <==> y < v) && (x == u <==> y == v)
  {
    var i :| 1 <= i < |cdf| && OnPiece(cdf[i - 1], cdf[i], x, y);
    var j :| 1 <= j < |cdf| && OnPiece(cdf[j - 1], cdf[j], u, v);
    if i <= j {
      PiecesRise(cdf, i, j, x, y, u, v);
    } else {
      PiecesRise(cdf, j, i, u, v, x, y);
    }
  }

  /* Reading it. */

  // The first piece that reaches percentile y, from piece i on.
  function PieceOf(cdf: seq<Point>, y: real, i: nat): (k: nat)
    requires 1 <= i < |cdf| && y <= cdf[|cdf|-1].y
    ensures i <= k < |cdf| && y <= cdf[k].y && forall j :: i <= j < k ==> cdf[j].y < y
    decreases |cdf| - i
  {
    if y <= cdf[i].y then i else PieceOf(cdf, y, i + 1)
  }

  function PieceAt(cdf: seq<Point>, x: real, i: nat): (k: nat)
    requires 1 <= i < |cdf| && x <= cdf[|cdf|-1].x
    ensures i <= k < |cdf| && x <= cdf[k].x && forall j :: i <= j < k ==> cdf[j].x < x
    decreases |cdf| - i
  {
    if x <= cdf[i].x then i else PieceAt(cdf, x, i + 1)
  }

  // Below percentile 0 the first piece is continued.
  function Value(cdf: seq<Point>, y: real): real
    requires Accepted(cdf) && y <= 100.0
  {
    TwoPoints(cdf);
    var k := PieceOf(cdf, y, 1);
    ValueOn(cdf[k - 1], cdf[k], y)
  }

  // Below the first value, down to 0, the first piece is continued; -1 marks values out of range.
  function Percentile(cdf: seq<Point>, x: real): real
    requires Accepted(cdf)
  {
    TwoPoints(cdf);
    if x < 0.0 || x > cdf[|cdf|-1].x then -1.0
    else
      var k := PieceAt(cdf, x, 1);
      PercentileOn(cdf[k - 1], cdf[k], x)
  }

  /** The value at a percentile lies on the curve. */
  lemma ValueOnCurve(cdf: seq<Point>, y: real)
    requires Accepted(cdf) && 0.0 <= y <= 100.0
    ensures OnCurve(cdf, Value(cdf, y), y)
  {
    TwoPoints(cdf);
    var k := PieceOf(cdf, y, 1);
    assert k > 1 ==> cdf[k - 1].y < y;
    assert Rises(cdf[k - 1], cdf[k]);
    ValueOnLine(cdf[k - 1], cdf[k], y);
  }

  /** So does the percentile of a value within the range, unless it is negative. */
  lemma PercentileOnCurve(cdf: seq<Point>, x: real)
    requires Accepted(cdf) && cdf[0].x <= x <= cdf[|cdf|-1].x && 0.0 <= x
    ensures OnCurve(cdf, x, Percentile(cdf, x))
  {
    TwoPoints(cdf);
    var k := PieceAt(cdf, x, 1);
    assert k > 1 ==> cdf[k - 1].x < x;
    assert Rises(cdf[k - 1], cdf[k]);
    PercentileOnLine(cdf[k - 1], cdf[k], x);
  }

  lemma CurveRange(cdf: seq<Point>, x: real, y: real)
    requires Accepted(cdf) && OnCurve(cdf, x, y)
    ensures cdf[0].x <= x <= cdf[|cdf|-1].x && 0.0 <= y <= 100.0
  {
    var i :| 1 <= i < |cdf| && OnPiece(cdf[i - 1], cdf[i], x, y);
    if 0 < i - 1 { RisesFar(cdf, 0, i - 1); }
    if i < |cdf| - 1 { RisesFar(cdf, i, |cdf| - 1); }
  }

  lemma EndsOnCurve(cdf: seq<Point>)
    requires Accepted(cdf)
    ensures OnCurve(cdf, cdf[0].x, 0.0) && OnCurve(cdf, cdf[|cdf|-1].x, 100.0)
  {
    TwoPoints(cdf);
    var n := |cdf| - 1;
    assert Rises(cdf[0], cdf[1]) && Rises(cdf[n - 1], cdf[n]);
    EndsOnLine(cdf[0], cdf[1]);
    EndsOnLine(cdf[n - 1], cdf[n]);
    assert OnPiece(cdf[1 - 1], cdf[1], cdf[0].x, 0.0);
    assert OnPiece(cdf[n - 1], cdf[n], cdf[n].x, 100.0);
  }

  /** Both readings rise strictly. */
  lemma ReadingsRise(cdf: seq<Point>)
    requires Accepted(cdf)
    ensures forall y, v :: 0.0 <= y < v <= 100.0 ==> Value(cdf, y) < Value(cdf, v)
    ensures forall x, u :: cdf[0].x <= x < u <= cdf[|cdf|-1].x && 0.0 <= x ==> Percentile(cdf, x) < Percentile(cdf, u)
  {
    forall y, v | 0.0 <= y < v <= 100.0 ensures Value(cdf, y) < Value(cdf, v) {
      ValueOnCurve(cdf, y);
      ValueOnCurve(cdf, v);
      CurveRises(cdf, Value(cdf, y), y, Value(cdf, v), v);
    }
    forall x, u | cdf[0].x <= x < u <= cdf[|cdf|-1].x && 0.0 <= x ensures Percentile(cdf, x) < Percentile(cdf, u) {
      PercentileOnCurve(cdf, x);
      PercentileOnCurve(cdf, u);
      CurveRises(cdf, x, Percentile(cdf, x), u, Percentile(cdf, u));
    }
  }

  /** From a value within the range to its percentile and back. */
  lemma ValueOfPercentile(cdf: seq<Point>, x: real)
    requires Accepted(cdf) && cdf[0].x <= x <= cdf[|cdf|-1].x && 0.0 <= x
    ensures 0.0 <= Percentile(cdf, x) <= 100.0 && Value(cdf, Percentile(cdf, x)) == x
  {
    var y := Percentile(cdf, x);
    PercentileOnCurve(cdf, x);
    CurveRange(cdf, x, y);
    ValueOnCurve(cdf, y);
    CurveRises(cdf, x, y, Value(cdf, y), y);
  }

  lemma PercentileOfValue(cdf: seq<Point>, y: real)
    requires Accepted(cdf) && 0.0 <= y <= 100.0 && Value(cdf, y) >= 0.0
    ensures Percentile(cdf, Value(cdf, y)) == y
  {
    var x := Value(cdf, y);
    ValueOnCurve(cdf, y);
    CurveRange(cdf, x, y);
    PercentileOnCurve(cdf, x);
    CurveRises(cdf, x, y, x, Percentile(cdf, x));
  }

  /** From a percentile to its value and back, for all percentiles if and only if the first value
      is not negative. */
  lemma InverseIffNonNegative(cdf: seq<Point>)
    requires Accepted(cdf)
    ensures (forall y :: 0.0 <= y <= 100.0 ==> Percentile(cdf, Value(cdf, y)) == y) <==> cdf[0].x >= 0.0
  {
    EndsOnCurve(cdf);
    ValueOnCurve(cdf, 0.0);
    CurveRises(cdf, cdf[0].x, 0.0, Value(cdf, 0.0), 0.0);
    if cdf[0].x >= 0.0 {
      forall y | 0.0 <= y <= 100.0 ensures Percentile(cdf, Value(cdf, y)) == y {
        ValueOnCurve(cdf, y);
        CurveRange(cdf, Value(cdf, y), y);
        PercentileOfValue(cdf, y);
      }
    }
  }
}
