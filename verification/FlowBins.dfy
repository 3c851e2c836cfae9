/** The bins of flow sizes of traffic_gen/flow_bins.py: values a percentile apart, or half the
    value where that is less far. */
module FlowBins {
  import opened Distribution
  import opened CustomRand

  // Python's int() cuts towards 0.
  function Int(v: real): (n: int)
    ensures v >= 0.0 ==> n as real <= v < n as real + 1.0
    ensures v <= 0.0 ==> n as real - 1.0 < v <= n as real
  {
    if v >= 0.0 then v.Floor else -((-v).Floor)
  }

  function Ceiling(p: real): (n: int)
    ensures n as real - 1.0 < p <= n as real
  {
    -((-p).Floor)
  }

  // x is the value at percentile p, made an integer.
  ghost predicate At(cdf: seq<Point>, p: real, x: int)
    requires Accepted(cdf)
  {
    1.0 <= p <= 100.0 && x == Int(Value(cdf, p))
  }

  // One percentile below p, but not below 1.
  function Below(p: real): real { if p > 2.0 then p - 1.0 else 1.0 }

  /* One step from percentile p and the size there: to the size one percentile below, or to half
     the size if that is a size above 1000 and the half is not reached so soon. */

  ghost function NextSize(cdf: seq<Point>, p: real, size: int): int
    requires Accepted(cdf) && 1.0 < p <= 100.0
  {
    var lower := Int(Value(cdf, Below(p)));
    if size > 1000 && size / 2 > lower then size / 2 else lower
  }

  ghost function NextPercentile(cdf: seq<Point>, p: real, size: int): real
    requires Accepted(cdf) && 1.0 < p <= 100.0
  {
    if size > 1000 && size / 2 > Int(Value(cdf, Below(p))) then Percentile(cdf, (size / 2) as real) else Below(p)
  }

  lemma StepDown(cdf: seq<Point>, p: real, size: int)
    requires Accepted(cdf) && At(cdf, p, size) && p > 1.0
    ensures var q := NextPercentile(cdf, p, size);
      && At(cdf, q, NextSize(cdf, p, size)) && p - 1.0 <= q < p && NextSize(cdf, p, size) <= size
      && (Ceiling(q) < Ceiling(p) || (Ceiling(q) == Ceiling(p) && size > 0 && NextSize(cdf, p, size) < size))
      && Ceiling(q) >= 0
  {
    hide Value, Percentile, Int, Ceiling;
    CeilingSteps(p, Below(p));
    LowerPercentile(cdf, p, size, Below(p));
    if size > 1000 && size / 2 > Int(Value(cdf, Below(p))) {
      HalfWay(cdf, p, size, Below(p));
      CeilingSteps(p, NextPercentile(cdf, p, size));
    }
    CeilingPositive(NextPercentile(cdf, p, size));
  }

  lemma CeilingPositive(p: real)
    ensures p >= 0.0 ==> Ceiling(p) >= 0
  {
  }

  /** The sizes that steps from p lead through, as long as they are positive, down to 1 percent. */
  ghost function Sizes(cdf: seq<Point>, p: real, size: int): seq<int>
    requires Accepted(cdf) && At(cdf, p, size)
    decreases Ceiling(p), size
  {
    if size <= 0 then []
    else if p <= 1.0 then [size]
    else
      StepDown(cdf, p, size);
      [size] + Sizes(cdf, NextPercentile(cdf, p, size), NextSize(cdf, p, size))
  }

  // Without immediate repetitions.
  function Squeezed(s: seq<int>): seq<int> {
    if s == [] then []
    else
      var init, last := s[..|s|-1], s[|s|-1];
      if init != [] && init[|init|-1] == last then Squeezed(init) else Squeezed(init) + [last]
  }

  lemma {:induction false} SqueezedLast(s: seq<int>)
    ensures s == [] <==> Squeezed(s) == []
    ensures s != [] ==> Squeezed(s)[|Squeezed(s)|-1] == s[|s|-1]
  {
    if s != [] { SqueezedLast(s[..|s|-1]); }
  }

  lemma SqueezedSnoc(s: seq<int>, x: int)
    ensures Squeezed(s + [x]) == if s != [] && s[|s|-1] == x then Squeezed(s) else Squeezed(s) + [x]
  {
    var q := s + [x];
    assert q[..|q|-1] == s && q[|q|-1] == x;
    SqueezedUnfold(q);
    hide Squeezed;
  }

  lemma SqueezedUnfold(s: seq<int>)
    requires s != []
    ensures var init, last := s[..|s|-1], s[|s|-1];
      Squeezed(s) == if init != [] && init[|init|-1] == last then Squeezed(init) else Squeezed(init) + [last]
  {
  }

  // The size at q follows that at p, at most one percentile lower.
  ghost predicate Follows(cdf: seq<Point>, p: real, big: int, q: real, small: int)
    requires Accepted(cdf)
  {
    && At(cdf, p, big) && At(cdf, q, small) && p - 1.0 <= q < p
    && var lower := Int(Value(cdf, if p > 2.0 then p - 1.0 else 1.0));
       small == if big > 1000 && big / 2 > lower then big / 2 else lower
  }

  // Two neighbouring bins.
  ghost predicate Linked(cdf: seq<Point>, big: int, small: int)
    requires Accepted(cdf)
  {
    small < big && exists p, q :: Follows(cdf, p, big, q, small)
  }

  // From any size above 1000 the next is at least half of it.
  lemma NeverBelowHalf(cdf: seq<Point>, big: int, small: int)
    requires Accepted(cdf) && Linked(cdf, big, small) && big > 1000
    ensures small >= big / 2
  {
    hide Value, Int;
    var p, q :| Follows(cdf, p, big, q, small);
  }

  lemma IntRises(u: real, v: real)
    requires u <= v
    ensures Int(u) <= Int(v)
  {
  }

  // A smaller percentile down to 1 gives no greater size.
  lemma LowerPercentile(cdf: seq<Point>, p: real, x: int, q: real)
    requires Accepted(cdf) && At(cdf, p, x) && 1.0 <= q <= p
    ensures At(cdf, q, Int(Value(cdf, q))) && Int(Value(cdf, q)) <= x
  {
    if q < p { ReadingsRise(cdf); }
    IntRises(Value(cdf, q), Value(cdf, p));
  }

  // Half the size lies at a percentile between those of two sizes around it.
  lemma HalfWay(cdf: seq<Point>, p: real, x: int, q: real)
    requires Accepted(cdf) && At(cdf, p, x) && 1.0 <= q < p && x > 1000 && Int(Value(cdf, q)) < x / 2
    ensures var half := Percentile(cdf, (x / 2) as real); q < half < p && At(cdf, half, x / 2)
  {
    var h := (x / 2) as real;
    var u, v := Value(cdf, q), Value(cdf, p);
    assert u < h < v;
    ValueOnCurve(cdf, q);
    ValueOnCurve(cdf, p);
    CurveRange(cdf, u, q);
    CurveRange(cdf, v, p);
    PercentileOnCurve(cdf, h);
    var half := Percentile(cdf, h);
    CurveRises(cdf, u, q, h, half);
    CurveRises(cdf, h, half, v, p);
    ValueOfPercentile(cdf, h);
  }

  lemma CeilingSteps(p: real, q: real)
    ensures q <= p ==> Ceiling(q) <= Ceiling(p)
    ensures q == p - 1.0 ==> Ceiling(q) == Ceiling(p) - 1
    ensures 1.0 < p <= 2.0 ==> Ceiling(p) == 2 && Ceiling(1.0) == 1
    ensures p >= 1.0 ==> Ceiling(p) >= 1
  {
  }

  /** The loop ends whatever the distribution, the error it looks for never comes up (ok), and the
      bins are the sizes that the steps from 100 percent down lead through, each once: they fall
      strictly, from the greatest value to the value at one percent. */
  method BuildBins(rand: CustomRand) returns (ok: bool, bins: seq<int>)
    requires rand.Valid()
    ensures ok
    ensures At(rand.cdf, 100.0, Int(Value(rand.cdf, 100.0)))
    ensures bins == Squeezed(Sizes(rand.cdf, 100.0, Int(Value(rand.cdf, 100.0))))
    ensures forall k :: 0 <= k < |bins| ==> bins[k] > 0
    ensures forall k :: 0 < k < |bins| ==> Linked(rand.cdf, bins[k - 1], bins[k])
    ensures var top := Int(rand.cdf[|rand.cdf|-1].x); if top > 0 then bins != [] && bins[0] == top else bins == []
    ensures var low := Int(Value(rand.cdf, 1.0)); low > 0 ==> bins != [] && bins[|bins|-1] == low
  {
    hide Value, Percentile, Int, Ceiling, OnCurve, Sizes, Squeezed, Linked, NextSize, NextPercentile, Follows, Chain;
    ghost var cdf := rand.cdf;
    ghost var passed: seq<int> := [];
    NoSizes();
    NoBins(cdf);
    ok, bins := true, [];
    var top := rand.GetValueFromPercentile(100.0);
    var x, p := Int(top.value), 100.0;
    Top(cdf);
    while x > 0
      invariant At(cdf, p, x) && ok
      invariant Sizes(cdf, 100.0, Int(Value(cdf, 100.0))) == passed + Sizes(cdf, p, x)
      invariant bins == Squeezed(passed)
      invariant Chain(cdf, bins)
      invariant if bins == [] then x == Int(cdf[|cdf|-1].x) else x == bins[|bins|-1] || Linked(cdf, bins[|bins|-1], x)
      decreases Ceiling(p), x
    {
      SqueezedLast(passed);
      SqueezedSnoc(passed, x);
      SizesFrom(cdf, p, x, passed);
      passed := passed + [x];
      if |bins| == 0 || x != bins[|bins|-1] {
        ChainMore(cdf, bins, x);
        bins := bins + [x];
      }
      var p1: real;
      if p > 2.0 {
        p1 := p - 1.0;
      } else if p > 1.0 {
        p1 := 1.0;
      } else {
        break;
      }
      CeilingSteps(p, p1);
      LowerPercentile(cdf, p, x, p1);
      var v1 := rand.GetValueFromPercentile(p1);
      var x1 := Int(v1.value);
      if x1 < x / 2 && x > 1000 {
        HalfWay(cdf, p, x, p1);
        x1 := x / 2;
        p1 := rand.GetPercentileFromValue(x1 as real);
        CeilingSteps(p, p1);
      }
      StepIs(cdf, p, x, p1, x1);
      if p1 < 0.0 {
        ok := false;
        break;
      }
      NowLinked(cdf, p, x, p1, x1);
      x, p := x1, p1;
    }
    SizesFrom(cdf, p, x, passed);
    LowerPercentile(cdf, p, x, 1.0);
    ChainIs(cdf, bins);
  }

  // Bins from the greatest value on, each linked to the next.
  ghost predicate Chain(cdf: seq<Point>, bins: seq<int>)
    requires Accepted(cdf)
  {
    && (forall k :: 0 <= k < |bins| ==> bins[k] > 0)
    && (forall k :: 0 < k < |bins| ==> Linked(cdf, bins[k - 1], bins[k]))
    && (bins != [] ==> bins[0] == Int(cdf[|cdf|-1].x))
  }

  lemma ChainMore(cdf: seq<Point>, bins: seq<int>, x: int)
    requires Accepted(cdf) && Chain(cdf, bins) && x > 0
    requires if bins == [] then x == Int(cdf[|cdf|-1].x) else Linked(cdf, bins[|bins|-1], x)
    ensures Chain(cdf, bins + [x])
  {
    hide Linked, Int;
  }

  lemma ChainIs(cdf: seq<Point>, bins: seq<int>)
    requires Accepted(cdf) && Chain(cdf, bins)
    ensures forall k :: 0 <= k < |bins| ==> bins[k] > 0
    ensures forall k :: 0 < k < |bins| ==> Linked(cdf, bins[k - 1], bins[k])
    ensures bins != [] ==> bins[0] == Int(cdf[|cdf|-1].x)
  {
    hide Linked, Int;
  }

  lemma NoBins(cdf: seq<Point>)
    requires Accepted(cdf)
    ensures Chain(cdf, [])
  {
  }

  lemma NowLinked(cdf: seq<Point>, p: real, x: int, q: real, y: int)
    requires Accepted(cdf) && Follows(cdf, p, x, q, y)
    ensures y < x ==> Linked(cdf, x, y)
  {
  }

  // The step taken by the loop.
  lemma StepIs(cdf: seq<Point>, p: real, x: int, p1: real, x1: int)
    requires Accepted(cdf) && 1.0 < p <= 100.0 && At(cdf, p, x)
    requires var lower := Int(Value(cdf, Below(p)));
      if lower < x / 2 && x > 1000 then x1 == x / 2 && p1 == Percentile(cdf, (x / 2) as real) else x1 == lower && p1 == Below(p)
    ensures p1 == NextPercentile(cdf, p, x) && x1 == NextSize(cdf, p, x) && Follows(cdf, p, x, p1, x1)
  {
    hide Value, Percentile, Int, Ceiling;
    StepDown(cdf, p, x);
  }

  lemma NoSizes()
    ensures Squeezed([]) == []
  {
  }

  lemma SizesFrom(cdf: seq<Point>, p: real, x: int, passed: seq<int>)
    requires Accepted(cdf) && At(cdf, p, x)
    ensures x <= 0 ==> passed + Sizes(cdf, p, x) == passed
    ensures x > 0 && p <= 1.0 ==> passed + Sizes(cdf, p, x) == passed + [x]
    ensures x > 0 && p > 1.0 ==> At(cdf, NextPercentile(cdf, p, x), NextSize(cdf, p, x))
    ensures x > 0 && p > 1.0 ==>
              passed + Sizes(cdf, p, x) == passed + [x] + Sizes(cdf, NextPercentile(cdf, p, x), NextSize(cdf, p, x))
  {
    hide At, NextPercentile, NextSize;
    if x > 0 && p > 1.0 {
      StepDown(cdf, p, x);
    }
  }

  lemma Top(cdf: seq<Point>)
    requires Accepted(cdf)
    ensures Value(cdf, 100.0) == cdf[|cdf|-1].x
  {
    ValueOnCurve(cdf, 100.0);
    EndsOnCurve(cdf);
    CurveRises(cdf, Value(cdf, 100.0), 100.0, cdf[|cdf|-1].x, 100.0);
  }
}
