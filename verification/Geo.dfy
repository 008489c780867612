/**
  Fusion of two accuracy circles (internal/geo/geo.go).

  Distances and radii are real numbers.  The square root is a parameter: what a caller must
  know about it is that it is the non-negative root of the one number it is applied to.
  */
module Geo {

  function Abs(v: real): real {
    if v < 0.0 then -v else v
  }

  function Min(a: real, b: real): real {
    if a <= b then a else b
  }

  function Max(a: real, b: real): real {
    if a >= b then a else b
  }

  predicate IsRoot(h: real, v: real) {
    h >= 0.0 && h * h == v
  }

  /** Neither circle contains the other, and they meet. */
  predicate Crossing(d: real, r1: real, r2: real) {
    Abs(r1 - r2) < d <= r1 + r2
  }

  /** Where the common chord cuts the line of centres, measured from the first centre. */
  function ChordOffset(d: real, r1: real, r2: real): real
    requires d != 0.0
  {
    (d * d + r1 * r1 - r2 * r2) / (2.0 * d)
  }

  function HalfChordSquared(d: real, r1: real, r2: real): real
    requires d != 0.0
  {
    r1 * r1 - ChordOffset(d, r1, r2) * ChordOffset(d, r1, r2)
  }

  function ChordAccuracy(d: real, r1: real, r2: real, minAccuracy: real, sqrt: real -> real): real {
    if d <= Abs(r1 - r2) then
      Max(Min(r1, r2), minAccuracy)
    else if d > r1 + r2 then
      Max(Min(r1, r2), minAccuracy)
    else
      Max(sqrt(Max(0.0, HalfChordSquared(d, r1, r2))), minAccuracy)
  }

  /** `sqrt` is right on the one number ChordAccuracy may apply it to. */
  predicate RootFor(sqrt: real -> real, d: real, r1: real, r2: real) {
    Crossing(d, r1, r2) ==>
      var v := Max(0.0, HalfChordSquared(d, r1, r2));
      IsRoot(sqrt(v), v)
  }

  // ---------- algebra ----------

  lemma OffsetTimesDistance(d: real, r1: real, r2: real)
    requires d != 0.0
    ensures 2.0 * d * ChordOffset(d, r1, r2) == d * d + r1 * r1 - r2 * r2
  {
  }

  /** Heron's factors: the squared chord is a product of the four tangency gaps. */
  lemma HalfChordFactors(d: real, r1: real, r2: real)
    requires d != 0.0
    ensures 4.0 * (d * d) * HalfChordSquared(d, r1, r2)
         == ((r1 + r2) * (r1 + r2) - d * d) * (d * d - (r1 - r2) * (r1 - r2))
  {
    var x := ChordOffset(d, r1, r2);
    var n := d * d + r1 * r1 - r2 * r2;
    OffsetTimesDistance(d, r1, r2);
    assert 4.0 * (d * d) * (x * x) == n * n by {
      assert (2.0 * d * x) * (2.0 * d * x) == 4.0 * (d * d) * (x * x);
    }
    var D, A, B := d * d, r1 * r1, r2 * r2;
    var p := r1 * r2;
    assert (r1 + r2) * (r1 + r2) == A + B + 2.0 * p;
    assert (r1 - r2) * (r1 - r2) == A + B - 2.0 * p;
    assert p * p == A * B;
    assert 4.0 * D * A - (D + A - B) * (D + A - B)
        == (A + B + 2.0 * p - D) * (D - (A + B - 2.0 * p));
  }

  lemma SquareGrows(a: real, b: real)
    requires 0.0 <= a < b
    ensures a * a < b * b
  {
    assert b * b - a * a == (b - a) * (b + a);
    ProductSign(b - a, b + a);
  }

  lemma ProductSign(a: real, b: real)
    ensures a > 0.0 ==> ((a * b > 0.0 <==> b > 0.0) && (a * b >= 0.0 <==> b >= 0.0) && (a * b == 0.0 <==> b == 0.0))
  {
  }

  /** The two tangency gaps of a crossing are non-negative and only the outer one can vanish. */
  lemma CrossingGaps(d: real, r1: real, r2: real)
    requires r1 >= 0.0 && r2 >= 0.0 && Crossing(d, r1, r2)
    ensures d > 0.0
    ensures d * d - (r1 - r2) * (r1 - r2) > 0.0
    ensures (r1 + r2) * (r1 + r2) - d * d >= 0.0
    ensures (r1 + r2) * (r1 + r2) - d * d == 0.0 <==> d == r1 + r2
  {
    var gap := Abs(r1 - r2);
    assert gap * gap == (r1 - r2) * (r1 - r2);
    SquareGrows(gap, d);
    if d < r1 + r2 {
      SquareGrows(d, r1 + r2);
    }
  }

  // ---------- geometry of a crossing ----------

  /** The clamp at zero never acts on a crossing, and the half-chord vanishes exactly at outer tangency. */
  lemma CrossingNeedsNoClamp(d: real, r1: real, r2: real)
    requires r1 >= 0.0 && r2 >= 0.0 && Crossing(d, r1, r2)
    ensures d > 0.0
    ensures HalfChordSquared(d, r1, r2) >= 0.0
    ensures HalfChordSquared(d, r1, r2) == 0.0 <==> d == r1 + r2
  {
    CrossingGaps(d, r1, r2);
    HalfChordFactors(d, r1, r2);
    var outer := (r1 + r2) * (r1 + r2) - d * d;
    var inner := d * d - (r1 - r2) * (r1 - r2);
    ProductSign(inner, outer);
    ProductSign(4.0 * (d * d), HalfChordSquared(d, r1, r2));
    assert outer * inner == inner * outer;
  }

  /** The chord's end points (x, h) and (x, -h) lie on both circles, centred at (0, 0) and (d, 0). */
  lemma ChordEndsOnBothCircles(d: real, r1: real, r2: real, h: real)
    requires d != 0.0
    requires h * h == HalfChordSquared(d, r1, r2)
    ensures var x := ChordOffset(d, r1, r2);
            && x * x + h * h == r1 * r1
            && (x - d) * (x - d) + h * h == r2 * r2
            && x * x + (-h) * (-h) == r1 * r1
            && (x - d) * (x - d) + (-h) * (-h) == r2 * r2
  {
    var x := ChordOffset(d, r1, r2);
    OffsetTimesDistance(d, r1, r2);
    assert (x - d) * (x - d) == x * x - 2.0 * d * x + d * d;
    assert (-h) * (-h) == h * h;
  }

  lemma HalfChordSymmetric(d: real, r1: real, r2: real)
    requires d != 0.0
    ensures HalfChordSquared(d, r1, r2) == HalfChordSquared(d, r2, r1)
  {
    var x := ChordOffset(d, r1, r2);
    var y := ChordOffset(d, r2, r1);
    assert x + y == d by {
      OffsetTimesDistance(d, r1, r2);
      OffsetTimesDistance(d, r2, r1);
      assert 2.0 * d * (x + y) == 2.0 * d * d;
      assert 2.0 * d * (x + y - d) == 0.0;
    }
    OffsetTimesDistance(d, r1, r2);
    assert y * y == (d - x) * (d - x) == d * d - 2.0 * d * x + x * x;
  }

  lemma BelowFirstRadius(d: real, r1: real, r2: real)
    requires d != 0.0
    ensures HalfChordSquared(d, r1, r2) <= r1 * r1
    ensures HalfChordSquared(d, r1, r2) == r1 * r1 <==> d * d == r2 * r2 - r1 * r1
  {
    var x := ChordOffset(d, r1, r2);
    OffsetTimesDistance(d, r1, r2);
    ProductSign(Abs(x), Abs(x));
    ProductSign(if d > 0.0 then 2.0 * d else -2.0 * d, if d > 0.0 then x else -x);
  }

  /** The half-chord never exceeds the smaller radius, and reaches it at exactly one distance. */
  lemma HalfChordPeak(d: real, r1: real, r2: real)
    requires d != 0.0 && r1 >= 0.0 && r2 >= 0.0
    ensures HalfChordSquared(d, r1, r2) <= Min(r1, r2) * Min(r1, r2)
    ensures HalfChordSquared(d, r1, r2) == Min(r1, r2) * Min(r1, r2)
       <==> d * d == Abs(r1 * r1 - r2 * r2)
  {
    if r1 <= r2 {
      BelowFirstRadius(d, r1, r2);
      if r1 < r2 { SquareGrows(r1, r2); }
    } else {
      BelowFirstRadius(d, r2, r1);
      HalfChordSymmetric(d, r1, r2);
      SquareGrows(r2, r1);
    }
  }

  /**
    Between two distances the half-chord grows exactly when their product is below |r1^2 - r2^2| and
    shrinks exactly when it is above: it rises strictly up to the peak of HalfChordPeak and falls after it.
    */
  lemma HalfChordRisesIff(d1: real, d2: real, r1: real, r2: real)
    requires 0.0 < d1 < d2
    ensures HalfChordSquared(d1, r1, r2) < HalfChordSquared(d2, r1, r2)
       <==> d1 * d2 < Abs(r1 * r1 - r2 * r2)
    ensures HalfChordSquared(d1, r1, r2) > HalfChordSquared(d2, r1, r2)
       <==> d1 * d2 > Abs(r1 * r1 - r2 * r2)
  {
    ScaledRise(d1, d2, r1, r2);
    SquareGrows(d1, d2);
    ProductSign(d1, d2);
    RiseSign(HalfChordSquared(d2, r1, r2) - HalfChordSquared(d1, r1, r2), d2 * d2 - d1 * d1, d1 * d2,
             r1 * r1 - r2 * r2);
  }

  lemma ScaledRise(d1: real, d2: real, r1: real, r2: real)
    requires d1 != 0.0 && d2 != 0.0
    ensures var p, k := d1 * d2, r1 * r1 - r2 * r2;
            4.0 * (p * p) * (HalfChordSquared(d2, r1, r2) - HalfChordSquared(d1, r1, r2))
            == (d2 * d2 - d1 * d1) * (k * k - p * p)
  {
    ExpandedHalfChord(d1, r1, r2);
    ExpandedHalfChord(d2, r1, r2);
    ScaledDifference(d1 * d1, d2 * d2, HalfChordSquared(d1, r1, r2), HalfChordSquared(d2, r1, r2),
                     2.0 * (r1 * r1 + r2 * r2), r1 * r1 - r2 * r2);
    assert (d1 * d1) * (d2 * d2) == (d1 * d2) * (d1 * d2);
  }

  lemma RiseSign(rise: real, spread: real, p: real, k: real)
    requires p > 0.0 && spread > 0.0
    requires 4.0 * (p * p) * rise == spread * (k * k - p * p)
    ensures rise > 0.0 <==> p < Abs(k)
    ensures rise < 0.0 <==> p > Abs(k)
  {
    var a := Abs(k);
    assert a * a == k * k;
    assert k * k - p * p == (a + p) * (a - p);
    ProductSign(a + p, a - p);
    ProductSign(spread, k * k - p * p);
    ProductSign(p, p);
    ProductSign(4.0 * (p * p), rise);
  }

  lemma ExpandedHalfChord(d: real, r1: real, r2: real)
    requires d != 0.0
    ensures 4.0 * (d * d) * HalfChordSquared(d, r1, r2)
         == 2.0 * (r1 * r1 + r2 * r2) * (d * d) - (d * d) * (d * d)
            - (r1 * r1 - r2 * r2) * (r1 * r1 - r2 * r2)
  {
    var x := ChordOffset(d, r1, r2);
    var n := d * d + r1 * r1 - r2 * r2;
    OffsetTimesDistance(d, r1, r2);
    assert 4.0 * (d * d) * (x * x) == n * n by {
      assert (2.0 * d * x) * (2.0 * d * x) == 4.0 * (d * d) * (x * x);
    }
    var D, A, B := d * d, r1 * r1, r2 * r2;
    assert 4.0 * D * A - (D + A - B) * (D + A - B) == 2.0 * (A + B) * D - D * D - (A - B) * (A - B);
  }

  lemma ScaledDifference(D1: real, D2: real, h1: real, h2: real, s: real, k: real)
    requires 4.0 * D1 * h1 == s * D1 - D1 * D1 - k * k
    requires 4.0 * D2 * h2 == s * D2 - D2 * D2 - k * k
    ensures 4.0 * (D1 * D2) * (h2 - h1) == (D2 - D1) * (k * k - D1 * D2)
  {
    assert 4.0 * (D1 * D2) * (h2 - h1) == D1 * (4.0 * D2 * h2) - D2 * (4.0 * D1 * h1);
  }

  // ---------- the accuracy itself ----------

  /** Every answer lies between the floor and the smaller radius (or the floor, when that is larger). */
  lemma AccuracyBounds(d: real, r1: real, r2: real, minAccuracy: real, sqrt: real -> real)
    requires r1 >= 0.0 && r2 >= 0.0
    requires RootFor(sqrt, d, r1, r2)
    ensures minAccuracy <= ChordAccuracy(d, r1, r2, minAccuracy, sqrt) <= Max(Min(r1, r2), minAccuracy)
  {
    if Crossing(d, r1, r2) {
      CrossingNeedsNoClamp(d, r1, r2);
      HalfChordPeak(d, r1, r2);
      var h := sqrt(HalfChordSquared(d, r1, r2));
      if h > Min(r1, r2) {
        SquareGrows(Min(r1, r2), h);
      }
    }
  }

  /**
    The answer reaches its upper bound in just three situations: nested circles, disjoint circles,
    and the one crossing whose chord is a diameter of the smaller circle.
    */
  lemma AccuracyIsSmallerRadiusIff(d: real, r1: real, r2: real, minAccuracy: real, sqrt: real -> real)
    requires r1 >= 0.0 && r2 >= 0.0 && minAccuracy < Min(r1, r2)
    requires RootFor(sqrt, d, r1, r2)
    ensures ChordAccuracy(d, r1, r2, minAccuracy, sqrt) == Min(r1, r2)
       <==> d <= Abs(r1 - r2) || d > r1 + r2 || d * d == Abs(r1 * r1 - r2 * r2)
  {
    if Crossing(d, r1, r2) {
      CrossingNeedsNoClamp(d, r1, r2);
      HalfChordPeak(d, r1, r2);
      var h, m := sqrt(HalfChordSquared(d, r1, r2)), Min(r1, r2);
      if h > m { SquareGrows(m, h); }
      if 0.0 <= m < h || 0.0 <= h < m { SquareGrows(Min(m, h), Max(m, h)); }
    }
  }

  /** Swapping the two sources does not change the answer. */
  lemma AccuracySymmetric(d: real, r1: real, r2: real, minAccuracy: real, sqrt: real -> real)
    requires r1 >= 0.0 && r2 >= 0.0
    ensures ChordAccuracy(d, r1, r2, minAccuracy, sqrt) == ChordAccuracy(d, r2, r1, minAccuracy, sqrt)
  {
    if Crossing(d, r1, r2) {
      HalfChordSymmetric(d, r1, r2);
    }
  }

  /**
    When a crossing's answer falls to `bound`, read off the distance alone.  Near either tangency the
    left side goes to zero, so the answer drops to the floor just outside inner tangency although at
    inner tangency itself it is the whole smaller radius.
    */
  lemma AccuracyAtMostIff(d: real, r1: real, r2: real, minAccuracy: real, bound: real, sqrt: real -> real)
    requires r1 >= 0.0 && r2 >= 0.0 && Crossing(d, r1, r2)
    requires bound >= minAccuracy && bound >= 0.0
    requires RootFor(sqrt, d, r1, r2)
    ensures ChordAccuracy(d, r1, r2, minAccuracy, sqrt) <= bound
       <==> ((r1 + r2) * (r1 + r2) - d * d) * (d * d - (r1 - r2) * (r1 - r2)) <= 4.0 * (d * d) * (bound * bound)
  {
    CrossingNeedsNoClamp(d, r1, r2);
    HalfChordFactors(d, r1, r2);
    var v := HalfChordSquared(d, r1, r2);
    var h := sqrt(v);
    if h > bound { SquareGrows(bound, h); }
    if h < bound { SquareGrows(h, bound); }
    ProductSign(d, d);
    ProductSign(4.0 * (d * d), bound * bound - v);
    assert 4.0 * (d * d) * (bound * bound - v) == 4.0 * (d * d) * (bound * bound) - 4.0 * (d * d) * v;
  }

  /** The same for an answer strictly below a bound. */
  lemma AccuracyBelowIff(d: real, r1: real, r2: real, minAccuracy: real, bound: real, sqrt: real -> real)
    requires r1 >= 0.0 && r2 >= 0.0 && Crossing(d, r1, r2)
    requires bound > minAccuracy && bound > 0.0
    requires RootFor(sqrt, d, r1, r2)
    ensures ChordAccuracy(d, r1, r2, minAccuracy, sqrt) < bound
       <==> ((r1 + r2) * (r1 + r2) - d * d) * (d * d - (r1 - r2) * (r1 - r2)) < 4.0 * (d * d) * (bound * bound)
  {
    CrossingNeedsNoClamp(d, r1, r2);
    HalfChordFactors(d, r1, r2);
    var v := HalfChordSquared(d, r1, r2);
    var h := sqrt(v);
    if h > bound { SquareGrows(bound, h); }
    if h < bound { SquareGrows(h, bound); }
    ProductSign(d, d);
    ProductSign(4.0 * (d * d), bound * bound - v);
    assert 4.0 * (d * d) * (bound * bound - v) == 4.0 * (d * d) * (bound * bound) - 4.0 * (d * d) * v;
  }
}
