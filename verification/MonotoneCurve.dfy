/** The mathematics of the drawn trajectory: limited tangents and the cubic pieces between two points, over the reals. */
module MonotoneCurve {
  import opened Domain
  import opened RealArithmetic

  function Sign(x: real): int {
    if x > 0.0 then 1 else if x < 0.0 then -1 else 0
  }

  /** The one-sided three-point tangent at an end of the curve. */
  function EndTangent(a: real, b: real, ha: real, hb: real): real
    requires ha > 0.0 && hb > 0.0
  {
    var m := ((2.0 * ha + hb) * a - ha * b) / (ha + hb);
    if Sign(m) != Sign(a) then 0.0
    else if Sign(a) != Sign(b) && Abs(m) > 3.0 * Abs(a) then 3.0 * a
    else m
  }

  /** The weighted harmonic mean of the slopes on both sides; zero where the data turns. */
  function InnerTangent(before: real, after: real, hBefore: real, hAfter: real): real
    requires hBefore > 0.0 && hAfter > 0.0
  {
    if before * after <= 0.0 then 0.0
    else
      var w1, w2 := 2.0 * hAfter + hBefore, hAfter + 2.0 * hBefore;
      SameSignSum(w1, w2, before, after);
      (w1 + w2) / (w1 / before + w2 / after)
  }

  /** One cubic Hermite piece from `a` to `b` in time `h`. */
  function Hermite(a: real, b: real, h: real, m0: real, m1: real, u: real): real {
    var u2 := u * u;
    var u3 := u2 * u;
    (2.0 * u3 - 3.0 * u2 + 1.0) * a + (u3 - 2.0 * u2 + u) * h * m0 + (-2.0 * u3 + 3.0 * u2) * b + (u3 - u2) * h * m1
  }

  /** `THREE.MathUtils.clamp`. */
  function ClampReal(v: real, lo: real, hi: real): real {
    MaxReal(lo, MinReal(hi, v))
  }

  // ---------------------------------------------------------------------------------------------
  // Products
  // ---------------------------------------------------------------------------------------------

  lemma SameSignSum(w1: real, w2: real, before: real, after: real)
    requires w1 > 0.0 && w2 > 0.0 && before * after > 0.0
    ensures before != 0.0 && after != 0.0
    ensures before > 0.0 <==> after > 0.0
    ensures before > 0.0 ==> w1 / before + w2 / after > 0.0
    ensures before < 0.0 ==> w1 / before + w2 / after < 0.0
  {
    ProductSigns(before, after);
    QuotientSigns(w1, before);
    QuotientSigns(w2, after);
  }

  // ---------------------------------------------------------------------------------------------
  // Tangents
  // ---------------------------------------------------------------------------------------------

  /** The tangent points the way of the slope and is at most three times as steep; it is flat on a flat piece. */
  predicate Fits(m: real, slope: real) {
    if slope >= 0.0 then 0.0 <= m <= 3.0 * slope else 3.0 * slope <= m <= 0.0
  }

  lemma EndTangentFits(a: real, b: real, ha: real, hb: real)
    requires ha > 0.0 && hb > 0.0
    ensures Fits(EndTangent(a, b, ha, hb), a)
  {
    var m := ((2.0 * ha + hb) * a - ha * b) / (ha + hb);
    if Sign(a) == Sign(b) && a != 0.0 {
      if a > 0.0 {
        EndTangentSteepness(a, b, ha, hb);
      } else {
        EndTangentSteepness(-a, -b, ha, hb);
        EndTangentMirror(a, b, ha, hb);
      }
    }
  }

  lemma EndTangentMirror(a: real, b: real, ha: real, hb: real)
    requires ha > 0.0 && hb > 0.0
    ensures ((2.0 * ha + hb) * -a - ha * -b) / (ha + hb) == -(((2.0 * ha + hb) * a - ha * b) / (ha + hb))
  {
    var x, d := (2.0 * ha + hb) * a - ha * b, ha + hb;
    assert (2.0 * ha + hb) * -a == -((2.0 * ha + hb) * a);
    assert ha * -b == -(ha * b);
    NegatedQuotient(x, d);
  }

  lemma NegatedQuotient(x: real, d: real)
    requires d != 0.0
    ensures (-x) / d == -(x / d)
  {
  }

  lemma EndTangentSteepness(a: real, b: real, ha: real, hb: real)
    requires ha > 0.0 && hb > 0.0 && a > 0.0 && b > 0.0
    ensures ((2.0 * ha + hb) * a - ha * b) / (ha + hb) <= 3.0 * a
  {
    ProductSigns(ha, a);
    ProductSigns(hb, a);
    ProductSigns(ha, b);
    assert (2.0 * ha + hb) * a == 2.0 * (ha * a) + hb * a;
    assert 3.0 * a * (ha + hb) == 3.0 * (ha * a) + 3.0 * (hb * a);
    QuotientAtMost((2.0 * ha + hb) * a - ha * b, ha + hb, 3.0 * a);
  }

  lemma InnerTangentFits(before: real, after: real, hBefore: real, hAfter: real)
    requires hBefore > 0.0 && hAfter > 0.0
    ensures Fits(InnerTangent(before, after, hBefore, hAfter), before)
    ensures Fits(InnerTangent(before, after, hBefore, hAfter), after)
  {
    if before * after > 0.0 {
      var w1, w2 := 2.0 * hAfter + hBefore, hAfter + 2.0 * hBefore;
      SameSignSum(w1, w2, before, after);
      if before > 0.0 {
        HarmonicBounds(before, after, w1, w2);
      } else {
        assert (-before) * (-after) == before * after;
        HarmonicBounds(-before, -after, w1, w2);
        HarmonicMirror(before, after, w1, w2);
      }
    }
  }

  lemma HarmonicBounds(d0: real, d1: real, w1: real, w2: real)
    requires d0 > 0.0 && d1 > 0.0 && w1 > 0.0 && w2 > 0.0 && w1 + w2 <= 3.0 * w1 && w1 + w2 <= 3.0 * w2
    ensures w1 / d0 + w2 / d1 > 0.0
    ensures 0.0 <= (w1 + w2) / (w1 / d0 + w2 / d1) <= 3.0 * d0
    ensures (w1 + w2) / (w1 / d0 + w2 / d1) <= 3.0 * d1
  {
    var p, q := w1 / d0, w2 / d1;
    QuotientSigns(w1, d0);
    QuotientSigns(w2, d1);
    QuotientTimes(w1, d0);
    QuotientTimes(w2, d1);
    ProductSigns(d0, q);
    ProductSigns(d1, p);
    assert 3.0 * d0 * (p + q) == 3.0 * (p * d0) + 3.0 * (d0 * q);
    assert 3.0 * d1 * (p + q) == 3.0 * (q * d1) + 3.0 * (d1 * p);
    QuotientAtMost(w1 + w2, p + q, 3.0 * d0);
    QuotientAtMost(w1 + w2, p + q, 3.0 * d1);
    QuotientSigns(w1 + w2, p + q);
  }

  lemma HarmonicMirror(d0: real, d1: real, w1: real, w2: real)
    requires d0 < 0.0 && d1 < 0.0 && w1 > 0.0 && w2 > 0.0
    ensures w1 / -d0 + w2 / -d1 > 0.0 && w1 / d0 + w2 / d1 < 0.0
    ensures (w1 + w2) / (w1 / -d0 + w2 / -d1) == -((w1 + w2) / (w1 / d0 + w2 / d1))
  {
    QuotientSigns(w1, d0);
    QuotientSigns(w2, d1);
    OppositeDivisor(w1, d0);
    OppositeDivisor(w2, d1);
    OppositeDivisor(w1 + w2, w1 / d0 + w2 / d1);
  }

  lemma OppositeDivisor(x: real, d: real)
    requires d != 0.0
    ensures x / -d == -(x / d)
  {
    QuotientTimes(x, d);
    QuotientTimes(x, -d);
    var p, q := x / -d, x / d;
    assert p * -d == -(p * d);
    assert (p + q) * d == 0.0;
    ProductSigns(p + q, d);
    ProductSigns(-(p + q), d);
    assert -(p + q) * d == -((p + q) * d);
  }

  // ---------------------------------------------------------------------------------------------
  // Tangents of simple data
  // ---------------------------------------------------------------------------------------------

  /** At the end of a parabola with derivative `c1` there, whose two slopes agree with it in sign, the tangent is exact. */
  lemma EndTangentExact(c1: real, c2: real, ha: real, hb: real)
    requires ha > 0.0 && hb > 0.0
    requires Sign(c1) == Sign(c1 + c2 * ha) == Sign(c1 + c2 * (2.0 * ha + hb))
    ensures EndTangent(c1 + c2 * ha, c1 + c2 * (2.0 * ha + hb), ha, hb) == c1
  {
    var a, b := c1 + c2 * ha, c1 + c2 * (2.0 * ha + hb);
    assert (2.0 * ha + hb) * a == (2.0 * ha + hb) * c1 + c2 * ha * (2.0 * ha + hb);
    assert ha * b == ha * c1 + c2 * ha * (2.0 * ha + hb);
    assert (2.0 * ha + hb) * a - ha * b == c1 * (ha + hb);
    TimesQuotient(c1, ha + hb);
  }

  /** The end rule takes the nearest to the three-point tangent between nothing and three times the end slope. */
  lemma EndTangentNearest(a: real, b: real, ha: real, hb: real)
    requires ha > 0.0 && hb > 0.0
    ensures EndTangent(a, b, ha, hb)
         == ClampReal(((2.0 * ha + hb) * a - ha * b) / (ha + hb), MinReal(0.0, 3.0 * a), MaxReal(0.0, 3.0 * a))
  {
    if a > 0.0 && b > 0.0 {
      EndTangentSteepness(a, b, ha, hb);
    } else if a < 0.0 && b < 0.0 {
      EndTangentSteepness(-a, -b, ha, hb);
      EndTangentMirror(a, b, ha, hb);
    }
  }

  /** The inner rule is nothing where the data turns, and otherwise the harmonic mean with these weights. */
  lemma InnerTangentHarmonic(before: real, after: real, hBefore: real, hAfter: real)
    requires hBefore > 0.0 && hAfter > 0.0
    ensures before * after <= 0.0 ==> InnerTangent(before, after, hBefore, hAfter) == 0.0
    ensures before * after > 0.0 ==>
              InnerTangent(before, after, hBefore, hAfter)
              * ((2.0 * hAfter + hBefore) * after + (hAfter + 2.0 * hBefore) * before)
              == 3.0 * (hBefore + hAfter) * (before * after)
  {
    if before * after > 0.0 {
      var w1, w2 := 2.0 * hAfter + hBefore, hAfter + 2.0 * hBefore;
      SameSignSum(w1, w2, before, after);
      HarmonicEquation(before, after, w1, w2);
      assert w1 + w2 == 3.0 * (hBefore + hAfter);
    }
  }

  lemma HarmonicEquation(d0: real, d1: real, w1: real, w2: real)
    requires d0 != 0.0 && d1 != 0.0 && w1 / d0 + w2 / d1 != 0.0
    ensures (w1 + w2) / (w1 / d0 + w2 / d1) * (w1 * d1 + w2 * d0) == (w1 + w2) * (d0 * d1)
  {
    var p, q := w1 / d0, w2 / d1;
    QuotientTimes(w1, d0);
    QuotientTimes(w2, d1);
    QuotientTimes(w1 + w2, p + q);
    SumOverCommon(p, q, d0, d1);
    Regroup((w1 + w2) / (p + q), p + q, d0 * d1);
  }

  lemma SumOverCommon(p: real, q: real, d0: real, d1: real)
    ensures (p * d0) * d1 + (q * d1) * d0 == (p + q) * (d0 * d1)
  {
    assert (p * d0) * d1 == p * (d0 * d1);
    assert (q * d1) * d0 == q * (d0 * d1);
  }

  lemma Regroup(m: real, s: real, d: real)
    ensures m * (s * d) == (m * s) * d
  {
  }

  /** Between equal slopes the tangent is that slope. */
  lemma InnerTangentSteady(d: real, hBefore: real, hAfter: real)
    requires hBefore > 0.0 && hAfter > 0.0
    ensures InnerTangent(d, d, hBefore, hAfter) == d
  {
    ProductSigns(d, d);
    if d != 0.0 {
      var w1, w2 := 2.0 * hAfter + hBefore, hAfter + 2.0 * hBefore;
      SameSignSum(w1, w2, d, d);
      var sum := w1 / d + w2 / d;
      QuotientTimes(w1, d);
      QuotientTimes(w2, d);
      assert sum * d == w1 + w2;
      assert w1 + w2 == d * sum;
      TimesQuotient(d, sum);
    }
  }

  function Straight(a: real, b: real, u: real): real {
    a + (b - a) * u
  }

  /** With both tangents at the slope, the piece is the straight line. */
  lemma PieceOfLine(a: real, b: real, h: real, m: real, u: real)
    requires h > 0.0 && m == (b - a) / h
    ensures Hermite(a, b, h, m, m, u) == Straight(a, b, u)
  {
    hide Hermite, Rise, Head, Tail;
    QuotientTimes(b - a, h);
    assert h * m == b - a;
    HermiteForm(a, b, h, m, m, u);
    WeightsSum(u);
    assert (b - a) * Rise(u) + (b - a) * Head(u) + (b - a) * Tail(u) == (b - a) * (Rise(u) + Head(u) + Tail(u));
  }

  lemma WeightsSum(u: real)
    ensures Rise(u) + Head(u) + Tail(u) == u
  {
  }

  // ---------------------------------------------------------------------------------------------
  // One piece is the cubic with the given ends and tangents
  // ---------------------------------------------------------------------------------------------

  function Cubic(c0: real, c1: real, c2: real, c3: real, x: real): real {
    c0 + c1 * x + c2 * (x * x) + c3 * (x * x * x)
  }

  /** Its derivative. */
  function CubicSlope(c1: real, c2: real, c3: real, x: real): real {
    c1 + 2.0 * (c2 * x) + 3.0 * (c3 * (x * x))
  }

  /** A piece with the ends and the tangents of any cubic is that cubic. */
  lemma PieceIsCubic(c0: real, c1: real, c2: real, c3: real, h: real, u: real)
    ensures Hermite(Cubic(c0, c1, c2, c3, 0.0), Cubic(c0, c1, c2, c3, h), h, CubicSlope(c1, c2, c3, 0.0),
                    CubicSlope(c1, c2, c3, h), u)
         == Cubic(c0, c1, c2, c3, u * h)
  {
    hide Hermite, Cubic, CubicSlope;
    CubicEnds(c0, c1, c2, c3, h);
    SlopeTimes(c1, c2, c3, h);
    HermiteOfParts(c0, Cubic(c0, c1, c2, c3, h), h, CubicSlope(c1, c2, c3, 0.0), CubicSlope(c1, c2, c3, h), u,
                   c1 * h, c2 * (h * h), c3 * (h * h * h));
    CubicAtProduct(c0, c1, c2, c3, u, h);
  }

  lemma HermiteOfParts(a: real, b: real, h: real, m0: real, m1: real, u: real, p: real, q: real, r: real)
    requires b - a == p + q + r && h * m0 == p && h * m1 == p + 2.0 * q + 3.0 * r
    ensures Hermite(a, b, h, m0, m1, u) == a + p * u + q * (u * u) + r * (u * u * u)
  {
    hide Hermite, Rise, Head, Tail;
    HermiteForm(a, b, h, m0, m1, u);
    WeightsSum(u);
    WeightsSquare(u);
    Collect(p, q, r, Rise(u), Head(u), Tail(u));
  }

  lemma CubicEnds(c0: real, c1: real, c2: real, c3: real, h: real)
    ensures Cubic(c0, c1, c2, c3, 0.0) == c0 && h * CubicSlope(c1, c2, c3, 0.0) == c1 * h
    ensures Cubic(c0, c1, c2, c3, h) == c0 + c1 * h + c2 * (h * h) + c3 * (h * h * h)
  {
  }

  lemma CubicAtProduct(c0: real, c1: real, c2: real, c3: real, u: real, h: real)
    ensures Cubic(c0, c1, c2, c3, u * h) == c0 + (c1 * h) * u + (c2 * (h * h)) * (u * u) + (c3 * (h * h * h)) * (u * u * u)
  {
    PowersOfProduct(c1, c2, c3, u, h);
  }

  lemma SlopeTimes(c1: real, c2: real, c3: real, h: real)
    ensures h * CubicSlope(c1, c2, c3, h) == c1 * h + 2.0 * (c2 * (h * h)) + 3.0 * (c3 * (h * h * h))
  {
    assert h * (2.0 * (c2 * h)) == 2.0 * (c2 * (h * h));
    assert h * (3.0 * (c3 * (h * h))) == 3.0 * (c3 * (h * h * h));
  }

  lemma WeightsSquare(u: real)
    ensures Rise(u) + 2.0 * Tail(u) == u * u && Rise(u) + 3.0 * Tail(u) == u * u * u
  {
  }

  lemma Collect(p: real, q: real, r: real, x: real, y: real, z: real)
    ensures (p + q + r) * x + p * y + (p + 2.0 * q + 3.0 * r) * z
         == p * (x + y + z) + q * (x + 2.0 * z) + r * (x + 3.0 * z)
  {
  }

  lemma PowersOfProduct(c1: real, c2: real, c3: real, u: real, h: real)
    ensures c1 * (u * h) == (c1 * h) * u
    ensures c2 * ((u * h) * (u * h)) == (c2 * (h * h)) * (u * u)
    ensures c3 * ((u * h) * (u * h) * (u * h)) == (c3 * (h * h * h)) * (u * u * u)
  {
    assert (u * h) * (u * h) == (h * h) * (u * u);
    assert (u * h) * (u * h) * (u * h) == (h * h * h) * (u * u * u);
  }

  // ---------------------------------------------------------------------------------------------
  // One piece is monotone
  // ---------------------------------------------------------------------------------------------

  lemma CubeIncreasing(x: real, y: real)
    requires x <= y
    ensures x * x * x <= y * y * y
  {
    var s := x * x + x * y + y * y;
    assert s >= 0.0 by {
      var t := x + y;
      Square(x); Square(y); Square(t);
      assert t * t == x * x + 2.0 * (x * y) + y * y;
    }
    ProductSigns(y - x, s);
    assert (y - x) * s == y * y * y - x * x * x;
  }

  lemma Square(x: real)
    ensures x * x >= 0.0
  {
  }

  /** The weights of the end point and of the two tangents. */
  function Rise(u: real): real { 3.0 * (u * u) - 2.0 * (u * u * u) }
  function Head(u: real): real { u * u * u - 2.0 * (u * u) + u }
  function Tail(u: real): real { u * u * u - u * u }

  /** With each tangent at nothing or at three times the slope, the weights are cubes, so they only grow. */
  lemma CornersIncreasing(u: real, v: real)
    requires 0.0 <= u <= v <= 1.0
    ensures Rise(u) <= Rise(v)
    ensures Rise(u) + 3.0 * Head(u) <= Rise(v) + 3.0 * Head(v)
    ensures Rise(u) + 3.0 * Tail(u) <= Rise(v) + 3.0 * Tail(v)
    ensures Rise(u) + 3.0 * Head(u) + 3.0 * Tail(u) <= Rise(v) + 3.0 * Head(v) + 3.0 * Tail(v)
  {
    RiseIncreasing(u, v);
    CubeIncreasing(u, v);
    CubeIncreasing(1.0 - v, 1.0 - u);
    CubeIncreasing(2.0 * u - 1.0, 2.0 * v - 1.0);
    HeadCorner(u); HeadCorner(v);
    BothCorner(u); BothCorner(v);
  }

  lemma HeadCorner(u: real)
    ensures Rise(u) + 3.0 * Head(u) == 1.0 - (1.0 - u) * (1.0 - u) * (1.0 - u)
  {
    var w := 1.0 - u;
    assert w * w == 1.0 - 2.0 * u + u * u;
    assert w * w * w == 1.0 - 3.0 * u + 3.0 * (u * u) - u * u * u;
  }

  lemma BothCorner(u: real)
    ensures 2.0 * (Rise(u) + 3.0 * Head(u) + 3.0 * Tail(u)) == 1.0 + (2.0 * u - 1.0) * (2.0 * u - 1.0) * (2.0 * u - 1.0)
  {
    var w := 2.0 * u - 1.0;
    assert w * w == 4.0 * (u * u) - 4.0 * u + 1.0;
    assert w * w * w == 8.0 * (u * u * u) - 12.0 * (u * u) + 6.0 * u - 1.0;
  }

  /** The slope of `Rise` between two places. */
  function RiseChord(u: real, v: real): real {
    2.0 * (u * (1.0 - u)) + 2.0 * (v * (1.0 - v)) + u * (1.0 - v) + v * (1.0 - u)
  }

  lemma RiseByChord(u: real, v: real)
    ensures Rise(v) - Rise(u) == (v - u) * RiseChord(u, v)
  {
    assert RiseChord(u, v) == 3.0 * (u + v) - 2.0 * (u * u + u * v + v * v);
  }

  lemma ChordRises(u: real, v: real)
    requires 0.0 <= u <= 1.0 && 0.0 <= v <= 1.0
    ensures RiseChord(u, v) >= 0.0
  {
    ProductSigns(u, 1.0 - u);
    ProductSigns(v, 1.0 - v);
    ProductSigns(u, 1.0 - v);
    ProductSigns(v, 1.0 - u);
  }

  lemma RiseIncreasing(u: real, v: real)
    requires 0.0 <= u <= v <= 1.0
    ensures Rise(u) <= Rise(v)
  {
    hide Rise, RiseChord;
    ChordRises(u, v);
    RiseByChord(u, v);
    ProductSigns(v - u, RiseChord(u, v));
  }

  /** An affine form on a square takes its least value at a corner. */
  lemma AffineOnSquare(d: real, x: real, y: real, c: real, k: real, l: real)
    requires 0.0 <= x <= 3.0 * d && 0.0 <= y <= 3.0 * d
    requires c >= 0.0 && c + 3.0 * k >= 0.0 && c + 3.0 * l >= 0.0 && c + 3.0 * k + 3.0 * l >= 0.0
    ensures d * c + x * k + y * l >= 0.0
  {
    Corner(d, x, k);
    Corner(d, y, l);
    var k1 := if k >= 0.0 then 0.0 else k;
    var l1 := if l >= 0.0 then 0.0 else l;
    ProductSigns(d, c + 3.0 * k1 + 3.0 * l1);
    assert d * (c + 3.0 * k1 + 3.0 * l1) == d * c + 3.0 * (d * k1) + 3.0 * (d * l1);
  }

  lemma Corner(d: real, x: real, k: real)
    requires 0.0 <= x <= 3.0 * d
    ensures x * k >= 3.0 * (d * (if k >= 0.0 then 0.0 else k))
  {
    if k >= 0.0 {
      ProductSigns(x, k);
    } else {
      ProductSigns(3.0 * d - x, -k);
      assert (3.0 * d - x) * -k == x * k - 3.0 * (d * k);
    }
  }

  lemma HermiteForm(a: real, b: real, h: real, m0: real, m1: real, u: real)
    ensures Hermite(a, b, h, m0, m1, u) == a + (b - a) * Rise(u) + (h * m0) * Head(u) + (h * m1) * Tail(u)
  {
    var u2, u3 := u * u, u * u * u;
    assert (2.0 * u3 - 3.0 * u2 + 1.0) * a + (-2.0 * u3 + 3.0 * u2) * b == a + (b - a) * (3.0 * u2 - 2.0 * u3);
    assert (u3 - 2.0 * u2 + u) * h * m0 == (h * m0) * Head(u);
    assert (u3 - u2) * h * m1 == (h * m1) * Tail(u);
  }

  lemma Rises(d: real, x: real, y: real, u: real, v: real)
    requires 0.0 <= x <= 3.0 * d && 0.0 <= y <= 3.0 * d && 0.0 <= u <= v <= 1.0
    ensures d * Rise(u) + x * Head(u) + y * Tail(u) <= d * Rise(v) + x * Head(v) + y * Tail(v)
  {
    hide Rise, Head, Tail;
    CornersIncreasing(u, v);
    AffineOnSquare(d, x, y, Rise(v) - Rise(u), Head(v) - Head(u), Tail(v) - Tail(u));
    Distribute(d, Rise(v), Rise(u));
    Distribute(x, Head(v), Head(u));
    Distribute(y, Tail(v), Tail(u));
  }

  lemma Distribute(d: real, p: real, q: real)
    ensures d * (p - q) == d * p - d * q
  {
  }

  /** A tangent that fits, scaled by the time, is at most three times the step. */
  lemma ScaledFits(m: real, slope: real, h: real, step: real)
    requires h > 0.0 && slope * h == step && Fits(m, slope)
    ensures if step >= 0.0 then 0.0 <= h * m <= 3.0 * step else 3.0 * step <= h * m <= 0.0
  {
    ProductSigns(slope, h);
    ProductSigns(m, h);
    ProductSigns(3.0 * slope - m, h);
    ProductSigns(m - 3.0 * slope, h);
    assert (3.0 * slope - m) * h == 3.0 * step - h * m;
    assert (m - 3.0 * slope) * h == h * m - 3.0 * step;
  }

  /** A piece whose tangents fit runs monotonically from one data point to the next. */
  lemma PieceMonotone(a: real, b: real, h: real, m0: real, m1: real, u: real, v: real)
    requires h > 0.0 && Fits(m0, (b - a) / h) && Fits(m1, (b - a) / h)
    requires 0.0 <= u <= v <= 1.0
    ensures Hermite(a, b, h, m0, m1, 0.0) == a && Hermite(a, b, h, m0, m1, 1.0) == b
    ensures a <= b ==> Hermite(a, b, h, m0, m1, u) <= Hermite(a, b, h, m0, m1, v)
    ensures b <= a ==> Hermite(a, b, h, m0, m1, v) <= Hermite(a, b, h, m0, m1, u)
  {
    hide Hermite, Rise, Head, Tail, Fits;
    HermiteForm(a, b, h, m0, m1, u);
    HermiteForm(a, b, h, m0, m1, v);
    PieceEnds(a, b, h, m0, m1);
    QuotientTimes(b - a, h);
    ScaledFits(m0, (b - a) / h, h, b - a);
    ScaledFits(m1, (b - a) / h, h, b - a);
    if a <= b {
      Rises(b - a, h * m0, h * m1, u, v);
    }
    if b <= a {
      Rises(-(b - a), -(h * m0), -(h * m1), u, v);
      Opposite(b - a, Rise(u)); Opposite(h * m0, Head(u)); Opposite(h * m1, Tail(u));
      Opposite(b - a, Rise(v)); Opposite(h * m0, Head(v)); Opposite(h * m1, Tail(v));
    }
  }

  lemma Opposite(x: real, y: real)
    ensures (-x) * y == -(x * y)
  {
  }

  lemma PieceEnds(a: real, b: real, h: real, m0: real, m1: real)
    ensures Hermite(a, b, h, m0, m1, 0.0) == a && Hermite(a, b, h, m0, m1, 1.0) == b
  {
  }

  /** The piece stays between its data points, so clamping it to them changes nothing. */
  lemma PieceBetween(a: real, b: real, h: real, m0: real, m1: real, u: real)
    requires h > 0.0 && Fits(m0, (b - a) / h) && Fits(m1, (b - a) / h)
    requires 0.0 <= u <= 1.0
    ensures MinReal(a, b) <= Hermite(a, b, h, m0, m1, u) <= MaxReal(a, b)
    ensures ClampReal(Hermite(a, b, h, m0, m1, u), MinReal(a, b), MaxReal(a, b)) == Hermite(a, b, h, m0, m1, u)
  {
    hide Hermite, Fits;
    PieceMonotone(a, b, h, m0, m1, 0.0, u);
    PieceMonotone(a, b, h, m0, m1, u, 1.0);
  }
}
