/**
 * The vertices of the 3D trajectory: one monotone curve per segment, or straight lines where times do not allow one.
 * Positions come with their projected points.
 */
module TrajectoryCurve {
  import opened Domain
  import opened MonotoneCurve
  import opened RealArithmetic

  datatype Vector = Vector(x: real, y: real, z: real)

  datatype Position = Position(ts: Reading, idx: int, segment: int, point: Vector)

  /** A drawn line piece; `endIndex` is the row index of the position it leads to. */
  datatype Pair = Pair(from: Vector, to: Vector, endIndex: int)

  datatype Axis = X | Y | Z

  function Coord(v: Vector, axis: Axis): real {
    match axis
    case X => v.x
    case Y => v.y
    case Z => v.z
  }

  // ---------------------------------------------------------------------------------------------
  // Tangents of one axis
  // ---------------------------------------------------------------------------------------------

  /** Time moves forward, by a finite step, from position `i` to the next. */
  predicate Forward(g: seq<Position>, i: nat)
    requires i + 1 < |g|
  {
    g[i].ts.Finite? && g[i + 1].ts.Finite? && g[i + 1].ts.value - g[i].ts.value > 0.0
  }

  predicate Timed(g: seq<Position>) {
    |g| > 1 && forall i :: 0 <= i < |g| - 1 ==> Forward(g, i)
  }

  function StepOf(g: seq<Position>, i: nat): (dt: real)
    requires Timed(g) && i < |g| - 1
    ensures dt > 0.0
  {
    assert Forward(g, i);
    g[i + 1].ts.value - g[i].ts.value
  }

  function Steps(g: seq<Position>): (h: seq<real>)
    requires Timed(g)
    ensures |h| == |g| - 1 && forall i :: 0 <= i < |h| ==> h[i] > 0.0
  {
    seq(|g| - 1, i requires 0 <= i < |g| - 1 => StepOf(g, i))
  }

  function Values(g: seq<Position>, axis: Axis): (r: seq<real>)
    ensures |r| == |g| && forall i :: 0 <= i < |r| ==> r[i] == Coord(g[i].point, axis)
  {
    seq(|g|, i requires 0 <= i < |g| => Coord(g[i].point, axis))
  }

  ghost predicate Positive(h: seq<real>) {
    |h| > 0 && forall i :: 0 <= i < |h| ==> h[i] > 0.0
  }

  ghost predicate Spaced(values: seq<real>, h: seq<real>) {
    Positive(h) && |values| == |h| + 1
  }

  function Slopes(values: seq<real>, h: seq<real>): (d: seq<real>)
    requires Spaced(values, h)
    ensures |d| == |h| && forall i :: 0 <= i < |d| ==> d[i] == (values[i + 1] - values[i]) / h[i]
  {
    seq(|h|, i requires 0 <= i < |h| => (values[i + 1] - values[i]) / h[i])
  }

  /** The tangent at data point `k`. */
  function TangentAt(d: seq<real>, h: seq<real>, k: nat): real
    requires Positive(h) && |d| == |h| && k <= |d|
  {
    var n := |d|;
    if n == 1 then d[0]
    else if k == 0 then EndTangent(d[0], d[1], h[0], h[1])
    else if k == n then EndTangent(d[n - 1], d[n - 2], h[n - 1], h[n - 2])
    else InnerTangent(d[k - 1], d[k], h[k - 1], h[k])
  }

  function Tangents(d: seq<real>, h: seq<real>): (m: seq<real>)
    requires Positive(h) && |d| == |h|
    ensures |m| == |d| + 1 && forall k :: 0 <= k < |m| ==> m[k] == TangentAt(d, h, k)
  {
    seq(|d| + 1, k requires 0 <= k <= |d| => TangentAt(d, h, k))
  }

  /** Both tangents of every interval fit its slope. */
  lemma TangentsFit(d: seq<real>, h: seq<real>, i: nat)
    requires Positive(h) && |d| == |h| && i < |h|
    ensures Fits(Tangents(d, h)[i], d[i]) && Fits(Tangents(d, h)[i + 1], d[i])
  {
    hide EndTangent, InnerTangent;
    var n := |d|;
    if n > 1 {
      if i == 0 {
        EndTangentFits(d[0], d[1], h[0], h[1]);
      } else {
        InnerTangentFits(d[i - 1], d[i], h[i - 1], h[i]);
      }
      if i == n - 1 {
        EndTangentFits(d[n - 1], d[n - 2], h[n - 1], h[n - 2]);
      } else {
        InnerTangentFits(d[i], d[i + 1], h[i], h[i + 1]);
      }
    }
  }

  // ---------------------------------------------------------------------------------------------
  // Line pieces
  // ---------------------------------------------------------------------------------------------

  /** One coordinate of the curve, clamped to its data points. */
  function CurveCoord(values: seq<real>, h: seq<real>, i: nat, u: real): real
    requires Spaced(values, h) && i < |h|
  {
    var m := Tangents(Slopes(values, h), h);
    ClampReal(Hermite(values[i], values[i + 1], h[i], m[i], m[i + 1], u),
              MinReal(values[i], values[i + 1]), MaxReal(values[i], values[i + 1]))
  }

  function Fraction(step: nat, n: nat): real
    requires n > 0
  {
    step as real / n as real
  }

  function CurvePoint(g: seq<Position>, i: nat, step: nat, n: nat): Vector
    requires Timed(g) && i < |g| - 1 && n > 0
  {
    var u := Fraction(step, n);
    Vector(CurveCoord(Values(g, X), Steps(g), i, u),
           CurveCoord(Values(g, Y), Steps(g), i, u),
           CurveCoord(Values(g, Z), Steps(g), i, u))
  }

  /** The points from position `i` to the next: the position itself, then `n` points of the curve. */
  function CurvePoints(g: seq<Position>, i: nat, n: nat): (r: seq<Vector>)
    requires Timed(g) && i < |g| - 1 && n > 0
    ensures |r| == n + 1
  {
    seq(n + 1, k requires 0 <= k <= n => if k == 0 then g[i].point else CurvePoint(g, i, k, n))
  }

  lemma CurvePointsAre(g: seq<Position>, i: nat, n: nat)
    requires Timed(g) && i < |g| - 1 && n > 0
    ensures CurvePoints(g, i, n)[0] == g[i].point
    ensures forall k :: 0 < k <= n ==> CurvePoints(g, i, n)[k] == CurvePoint(g, i, k, n)
  {
    hide CurvePoint, Timed;
  }

  /** The first `steps` pieces through some points. */
  function IntervalPairs(points: seq<Vector>, endIndex: int, steps: nat): seq<Pair>
    requires steps < |points|
  {
    if steps == 0 then []
    else IntervalPairs(points, endIndex, steps - 1) + [Pair(points[steps - 1], points[steps], endIndex)]
  }

  function CurvePairs(g: seq<Position>, n: nat, intervals: nat): seq<Pair>
    requires Timed(g) && n > 0 && intervals <= |g| - 1
  {
    if intervals == 0 then [] else CurvePairs(g, n, intervals - 1) + IntervalPairs(CurvePoints(g, intervals - 1, n), g[intervals].idx, n)
  }

  function StraightPairs(g: seq<Position>, intervals: nat): seq<Pair>
    requires g == [] || intervals <= |g| - 1
  {
    if g == [] || intervals == 0 then []
    else StraightPairs(g, intervals - 1) + [Pair(g[intervals - 1].point, g[intervals].point, g[intervals].idx)]
  }

  function GroupPairs(g: seq<Position>, n: nat): seq<Pair>
    requires n > 0 && g != []
  {
    if Timed(g) then CurvePairs(g, n, |g| - 1) else StraightPairs(g, |g| - 1)
  }

  /** The end of the run of positions with the segment of position `begin`. */
  function GroupEnd(positions: seq<Position>, begin: nat, end: nat): (r: nat)
    requires begin < end <= |positions|
    ensures end <= r <= |positions|
    ensures forall k :: end <= k < r ==> positions[k].segment == positions[begin].segment
    ensures r < |positions| ==> positions[r].segment != positions[begin].segment
    decreases |positions| - end
  {
    if end < |positions| && positions[end].segment == positions[begin].segment
    then GroupEnd(positions, begin, end + 1) else end
  }

  function LinePairs(positions: seq<Position>, begin: nat, n: nat): seq<Pair>
    requires n > 0 && begin <= |positions|
    decreases |positions| - begin
  {
    if begin == |positions| then []
    else
      var end := GroupEnd(positions, begin, begin + 1);
      GroupPairs(positions[begin..end], n) + LinePairs(positions, end, n)
  }

  /** Fewer subdivisions for longer histories, between one and four. */
  function Subdivisions(count: nat): (n: nat)
    ensures 1 <= n <= 4
  {
    if count == 0 then 4 else Max(1, Min(4, 12000 / count))
  }

  function Vertices(pairs: seq<Pair>): (r: seq<Vector>)
    ensures |r| == 2 * |pairs|
    ensures forall k :: 0 <= k < |pairs| ==> r[2 * k] == pairs[k].from && r[2 * k + 1] == pairs[k].to
  {
    if pairs == [] then []
    else Vertices(pairs[..|pairs| - 1]) + [pairs[|pairs| - 1].from, pairs[|pairs| - 1].to]
  }

  /** The pieces that lead to a row of the visible trail. */
  function Active(pairs: seq<Pair>, trailLen: int): seq<Pair> {
    if pairs == [] then []
    else
      var last := pairs[|pairs| - 1];
      Active(pairs[..|pairs| - 1], trailLen) + (if last.endIndex < trailLen then [last] else [])
  }

  // ---------------------------------------------------------------------------------------------
  // What the pieces are
  // ---------------------------------------------------------------------------------------------

  /** `x` and then `y` on the way from `a` to `b`. */
  predicate OnTheWay(a: real, x: real, y: real, b: real) {
    a <= x <= y <= b || a >= x >= y >= b
  }

  /** A piece runs monotonically, on every axis, inside the interval from position `i` to the next. */
  ghost predicate PairOn(p: Pair, g: seq<Position>, i: int) {
    && 0 <= i < |g| - 1 && p.endIndex == g[i + 1].idx
    && forall axis: Axis ::
         OnTheWay(Coord(g[i].point, axis), Coord(p.from, axis), Coord(p.to, axis), Coord(g[i + 1].point, axis))
  }

  /** The pieces form one line from `a` to `b`. */
  ghost predicate Joined(pairs: seq<Pair>, a: Vector, b: Vector) {
    && pairs != [] && pairs[0].from == a && pairs[|pairs| - 1].to == b
    && forall k :: 0 <= k < |pairs| - 1 ==> pairs[k].to == pairs[k + 1].from
  }

  /** On each axis the unclamped cubic passes both data points and is monotone between them; clamping is idle. */
  lemma CurveCoordSound(values: seq<real>, h: seq<real>, i: nat, u: real, v: real)
    requires Spaced(values, h) && i < |h| && 0.0 <= u <= v <= 1.0
    ensures var m := Tangents(Slopes(values, h), h);
            CurveCoord(values, h, i, u) == Hermite(values[i], values[i + 1], h[i], m[i], m[i + 1], u)
    ensures CurveCoord(values, h, i, 0.0) == values[i] && CurveCoord(values, h, i, 1.0) == values[i + 1]
    ensures OnTheWay(values[i], CurveCoord(values, h, i, u), CurveCoord(values, h, i, v), values[i + 1])
  {
    hide Tangents, Hermite, ClampReal, Fits;
    var m := Tangents(Slopes(values, h), h);
    TangentsFit(Slopes(values, h), h, i);
    PieceMonotone(values[i], values[i + 1], h[i], m[i], m[i + 1], u, v);
    PieceBetween(values[i], values[i + 1], h[i], m[i], m[i + 1], u);
    PieceBetween(values[i], values[i + 1], h[i], m[i], m[i + 1], v);
    PieceBetween(values[i], values[i + 1], h[i], m[i], m[i + 1], 0.0);
    PieceBetween(values[i], values[i + 1], h[i], m[i], m[i + 1], 1.0);
  }

  /** Data on one line is drawn as that line, whatever the times between the points. */
  lemma CurveOfLine(values: seq<real>, h: seq<real>, i: nat, u: real, slope: real)
    requires Spaced(values, h) && i < |h| && 0.0 <= u <= 1.0
    requires forall k :: 0 <= k < |h| ==> Slopes(values, h)[k] == slope
    ensures CurveCoord(values, h, i, u) == Straight(values[i], values[i + 1], u)
  {
    hide Hermite, CurveCoord, Straight, OnTheWay, Slopes, TangentAt;
    var d := Slopes(values, h);
    CurveCoordSound(values, h, i, u, u);
    SteadyTangent(d, h, i, slope);
    SteadyTangent(d, h, i + 1, slope);
    PieceOfLine(values[i], values[i + 1], h[i], slope, u);
  }

  lemma SteadyTangent(d: seq<real>, h: seq<real>, k: nat, slope: real)
    requires Positive(h) && |d| == |h| && k <= |d|
    requires forall j :: 0 <= j < |d| ==> d[j] == slope
    ensures TangentAt(d, h, k) == slope
  {
    hide EndTangent, InnerTangent;
    var n := |d|;
    if n > 1 {
      if k == 0 {
        EndTangentExact(slope, 0.0, h[0], h[1]);
      } else if k == n {
        EndTangentExact(slope, 0.0, h[n - 1], h[n - 2]);
      } else {
        InnerTangentSteady(slope, h[k - 1], h[k]);
      }
    }
  }

  lemma CoordOfCurve(g: seq<Position>, i: nat, step: nat, n: nat, axis: Axis)
    requires Timed(g) && i < |g| - 1 && n > 0
    ensures Coord(CurvePoint(g, i, step, n), axis) == CurveCoord(Values(g, axis), Steps(g), i, Fraction(step, n))
    ensures Values(g, axis)[i] == Coord(g[i].point, axis) && Values(g, axis)[i + 1] == Coord(g[i + 1].point, axis)
  {
    hide CurveCoord, Timed, Fraction;
  }

  lemma SameVector(v: Vector, w: Vector)
    requires forall axis: Axis :: Coord(v, axis) == Coord(w, axis)
    ensures v == w
  {
    assert Coord(v, X) == Coord(w, X) && Coord(v, Y) == Coord(w, Y) && Coord(v, Z) == Coord(w, Z);
  }

  lemma CurveAxisSound(g: seq<Position>, i: nat, step: nat, n: nat, axis: Axis)
    requires Timed(g) && i < |g| - 1 && 0 < step <= n
    ensures OnTheWay(Coord(g[i].point, axis), Coord(CurvePoint(g, i, step - 1, n), axis),
                     Coord(CurvePoint(g, i, step, n), axis), Coord(g[i + 1].point, axis))
    ensures Coord(CurvePoint(g, i, 0, n), axis) == Coord(g[i].point, axis)
    ensures Coord(CurvePoint(g, i, n, n), axis) == Coord(g[i + 1].point, axis)
  {
    hide CurveCoord, CurvePoint, Coord, OnTheWay, Timed, Fraction, Hermite;
    Fractions(step, n);
    CurveCoordSound(Values(g, axis), Steps(g), i, Fraction(step - 1, n), Fraction(step, n));
    CoordOfCurve(g, i, step - 1, n, axis);
    CoordOfCurve(g, i, step, n, axis);
    CoordOfCurve(g, i, 0, n, axis);
    CoordOfCurve(g, i, n, n, axis);
  }

  lemma CurvePointSound(g: seq<Position>, i: nat, step: nat, n: nat)
    requires Timed(g) && i < |g| - 1 && 0 < step <= n
    ensures forall axis: Axis ::
              OnTheWay(Coord(g[i].point, axis), Coord(CurvePoint(g, i, step - 1, n), axis),
                       Coord(CurvePoint(g, i, step, n), axis), Coord(g[i + 1].point, axis))
    ensures CurvePoint(g, i, 0, n) == g[i].point && CurvePoint(g, i, n, n) == g[i + 1].point
  {
    hide CurvePoint, Coord, OnTheWay, Timed;
    forall axis: Axis
      ensures OnTheWay(Coord(g[i].point, axis), Coord(CurvePoint(g, i, step - 1, n), axis),
                       Coord(CurvePoint(g, i, step, n), axis), Coord(g[i + 1].point, axis))
      ensures Coord(CurvePoint(g, i, 0, n), axis) == Coord(g[i].point, axis)
      ensures Coord(CurvePoint(g, i, n, n), axis) == Coord(g[i + 1].point, axis)
    {
      CurveAxisSound(g, i, step, n, axis);
    }
    SameVector(CurvePoint(g, i, 0, n), g[i].point);
    SameVector(CurvePoint(g, i, n, n), g[i + 1].point);
  }

  lemma Fractions(step: nat, n: nat)
    requires 0 < step <= n
    ensures 0.0 <= Fraction(step - 1, n) <= Fraction(step, n) <= 1.0
    ensures Fraction(0, n) == 0.0 && Fraction(n, n) == 1.0
  {
    QuotientAtMost(step as real, n as real, 1.0);
    QuotientTimes(step as real, n as real);
    QuotientTimes((step - 1) as real, n as real);
    QuotientTimes(n as real, n as real);
    CancelFactor((step - 1) as real / n as real, step as real / n as real, n as real);
    CancelFactor(0.0, (step - 1) as real / n as real, n as real);
    CancelFactor(1.0, n as real / n as real, n as real);
    QuotientAtMost(n as real, n as real, 1.0);
  }

  lemma JoinedAppend(p: seq<Pair>, q: seq<Pair>, a: Vector, b: Vector, c: Vector)
    requires Joined(p, a, b) && Joined(q, b, c)
    ensures Joined(p + q, a, c)
  {
    var r := p + q;
    forall k | 0 <= k < |r| - 1 ensures r[k].to == r[k + 1].from {
      if k < |p| - 1 {
        assert r[k] == p[k] && r[k + 1] == p[k + 1];
      } else if k >= |p| {
        assert r[k] == q[k - |p|] && r[k + 1] == q[k + 1 - |p|];
      }
    }
  }

  /** The points lead from position `i` to the next, each piece on the way. */
  ghost predicate OnInterval(points: seq<Vector>, g: seq<Position>, i: int) {
    && 0 <= i < |g| - 1 && |points| > 1 && points[0] == g[i].point && points[|points| - 1] == g[i + 1].point
    && forall k :: 0 < k < |points| ==> PairOn(Pair(points[k - 1], points[k], g[i + 1].idx), g, i)
  }

  lemma {:induction false} IntervalSound(points: seq<Vector>, g: seq<Position>, i: nat, steps: nat)
    requires OnInterval(points, g, i) && 0 < steps < |points|
    ensures var r := IntervalPairs(points, g[i + 1].idx, steps);
            Joined(r, points[0], points[steps]) && forall k :: 0 <= k < |r| ==> PairOn(r[k], g, i)
    decreases steps
  {
    hide PairOn;
    var last := Pair(points[steps - 1], points[steps], g[i + 1].idx);
    assert Joined([last], points[steps - 1], points[steps]);
    if steps > 1 {
      IntervalSound(points, g, i, steps - 1);
      JoinedAppend(IntervalPairs(points, g[i + 1].idx, steps - 1), [last], points[0], points[steps - 1], points[steps]);
    } else {
      assert IntervalPairs(points, g[i + 1].idx, 0) + [last] == [last];
    }
  }

  lemma CurvePointsSound(g: seq<Position>, i: nat, n: nat)
    requires Timed(g) && i < |g| - 1 && n > 0
    ensures OnInterval(CurvePoints(g, i, n), g, i)
  {
    hide CurvePoint, CurvePoints, Timed, Coord, OnTheWay;
    var points := CurvePoints(g, i, n);
    CurvePointsAre(g, i, n);
    forall k | 0 < k < |points| ensures PairOn(Pair(points[k - 1], points[k], g[i + 1].idx), g, i) {
      CurvePointSound(g, i, k, n);
    }
    CurvePointSound(g, i, n, n);
  }

  /** All pieces of an interval: one line from its position to the next. */
  lemma IntervalLine(g: seq<Position>, i: nat, n: nat)
    requires Timed(g) && i < |g| - 1 && n > 0
    ensures var r := IntervalPairs(CurvePoints(g, i, n), g[i + 1].idx, n);
            Joined(r, g[i].point, g[i + 1].point) && forall k :: 0 <= k < |r| ==> PairOn(r[k], g, i)
  {
    hide CurvePoints, Timed, PairOn, Joined, IntervalPairs;
    CurvePointsSound(g, i, n);
    IntervalSound(CurvePoints(g, i, n), g, i, n);
  }

  ghost predicate PairOnSome(p: Pair, g: seq<Position>) {
    exists i :: PairOn(p, g, i)
  }

  /** A line through a whole run of positions: joined, on the data, and through every position. */
  ghost predicate LineThrough(pairs: seq<Pair>, g: seq<Position>, intervals: nat)
    requires 0 < intervals < |g|
  {
    && Joined(pairs, g[0].point, g[intervals].point)
    && (forall k :: 0 <= k < |pairs| ==> PairOnSome(pairs[k], g))
    && (forall j :: 0 < j <= intervals ==> LeadsTo(pairs, g[j]))
  }

  ghost predicate LeadsTo(pairs: seq<Pair>, p: Position) {
    exists k :: 0 <= k < |pairs| && pairs[k].to == p.point && pairs[k].endIndex == p.idx
  }

  lemma LeadsToMore(pairs: seq<Pair>, more: seq<Pair>, p: Position)
    requires LeadsTo(pairs, p) || LeadsTo(more, p)
    ensures LeadsTo(pairs + more, p)
  {
    var all := pairs + more;
    if LeadsTo(pairs, p) {
      var k :| 0 <= k < |pairs| && pairs[k].to == p.point && pairs[k].endIndex == p.idx;
      assert all[k] == pairs[k];
    } else {
      var k :| 0 <= k < |more| && more[k].to == p.point && more[k].endIndex == p.idx;
      assert all[|pairs| + k] == more[k];
    }
  }

  /** Adding one interval to a line. */
  lemma LineGrows(pairs: seq<Pair>, more: seq<Pair>, g: seq<Position>, i: nat)
    requires i < |g| - 1
    requires i == 0 ==> pairs == []
    requires i > 0 ==> LineThrough(pairs, g, i)
    requires Joined(more, g[i].point, g[i + 1].point) && forall k :: 0 <= k < |more| ==> PairOn(more[k], g, i)
    ensures LineThrough(pairs + more, g, i + 1)
  {
    hide PairOn, Joined;
    var all := pairs + more;
    if i > 0 {
      JoinedAppend(pairs, more, g[0].point, g[i].point, g[i + 1].point);
    } else {
      assert all == more;
    }
    LastLeads(more, g, i);
    forall k | 0 <= k < |all| ensures PairOnSome(all[k], g) {
      if k < |pairs| {
        assert PairOnSome(pairs[k], g);
      } else {
        assert PairOn(more[k - |pairs|], g, i);
      }
    }
    forall j | 0 < j <= i + 1 ensures LeadsTo(all, g[j]) {
      LeadsToMore(pairs, more, g[j]);
    }
  }

  lemma LastLeads(more: seq<Pair>, g: seq<Position>, i: nat)
    requires i < |g| - 1
    requires Joined(more, g[i].point, g[i + 1].point) && forall k :: 0 <= k < |more| ==> PairOn(more[k], g, i)
    ensures LeadsTo(more, g[i + 1])
  {
    hide Coord;
    assert PairOn(more[|more| - 1], g, i);
  }

  lemma {:induction false} CurveThrough(g: seq<Position>, n: nat, intervals: nat)
    requires Timed(g) && n > 0 && 0 < intervals <= |g| - 1
    ensures LineThrough(CurvePairs(g, n, intervals), g, intervals)
    decreases intervals
  {
    hide Timed, LineThrough, PairOn, Joined, IntervalPairs, CurvePoints;
    IntervalLine(g, intervals - 1, n);
    if intervals > 1 {
      CurveThrough(g, n, intervals - 1);
    }
    LineGrows(CurvePairs(g, n, intervals - 1), IntervalPairs(CurvePoints(g, intervals - 1, n), g[intervals].idx, n), g,
              intervals - 1);
  }

  lemma {:induction false} StraightThrough(g: seq<Position>, intervals: nat)
    requires 0 < intervals < |g|
    ensures LineThrough(StraightPairs(g, intervals), g, intervals)
    decreases intervals
  {
    hide LineThrough;
    var i := intervals - 1;
    var last := Pair(g[i].point, g[i + 1].point, g[i + 1].idx);
    StraightPairOn(g, i);
    if intervals > 1 {
      StraightThrough(g, i);
    }
    LineGrows(StraightPairs(g, i), [last], g, i);
  }

  lemma StraightPairOn(g: seq<Position>, i: nat)
    requires i + 1 < |g|
    ensures PairOn(Pair(g[i].point, g[i + 1].point, g[i + 1].idx), g, i)
  {
  }

  /** Every segment of at least two positions is one line through all of them. */
  lemma GroupThrough(g: seq<Position>, n: nat)
    requires n > 0 && g != []
    ensures |g| == 1 ==> GroupPairs(g, n) == []
    ensures |g| > 1 ==> LineThrough(GroupPairs(g, n), g, |g| - 1)
  {
    hide LineThrough;
    if |g| > 1 {
      if Timed(g) {
        CurveThrough(g, n, |g| - 1);
      } else {
        StraightThrough(g, |g| - 1);
      }
    }
  }

  // ---------------------------------------------------------------------------------------------
  // The whole history
  // ---------------------------------------------------------------------------------------------

  /** The piece lies between two neighbouring positions of one segment. */
  ghost predicate WithinSegment(p: Pair, positions: seq<Position>, i: int) {
    PairOn(p, positions, i) && positions[i].segment == positions[i + 1].segment
  }

  ghost predicate InSomeSegment(p: Pair, positions: seq<Position>) {
    exists i :: WithinSegment(p, positions, i)
  }

  ghost predicate AllInSegments(pairs: seq<Pair>, positions: seq<Position>) {
    forall k :: 0 <= k < |pairs| ==> InSomeSegment(pairs[k], positions)
  }

  lemma AllInSegmentsAppend(p: seq<Pair>, q: seq<Pair>, positions: seq<Position>)
    requires AllInSegments(p, positions) && AllInSegments(q, positions)
    ensures AllInSegments(p + q, positions)
  {
    hide InSomeSegment;
  }

  lemma GroupInSegment(pairs: seq<Pair>, positions: seq<Position>, begin: nat, end: nat)
    requires begin < end <= |positions|
    requires pairs == [] || forall k :: 0 <= k < |pairs| ==> PairOnSome(pairs[k], positions[begin..end])
    requires forall k :: begin <= k < end ==> positions[k].segment == positions[begin].segment
    ensures AllInSegments(pairs, positions)
  {
    hide PairOnSome, InSomeSegment;
    forall k | 0 <= k < |pairs| ensures InSomeSegment(pairs[k], positions) {
      ShiftPair(pairs[k], positions, begin, end);
    }
  }

  lemma ShiftPair(p: Pair, positions: seq<Position>, begin: nat, end: nat)
    requires begin < end <= |positions| && PairOnSome(p, positions[begin..end])
    requires forall k :: begin <= k < end ==> positions[k].segment == positions[begin].segment
    ensures InSomeSegment(p, positions)
  {
    var i :| PairOn(p, positions[begin..end], i);
    assert WithinSegment(p, positions, begin + i);
  }

  /**
   * Every drawn piece runs monotonically between two neighbouring positions of one segment, and every position that
   * continues a segment is reached exactly. So no coordinate of the drawing leaves the range of the data, and nothing
   * connects two segments.
   */
  lemma {:induction false} LineSound(positions: seq<Position>, begin: nat, n: nat)
    requires n > 0 && begin <= |positions|
    ensures var pairs := LinePairs(positions, begin, n);
            && AllInSegments(pairs, positions)
            && (forall j :: begin < j < |positions| && positions[j].segment == positions[j - 1].segment ==>
                  LeadsTo(pairs, positions[j]))
    decreases |positions| - begin
  {
    hide GroupPairs, PairOn, Joined, LeadsTo, InSomeSegment, PairOnSome;
    if begin < |positions| {
      var end := GroupEnd(positions, begin, begin + 1);
      var g := positions[begin..end];
      var head, tail := GroupPairs(g, n), LinePairs(positions, end, n);
      LineSound(positions, end, n);
      GroupThrough(g, n);
      GroupInSegment(head, positions, begin, end);
      AllInSegmentsAppend(head, tail, positions);
      forall j | begin < j < |positions| && positions[j].segment == positions[j - 1].segment
        ensures LeadsTo(head + tail, positions[j])
      {
        if j < end {
          assert LeadsTo(head, g[j - begin]);
        } else {
          assert j != end;
          assert LeadsTo(tail, positions[j]);
        }
        LeadsToMore(head, tail, positions[j]);
      }
    }
  }

  /** The position is an end of some piece. */
  ghost predicate Drawn(pairs: seq<Pair>, p: Position) {
    exists k :: 0 <= k < |pairs| && (pairs[k].from == p.point || pairs[k].to == p.point)
  }

  lemma DrawnMore(pairs: seq<Pair>, more: seq<Pair>, p: Position)
    requires Drawn(pairs, p) || Drawn(more, p)
    ensures Drawn(pairs + more, p)
  {
    var all := pairs + more;
    if Drawn(pairs, p) {
      var k :| 0 <= k < |pairs| && (pairs[k].from == p.point || pairs[k].to == p.point);
      assert all[k] == pairs[k];
    } else {
      var k :| 0 <= k < |more| && (more[k].from == p.point || more[k].to == p.point);
      assert all[|pairs| + k] == more[k];
    }
  }

  lemma ThroughDraws(pairs: seq<Pair>, g: seq<Position>, j: nat)
    requires |g| > 1 && LineThrough(pairs, g, |g| - 1) && j < |g|
    ensures Drawn(pairs, g[j])
  {
    if j > 0 {
      assert LeadsTo(pairs, g[j]);
    }
  }

  /** Every position with a neighbour in its segment is drawn, so the data's extremes are among the drawn points. */
  lemma {:induction false} PositionsDrawn(positions: seq<Position>, begin: nat, n: nat)
    requires n > 0 && begin <= |positions|
    ensures forall j :: begin <= j < |positions| - 1 && positions[j].segment == positions[j + 1].segment ==>
              Drawn(LinePairs(positions, begin, n), positions[j]) && Drawn(LinePairs(positions, begin, n), positions[j + 1])
    decreases |positions| - begin
  {
    hide GroupPairs, LineThrough, Drawn;
    if begin < |positions| {
      var end := GroupEnd(positions, begin, begin + 1);
      var g := positions[begin..end];
      var head, tail := GroupPairs(g, n), LinePairs(positions, end, n);
      PositionsDrawn(positions, end, n);
      GroupThrough(g, n);
      forall j | begin <= j < |positions| - 1 && positions[j].segment == positions[j + 1].segment
        ensures Drawn(head + tail, positions[j]) && Drawn(head + tail, positions[j + 1])
      {
        if j < end {
          assert j + 1 != end;
          ThroughDraws(head, g, j - begin);
          ThroughDraws(head, g, j + 1 - begin);
        }
        DrawnMore(head, tail, positions[j]);
        DrawnMore(head, tail, positions[j + 1]);
      }
    }
  }

  /** Coordinates of a piece stay within any bounds that hold for the data. */
  lemma PieceWithinData(p: Pair, positions: seq<Position>, axis: Axis, lo: real, hi: real)
    requires InSomeSegment(p, positions)
    requires forall j :: 0 <= j < |positions| ==> lo <= Coord(positions[j].point, axis) <= hi
    ensures lo <= Coord(p.from, axis) <= hi && lo <= Coord(p.to, axis) <= hi
  {
    hide Coord;
    var i :| WithinSegment(p, positions, i);
    assert OnTheWay(Coord(positions[i].point, axis), Coord(p.from, axis), Coord(p.to, axis), Coord(positions[i + 1].point, axis));
  }
}
