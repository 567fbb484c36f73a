/** What exactly the drawn trajectory is: how many pieces, where each of them ends, and which belong to the visible trail. */
module TrajectoryShape {
  import opened Domain
  import opened MonotoneCurve
  import opened TrajectoryCurve

  /** The finest of one to four subdivisions that stays within 12,000 pieces; one if none does. */
  lemma SubdivisionsFinest(count: nat)
    requires count > 0
    ensures var n := Subdivisions(count);
            && 1 <= n <= 4 && (n == 1 || n * count <= 12_000) && (n == 4 || (n + 1) * count > 12_000)
  {
    var q := 12_000 / count;
    assert q * count <= 12_000 < (q + 1) * count;
    if q >= 4 {
      assert 4 * count <= q * count;
    } else if q <= 1 {
      assert (q + 1) * count <= 2 * count;
    }
  }

  // ---------------------------------------------------------------------------------------------
  // Where the pieces of a run stand
  // ---------------------------------------------------------------------------------------------

  lemma {:induction false} IntervalPieces(points: seq<Vector>, endIndex: int, steps: nat)
    requires steps < |points|
    ensures var r := IntervalPairs(points, endIndex, steps);
            |r| == steps && forall k :: 0 <= k < steps ==> r[k] == Pair(points[k], points[k + 1], endIndex)
    ensures forall p :: p in IntervalPairs(points, endIndex, steps) ==> p.endIndex == endIndex
    decreases steps
  {
    if steps > 0 {
      IntervalPieces(points, endIndex, steps - 1);
    }
  }

  lemma CurvePointsEnds(g: seq<Position>, i: nat, n: nat, k: nat)
    requires Timed(g) && i < |g| - 1 && 0 < k <= n
    ensures CurvePoints(g, i, n)[k - 1] == CurvePoint(g, i, k - 1, n) && CurvePoints(g, i, n)[k] == CurvePoint(g, i, k, n)
  {
    hide CurvePoint, Timed, CurvePoints;
    CurvePointsAre(g, i, n);
    CurvePointSound(g, i, k, n);
  }

  /** Piece `k` of interval `i` leads from the curve point `k - 1` to the next. */
  lemma {:induction false} CurvePieces(g: seq<Position>, n: nat, intervals: nat, i: nat, k: nat)
    requires Timed(g) && n > 0 && i < intervals <= |g| - 1 && 0 < k <= n
    ensures |CurvePairs(g, n, intervals)| == intervals * n && 0 <= i * n + k - 1 < intervals * n
    ensures CurvePairs(g, n, intervals)[i * n + k - 1]
         == Pair(CurvePoint(g, i, k - 1, n), CurvePoint(g, i, k, n), g[i + 1].idx)
    decreases intervals
  {
    hide CurvePoint, CurvePoints, Timed, IntervalPairs;
    var last := intervals - 1;
    var points := CurvePoints(g, last, n);
    IntervalPieces(points, g[intervals].idx, n);
    Rows(last, i, n, k);
    CurveLength(g, n, last);
    if i < last {
      CurvePieces(g, n, last, i, k);
    } else {
      CurvePointsEnds(g, i, n, k);
    }
  }

  lemma {:induction false} CurveLength(g: seq<Position>, n: nat, intervals: nat)
    requires Timed(g) && n > 0 && intervals <= |g| - 1
    ensures |CurvePairs(g, n, intervals)| == intervals * n
    decreases intervals
  {
    hide CurvePoints, Timed, IntervalPairs;
    if intervals > 0 {
      CurveLength(g, n, intervals - 1);
      IntervalPieces(CurvePoints(g, intervals - 1, n), g[intervals].idx, n);
      Rows(intervals - 1, intervals - 1, n, 1);
    }
  }

  lemma Rows(last: nat, i: nat, n: nat, k: nat)
    requires i <= last && 0 < k <= n
    ensures (last + 1) * n == last * n + n
    ensures i < last ==> i * n + k - 1 < last * n
    ensures 0 <= i * n
  {
    if i < last {
      assert i * n + n == (i + 1) * n;
      assert (last - (i + 1)) * n >= 0;
    }
  }

  lemma {:induction false} StraightPieces(g: seq<Position>, intervals: nat)
    requires g != [] && intervals <= |g| - 1
    ensures var r := StraightPairs(g, intervals);
            |r| == intervals && forall i :: 0 <= i < intervals ==> r[i] == Pair(g[i].point, g[i + 1].point, g[i + 1].idx)
    decreases intervals
  {
    if intervals > 0 {
      StraightPieces(g, intervals - 1);
    }
  }

  /** Rows `b..e` carry one segment, and their neighbours on both sides another one. */
  ghost predicate IsRun(positions: seq<Position>, b: int, e: int) {
    && 0 <= b < e <= |positions|
    && (forall k :: b <= k < e ==> positions[k].segment == positions[b].segment)
    && (b > 0 ==> positions[b - 1].segment != positions[b].segment)
    && (e < |positions| ==> positions[e].segment != positions[b].segment)
  }

  lemma SplitSeq(a: seq<Pair>, b: seq<Pair>, at: nat, part: seq<Pair>)
    requires at + |part| <= |b| && b[at..at + |part|] == part
    ensures (a + b)[|a| + at..|a| + at + |part|] == part
  {
  }

  lemma RunWithin(positions: seq<Position>, b: int, e: int)
    requires IsRun(positions, b, e)
    ensures 0 <= b < e <= |positions|
  {
  }

  /** A group that starts at a run is the run; one that starts before it ends before it. */
  lemma GroupMeetsRun(positions: seq<Position>, begin: nat, b: nat, e: nat)
    requires begin <= b && IsRun(positions, b, e)
    ensures begin == b ==> GroupEnd(positions, begin, begin + 1) == e
    ensures begin < b ==> GroupEnd(positions, begin, begin + 1) <= b
  {
    hide GroupEnd;
    var end := GroupEnd(positions, begin, begin + 1);
    assert forall k :: begin < k < end ==> positions[k].segment == positions[begin].segment;
  }

  /** The pieces of a run stand together among all pieces. */
  lemma {:induction false} RunStands(positions: seq<Position>, begin: nat, b: nat, e: nat, n: nat) returns (at: nat)
    requires n > 0 && begin <= b && IsRun(positions, b, e)
    ensures var part := GroupPairs(positions[b..e], n);
            at + |part| <= |LinePairs(positions, begin, n)| && LinePairs(positions, begin, n)[at..at + |part|] == part
    decreases b - begin
  {
    hide GroupPairs, GroupEnd, IsRun;
    RunWithin(positions, b, e);
    var end := GroupEnd(positions, begin, begin + 1);
    GroupMeetsRun(positions, begin, b, e);
    if begin == b {
      at := 0;
    } else {
      var rest := RunStands(positions, end, b, e, n);
      var head, tail := GroupPairs(positions[begin..end], n), LinePairs(positions, end, n);
      SplitSeq(head, tail, rest, GroupPairs(positions[b..e], n));
      at := |head| + rest;
    }
  }

  // ---------------------------------------------------------------------------------------------
  // The curve of a run
  // ---------------------------------------------------------------------------------------------

  function ThreePoint(a: real, b: real, ha: real, hb: real): real
    requires ha > 0.0 && hb > 0.0
  {
    ((2.0 * ha + hb) * a - ha * b) / (ha + hb)
  }

  /** `m` is the three-point tangent, limited to what lies between nothing and three times the end slope. */
  ghost predicate EndRule(m: real, a: real, b: real, ha: real, hb: real)
    requires ha > 0.0 && hb > 0.0
  {
    m == ClampReal(ThreePoint(a, b, ha, hb), MinReal(0.0, 3.0 * a), MaxReal(0.0, 3.0 * a))
  }

  /** `m` is the harmonic mean of two slopes of one sign, each weighted by its own step and twice the other, or nothing. */
  ghost predicate InnerRule(m: real, before: real, after: real, hBefore: real, hAfter: real) {
    if before * after <= 0.0 then m == 0.0
    else m * ((2.0 * hAfter + hBefore) * after + (hAfter + 2.0 * hBefore) * before) == 3.0 * (hBefore + hAfter) * (before * after)
  }

  /** `m` is the tangent of the data with slopes `d` over the steps `h` at data point `k`. */
  ghost predicate IsTangent(m: real, d: seq<real>, h: seq<real>, k: nat)
    requires Positive(h) && |d| == |h| && k <= |d|
  {
    var n := |d|;
    if n == 1 then m == d[0]
    else if k == 0 then EndRule(m, d[0], d[1], h[0], h[1])
    else if k == n then EndRule(m, d[n - 1], d[n - 2], h[n - 1], h[n - 2])
    else InnerRule(m, d[k - 1], d[k], h[k - 1], h[k])
  }

  lemma TangentsExact(d: seq<real>, h: seq<real>, k: nat)
    requires Positive(h) && |d| == |h| && k <= |d|
    ensures IsTangent(Tangents(d, h)[k], d, h, k)
  {
    hide EndTangent, InnerTangent, EndRule, InnerRule;
    var n := |d|;
    if n > 1 {
      if k == 0 {
        EndRuleHolds(d[0], d[1], h[0], h[1]);
      } else if k == n {
        EndRuleHolds(d[n - 1], d[n - 2], h[n - 1], h[n - 2]);
      } else {
        InnerRuleHolds(d[k - 1], d[k], h[k - 1], h[k]);
      }
    }
  }

  lemma EndRuleHolds(a: real, b: real, ha: real, hb: real)
    requires ha > 0.0 && hb > 0.0
    ensures EndRule(EndTangent(a, b, ha, hb), a, b, ha, hb)
  {
    hide EndTangent, ClampReal;
    EndTangentNearest(a, b, ha, hb);
  }

  lemma InnerRuleHolds(before: real, after: real, hBefore: real, hAfter: real)
    requires hBefore > 0.0 && hAfter > 0.0
    ensures InnerRule(InnerTangent(before, after, hBefore, hAfter), before, after, hBefore, hAfter)
  {
    hide InnerTangent;
    InnerTangentHarmonic(before, after, hBefore, hAfter);
  }

  /** Times are finite and strictly increasing. */
  ghost predicate Rising(g: seq<Position>) {
    (forall i :: 0 <= i < |g| ==> g[i].ts.Finite?) && forall i :: 0 <= i < |g| - 1 ==> g[i].ts.value < g[i + 1].ts.value
  }

  /** The steps in time, and the slopes of one coordinate over them. */
  ghost predicate DataOf(g: seq<Position>, axis: Axis, d: seq<real>, h: seq<real>)
    requires Rising(g)
  {
    && |h| == |d| == |g| - 1
    && forall i :: 0 <= i < |h| ==>
         h[i] == g[i + 1].ts.value - g[i].ts.value && h[i] > 0.0
         && d[i] == (Coord(g[i + 1].point, axis) - Coord(g[i].point, axis)) / h[i]
  }

  /**
   * Two places are the points at `u` and at `v` of the interval from position `i` to the next, on the cubic through both
   * whose tangents there are those of the data.
   */
  ghost predicate OnCubic(g: seq<Position>, axis: Axis, i: nat, x: real, u: real, y: real, v: real)
    requires Rising(g) && i + 1 < |g|
  {
    exists d, h, m0, m1 :: OnCubicOf(g, axis, i, x, u, y, v, d, h, m0, m1)
  }

  ghost predicate OnCubicOf(g: seq<Position>, axis: Axis, i: nat, x: real, u: real, y: real, v: real, d: seq<real>, h: seq<real>,
                            m0: real, m1: real)
    requires Rising(g) && i + 1 < |g|
  {
    var a, b := Coord(g[i].point, axis), Coord(g[i + 1].point, axis);
    && DataOf(g, axis, d, h) && IsTangent(m0, d, h, i) && IsTangent(m1, d, h, i + 1)
    && x == Hermite(a, b, h[i], m0, m1, u) && y == Hermite(a, b, h[i], m0, m1, v)
  }

  lemma RisingIsTimed(g: seq<Position>)
    requires |g| > 1
    ensures Timed(g) <==> Rising(g)
  {
    if Timed(g) {
      assert Forward(g, |g| - 2);
      forall i | 0 <= i < |g| ensures g[i].ts.Finite? {
        assert i < |g| - 1 ==> Forward(g, i);
      }
      forall i | 0 <= i < |g| - 1 ensures g[i].ts.value < g[i + 1].ts.value {
        assert Forward(g, i);
      }
    }
  }

  lemma DataIsOf(g: seq<Position>, axis: Axis)
    requires |g| > 1 && Rising(g) && Timed(g)
    ensures DataOf(g, axis, Slopes(Values(g, axis), Steps(g)), Steps(g))
  {
    hide Timed;
  }

  lemma CurvePointOnCubic(g: seq<Position>, i: nat, k: nat, n: nat, axis: Axis)
    requires Timed(g) && Rising(g) && i + 1 < |g| && 0 < k <= n
    ensures OnCubic(g, axis, i, Coord(CurvePoint(g, i, k - 1, n), axis), (k - 1) as real / n as real,
                    Coord(CurvePoint(g, i, k, n), axis), k as real / n as real)
  {
    hide CurveCoord, CurvePoint, Timed, Hermite, Coord, Slopes, Steps, Values, IsTangent, OnTheWay;
    var values, h := Values(g, axis), Steps(g);
    var d := Slopes(values, h);
    var m := Tangents(d, h);
    Fractions(k, n);
    CoordOfCurve(g, i, k - 1, n, axis);
    CoordOfCurve(g, i, k, n, axis);
    CurveCoordSound(values, h, i, Fraction(k - 1, n), Fraction(k, n));
    CurveCoordSound(values, h, i, Fraction(k, n), Fraction(k, n));
    DataIsOf(g, axis);
    TangentsExact(d, h, i);
    TangentsExact(d, h, i + 1);
    assert OnCubicOf(g, axis, i, Coord(CurvePoint(g, i, k - 1, n), axis), Fraction(k - 1, n),
                     Coord(CurvePoint(g, i, k, n), axis), Fraction(k, n), d, h, m[i], m[i + 1]);
  }

  /**
   * Whatever the positions: in a run whose times are finite and rise, piece `k` of the interval between two positions
   * goes from `k - 1` to `k` parts of the subdivision along the cubic that the data determines.
   */
  lemma RunIsCurve(positions: seq<Position>, b: nat, e: nat, i: nat, k: nat) returns (q: nat)
    requires IsRun(positions, b, e) && Rising(positions[b..e])
    requires b <= i && i + 1 < e && 0 < k <= Subdivisions(|positions|)
    ensures var n := Subdivisions(|positions|);
            var pairs, g := LinePairs(positions, 0, n), positions[b..e];
            && q < |pairs| && pairs[q].endIndex == positions[i + 1].idx
            && forall axis :: OnCubic(g, axis, i - b, Coord(pairs[q].from, axis), (k - 1) as real / n as real,
                                      Coord(pairs[q].to, axis), k as real / n as real)
  {
    hide Timed, Rising, CurvePairs, StraightPairs, CurvePoint, OnCubic, LinePairs, Coord;
    var n, g := Subdivisions(|positions|), positions[b..e];
    RisingIsTimed(g);
    var at := RunStands(positions, 0, b, e, n);
    CurvePieces(g, n, |g| - 1, i - b, k);
    q := at + ((i - b) * n + k - 1);
    var pairs := LinePairs(positions, 0, n);
    assert pairs[at..at + |GroupPairs(g, n)|][(i - b) * n + k - 1] == pairs[q];
    forall axis: Axis
      ensures OnCubic(g, axis, i - b, Coord(pairs[q].from, axis), (k - 1) as real / n as real,
                      Coord(pairs[q].to, axis), k as real / n as real)
    {
      CurvePointOnCubic(g, i - b, k, n, axis);
    }
  }

  /** In any other run, one straight piece leads from each position to the next. */
  lemma RunIsStraight(positions: seq<Position>, b: nat, e: nat, i: nat) returns (q: nat)
    requires IsRun(positions, b, e) && !Rising(positions[b..e]) && b <= i && i + 1 < e
    ensures var pairs := LinePairs(positions, 0, Subdivisions(|positions|));
            q < |pairs| && pairs[q] == Pair(positions[i].point, positions[i + 1].point, positions[i + 1].idx)
  {
    hide Timed, Rising, CurvePairs, StraightPairs, LinePairs;
    var n, g := Subdivisions(|positions|), positions[b..e];
    RisingIsTimed(g);
    var at := RunStands(positions, 0, b, e, n);
    StraightPieces(g, |g| - 1);
    q := at + (i - b);
    var pairs := LinePairs(positions, 0, n);
    assert pairs[at..at + |GroupPairs(g, n)|][i - b] == pairs[q];
  }

  // ---------------------------------------------------------------------------------------------
  // The visible trail
  // ---------------------------------------------------------------------------------------------

  /** Pieces lead to rows in order, behind row `lo` and up to row `hi`. */
  ghost predicate Onward(pairs: seq<Pair>, lo: int, hi: int) {
    && (forall k :: 0 <= k < |pairs| ==> lo < pairs[k].endIndex <= hi)
    && forall j, k :: 0 <= j < k < |pairs| ==> pairs[j].endIndex <= pairs[k].endIndex
  }

  /** Row indices rise. */
  ghost predicate InRowOrder(positions: seq<Position>) {
    forall j, k :: 0 <= j < k < |positions| ==> positions[j].idx < positions[k].idx
  }

  lemma OnwardAppend(p: seq<Pair>, q: seq<Pair>, lo: int, mid: int, hi: int)
    requires Onward(p, lo, mid) && Onward(q, mid, hi) && lo <= mid <= hi
    ensures Onward(p + q, lo, hi)
  {
  }

  lemma {:induction false} CurveOnward(g: seq<Position>, n: nat, intervals: nat)
    requires Timed(g) && n > 0 && intervals <= |g| - 1 && InRowOrder(g)
    ensures Onward(CurvePairs(g, n, intervals), g[0].idx, g[intervals].idx)
    decreases intervals
  {
    hide CurvePoints, Timed, IntervalPairs;
    if intervals > 0 {
      CurveOnward(g, n, intervals - 1);
      var more := IntervalPairs(CurvePoints(g, intervals - 1, n), g[intervals].idx, n);
      IntervalPieces(CurvePoints(g, intervals - 1, n), g[intervals].idx, n);
      assert g[intervals - 1].idx < g[intervals].idx && g[0].idx <= g[intervals - 1].idx;
      assert forall k :: 0 <= k < |more| ==> more[k] in more && more[k].endIndex == g[intervals].idx;
      OnwardAppend(CurvePairs(g, n, intervals - 1), more, g[0].idx, g[intervals - 1].idx, g[intervals].idx);
    }
  }

  lemma StraightOnward(g: seq<Position>)
    requires g != [] && InRowOrder(g)
    ensures Onward(StraightPairs(g, |g| - 1), g[0].idx, g[|g| - 1].idx)
  {
    hide StraightPairs;
    StraightPieces(g, |g| - 1);
    var r := StraightPairs(g, |g| - 1);
    assert forall k :: 0 <= k < |r| ==> r[k].endIndex == g[k + 1].idx;
  }

  lemma {:induction false} LineOnward(positions: seq<Position>, begin: nat, n: nat, lo: int, hi: int)
    requires n > 0 && begin <= |positions| && InRowOrder(positions) && lo <= hi
    requires forall k :: begin <= k < |positions| ==> lo <= positions[k].idx <= hi
    ensures Onward(LinePairs(positions, begin, n), lo, hi)
    decreases |positions| - begin
  {
    hide CurvePairs, StraightPairs, Timed;
    if begin < |positions| {
      var end := GroupEnd(positions, begin, begin + 1);
      var g := positions[begin..end];
      if Timed(g) {
        CurveOnward(g, n, |g| - 1);
      } else {
        StraightOnward(g);
      }
      LineOnward(positions, end, n, positions[end - 1].idx, hi);
      OnwardAppend(GroupPairs(g, n), LinePairs(positions, end, n), lo, positions[end - 1].idx, hi);
    }
  }

  lemma {:induction false} ActiveIsPrefix(pairs: seq<Pair>, trailLen: int) returns (count: nat)
    requires forall j, k :: 0 <= j < k < |pairs| ==> pairs[j].endIndex <= pairs[k].endIndex
    ensures count <= |pairs| && Active(pairs, trailLen) == pairs[..count]
    ensures forall k :: 0 <= k < |pairs| ==> (k < count <==> pairs[k].endIndex < trailLen)
    decreases |pairs|
  {
    if pairs == [] {
      count := 0;
    } else {
      var init, last := pairs[..|pairs| - 1], pairs[|pairs| - 1];
      count := ActiveIsPrefix(init, trailLen);
      if last.endIndex < trailLen {
        assert forall k :: 0 <= k < |init| ==> pairs[k].endIndex <= last.endIndex;
        assert forall k :: 0 <= k < |init| ==> init[k].endIndex < trailLen;
        assert count == |init|;
        assert init[..count] + [last] == pairs[..count + 1];
        count := count + 1;
      } else {
        assert init[..count] == pairs[..count];
      }
    }
  }

  /** With rows in order, the visible trail is the drawing up to the last piece that leads to a row of the trail. */
  lemma TrailIsPrefix(positions: seq<Position>, trailLen: int) returns (count: nat)
    requires InRowOrder(positions)
    ensures var pairs := LinePairs(positions, 0, Subdivisions(|positions|));
            && count <= |pairs| && Active(pairs, trailLen) == pairs[..count]
            && forall k :: 0 <= k < |pairs| ==> (k < count <==> pairs[k].endIndex < trailLen)
  {
    hide LinePairs;
    var n := Subdivisions(|positions|);
    if positions == [] {
      LineOnward(positions, 0, n, 0, 0);
    } else {
      LineOnward(positions, 0, n, positions[0].idx, positions[|positions| - 1].idx);
    }
    count := ActiveIsPrefix(LinePairs(positions, 0, n), trailLen);
  }
}
