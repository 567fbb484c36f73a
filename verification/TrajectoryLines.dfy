/** The loops of the 3D map that build the trajectory's vertices and thin out long histories. */
module TrajectoryLines {
  import opened Domain
  import opened EvenSpread
  import opened MonotoneCurve
  import opened TrajectoryCurve

  lemma AddPair(pairs: seq<Pair>, p: Pair, trailLen: int)
    ensures Vertices(pairs + [p]) == Vertices(pairs) + [p.from, p.to]
    ensures Active(pairs + [p], trailLen) == Active(pairs, trailLen) + (if p.endIndex < trailLen then [p] else [])
  {
    assert (pairs + [p])[..|pairs|] == pairs;
  }

  /** The vertices pushed so far are those of `pairs`. */
  ghost predicate Pushed(full: seq<Vector>, active: seq<Vector>, pairs: seq<Pair>, trailLen: int) {
    full == Vertices(pairs) && active == Vertices(Active(pairs, trailLen))
  }

  /** Push one piece, and push it again on the visible trail if it leads there. */
  method Add(p: Pair, trailLen: int, vertices: seq<Vector>, trail: seq<Vector>, ghost pairs: seq<Pair>)
    returns (full: seq<Vector>, active: seq<Vector>)
    requires Pushed(vertices, trail, pairs, trailLen)
    ensures Pushed(full, active, pairs + [p], trailLen)
  {
    AddPair(pairs, p, trailLen);
    full := vertices + [p.from, p.to];
    active := trail;
    if p.endIndex < trailLen {
      AddPair(Active(pairs, trailLen), p, trailLen);
      active := active + [p.from, p.to];
    } else {
      assert Active(pairs, trailLen) + [] == Active(pairs, trailLen);
    }
  }

  /** The tangents of one axis, from slopes. */
  method ComputeTangents(values: seq<real>, h: seq<real>) returns (m: seq<real>)
    requires Spaced(values, h)
    ensures m == Tangents(Slopes(values, h), h)
  {
    hide EndTangent, InnerTangent;
    var d := Slopes(values, h);
    var n := |d|;
    if n == 1 {
      m := [d[0], d[0]];
      return;
    }
    m := [EndTangent(d[0], d[1], h[0], h[1])];
    for i := 1 to n
      invariant |m| == i
      invariant forall k :: 0 <= k < i ==> m[k] == TangentAt(d, h, k)
    {
      m := m + [InnerTangent(d[i - 1], d[i], h[i - 1], h[i])];
    }
    m := m + [EndTangent(d[n - 1], d[n - 2], h[n - 1], h[n - 2])];
  }

  /** A curve point from tangents computed once per segment. */
  method PointOn(g: seq<Position>, i: nat, step: nat, n: nat, mx: seq<real>, my: seq<real>, mz: seq<real>) returns (v: Vector)
    requires Timed(g) && i < |g| - 1 && n > 0
    requires mx == Tangents(Slopes(Values(g, X), Steps(g)), Steps(g))
    requires my == Tangents(Slopes(Values(g, Y), Steps(g)), Steps(g))
    requires mz == Tangents(Slopes(Values(g, Z), Steps(g)), Steps(g))
    ensures v == CurvePoint(g, i, step, n)
  {
    hide Hermite, Tangents, Slopes;
    var a, b, dt := g[i].point, g[i + 1].point, StepOf(g, i);
    var u := Fraction(step, n);
    v := Vector(
      ClampReal(Hermite(a.x, b.x, dt, mx[i], mx[i + 1], u), MinReal(a.x, b.x), MaxReal(a.x, b.x)),
      ClampReal(Hermite(a.y, b.y, dt, my[i], my[i + 1], u), MinReal(a.y, b.y), MaxReal(a.y, b.y)),
      ClampReal(Hermite(a.z, b.z, dt, mz[i], mz[i + 1], u), MinReal(a.z, b.z), MaxReal(a.z, b.z)));
  }

  method AddInterval(g: seq<Position>, i: nat, n: nat, mx: seq<real>, my: seq<real>, mz: seq<real>, trailLen: int,
                     vertices: seq<Vector>, trail: seq<Vector>, ghost pairs: seq<Pair>)
    returns (full: seq<Vector>, active: seq<Vector>)
    requires Timed(g) && i < |g| - 1 && n > 0 && Pushed(vertices, trail, pairs, trailLen)
    requires mx == Tangents(Slopes(Values(g, X), Steps(g)), Steps(g))
    requires my == Tangents(Slopes(Values(g, Y), Steps(g)), Steps(g))
    requires mz == Tangents(Slopes(Values(g, Z), Steps(g)), Steps(g))
    ensures Pushed(full, active, pairs + IntervalPairs(CurvePoints(g, i, n), g[i + 1].idx, n), trailLen)
  {
    hide Pushed, CurvePoint, CurvePoints, Tangents, Slopes, Timed;
    full, active := vertices, trail;
    ghost var points, endIndex := CurvePoints(g, i, n), g[i + 1].idx;
    CurvePointsAre(g, i, n);
    assert pairs + [] == pairs;
    var previous := g[i].point;
    for step := 1 to n + 1
      invariant previous == points[step - 1]
      invariant Pushed(full, active, pairs + IntervalPairs(points, endIndex, step - 1), trailLen)
    {
      var point := PointOn(g, i, step, n, mx, my, mz);
      ghost var done, p := IntervalPairs(points, endIndex, step - 1), Pair(previous, point, endIndex);
      full, active := Add(Pair(previous, point, g[i + 1].idx), trailLen, full, active, pairs + done);
      assert pairs + done + [p] == pairs + (done + [p]);
      previous := point;
    }
  }

  method AddCurve(g: seq<Position>, n: nat, trailLen: int, vertices: seq<Vector>, trail: seq<Vector>, ghost pairs: seq<Pair>)
    returns (full: seq<Vector>, active: seq<Vector>)
    requires Timed(g) && n > 0 && Pushed(vertices, trail, pairs, trailLen)
    ensures Pushed(full, active, pairs + CurvePairs(g, n, |g| - 1), trailLen)
  {
    hide Pushed, IntervalPairs, CurvePoints, Tangents, Slopes;
    var h := Steps(g);
    var mx := ComputeTangents(Values(g, X), h);
    var my := ComputeTangents(Values(g, Y), h);
    var mz := ComputeTangents(Values(g, Z), h);
    full, active := vertices, trail;
    assert pairs + [] == pairs;
    for i := 0 to |h|
      invariant Pushed(full, active, pairs + CurvePairs(g, n, i), trailLen)
    {
      ghost var before, more := CurvePairs(g, n, i), IntervalPairs(CurvePoints(g, i, n), g[i + 1].idx, n);
      full, active := AddInterval(g, i, n, mx, my, mz, trailLen, full, active, pairs + before);
      assert pairs + before + more == pairs + (before + more);
    }
  }

  method AddStraight(g: seq<Position>, trailLen: int, vertices: seq<Vector>, trail: seq<Vector>, ghost pairs: seq<Pair>)
    returns (full: seq<Vector>, active: seq<Vector>)
    requires g != [] && Pushed(vertices, trail, pairs, trailLen)
    ensures Pushed(full, active, pairs + StraightPairs(g, |g| - 1), trailLen)
  {
    hide Pushed;
    full, active := vertices, trail;
    assert pairs + [] == pairs;
    for i := 1 to |g|
      invariant Pushed(full, active, pairs + StraightPairs(g, i - 1), trailLen)
    {
      ghost var p := Pair(g[i - 1].point, g[i].point, g[i].idx);
      full, active := Add(Pair(g[i - 1].point, g[i].point, g[i].idx), trailLen, full, active, pairs + StraightPairs(g, i - 1));
      assert pairs + StraightPairs(g, i - 1) + [p] == pairs + (StraightPairs(g, i - 1) + [p]);
    }
  }

  method AddGroup(g: seq<Position>, n: nat, trailLen: int, vertices: seq<Vector>, trail: seq<Vector>, ghost pairs: seq<Pair>)
    returns (full: seq<Vector>, active: seq<Vector>)
    requires g != [] && n > 0 && Pushed(vertices, trail, pairs, trailLen)
    ensures Pushed(full, active, pairs + GroupPairs(g, n), trailLen)
  {
    hide Pushed, CurvePairs, StraightPairs;
    if Timed(g) {
      full, active := AddCurve(g, n, trailLen, vertices, trail, pairs);
    } else {
      full, active := AddStraight(g, trailLen, vertices, trail, pairs);
    }
  }

  /** The vertices of the whole trajectory and of the visible trail, segment by segment. */
  method TrajectoryLinePoints(positions: seq<Position>, trailLen: int) returns (full: seq<Vector>, active: seq<Vector>)
    ensures Pushed(full, active, LinePairs(positions, 0, Subdivisions(|positions|)), trailLen)
  {
    hide GroupPairs;
    var n := Subdivisions(|positions|);
    full, active := [], [];
    ghost var pairs := [];
    var begin := 0;
    while begin < |positions|
      invariant begin <= |positions|
      invariant Pushed(full, active, pairs, trailLen)
      invariant pairs + LinePairs(positions, begin, n) == LinePairs(positions, 0, n)
    {
      var end := FindGroupEnd(positions, begin);
      var g := positions[begin..end];
      full, active := AddGroup(g, n, trailLen, full, active, pairs);
      ghost var group, rest := GroupPairs(g, n), LinePairs(positions, end, n);
      assert pairs + (group + rest) == (pairs + group) + rest;
      pairs := pairs + group;
      begin := end;
    }
    assert pairs + [] == pairs;
  }

  method FindGroupEnd(positions: seq<Position>, begin: nat) returns (end: nat)
    requires begin < |positions|
    ensures end == GroupEnd(positions, begin, begin + 1)
  {
    end := begin + 1;
    while end < |positions| && positions[end].segment == positions[begin].segment
      invariant begin < end <= |positions|
      invariant GroupEnd(positions, begin, end) == GroupEnd(positions, begin, begin + 1)
    {
      end := end + 1;
    }
  }

  /** Evenly spread positions of a history, both ends included when the budget allows two. */
  method CappedPositions(length: int, budget: int) returns (result: seq<int>)
    ensures |result| == Max(0, Min(length, budget))
    ensures StrictlyIncreasing(result) && forall k :: 0 <= k < |result| ==> 0 <= result[k] < length
    ensures length <= budget ==> forall k :: 0 <= k < |result| ==> result[k] == k
    ensures 1 <= budget && 1 <= length ==> result[0] == 0
    ensures 2 <= budget && 1 <= length ==> result[|result| - 1] == length - 1
    ensures 2 <= budget < length ==> forall k :: 0 <= k < budget ==> result[k] == Share(k, length - 1, budget - 1)
  {
    if length <= 0 || budget <= 0 {
      return [];
    }
    var count := Min(length, budget);
    if count == length {
      return seq(count, i => i);
    }
    if count == 1 {
      return [0];
    }
    hide Share;
    var last, denominator := length - 1, count - 1;
    ShareEnds(last, denominator);
    result := [];
    for index := 0 to count
      invariant |result| == index
      invariant forall k :: 0 <= k < index ==> result[k] == Share(k, last, denominator) <= last
      invariant StrictlyIncreasing(result)
    {
      forall k | 0 <= k < index ensures Share(k, last, denominator) < Share(index, last, denominator) {
        ShareIncreasing(k, index, last, denominator);
      }
      if index < denominator {
        ShareIncreasing(index, denominator, last, denominator);
      }
      result := result + [Share(index, last, denominator)];
    }
  }
}
