/** What appending does to the display: which rows may move, where they are drawn, and what a segment means. */
module GpsDisplay {
  import opened Domain
  import opened GpsTrajectory
  import opened GpsCompaction
  import opened RealArithmetic

  /** Every fix lies before the given row. */
  ghost predicate Below(fixes: seq<Fix>, index: int) {
    forall k :: 0 <= k < |fixes| ==> fixes[k].index < index as real
  }

  function Newest(t: Trajectory): Option<Anchor> {
    if t.fixes == [] then None else Some(t.fixes[|t.fixes| - 1].anchor)
  }

  /** The anchor that a sample adds, if any. It does not depend on row indices. */
  function Grown(t: Trajectory, sample: FlightSample): Option<Anchor> {
    if !ValidSample(sample) then None
    else
      var lat, lon := sample.coordinates.latitude.value, sample.coordinates.longitude.value;
      if Newest(t).None? then Some(Anchor(sample.timestamp, lat, lon, t.currentSegment))
      else if !Interrupts(t, sample) && lat == Newest(t).value.latitude && lon == Newest(t).value.longitude then None
      else Some(Anchor(sample.timestamp, lat, lon, if Interrupts(t, sample) then t.currentSegment + 1 else t.currentSegment))
  }

  /** An earlier row is affected by a new anchor only when its interval was still open. */
  function Extend(b: Bracket, grown: Option<Anchor>): Bracket {
    if grown.Some? && b.next.None? then Bracket(b.previous, grown, false) else b
  }

  /** The bracket of the appended row itself. */
  function OwnBracket(newest: Option<Anchor>, grown: Option<Anchor>): Bracket {
    Bracket(newest, grown, grown.Some?)
  }

  lemma AppendFixes(t: Trajectory, sample: FlightSample, index: int)
    ensures Append(t, sample, index).0.fixes
         == t.fixes + (if Grown(t, sample).Some? then [Fix(index as real, Grown(t, sample).value)] else [])
  {
    hide ValidSample;
  }

  lemma AppendBracket(t: Trajectory, sample: FlightSample, index: int, i: int)
    requires Sorted(t.fixes) && Below(t.fixes, index) && i <= index
    ensures var next := Append(t, sample, index).0;
            && Sorted(next.fixes) && Below(next.fixes, index + 1)
            && BracketAt(next.fixes, i) == (if i < index then Extend(BracketAt(t.fixes, i), Grown(t, sample))
                                            else OwnBracket(Newest(t), Grown(t, sample)))
  {
    hide Append, Grown, Sorted, Below, BracketAt;
    AppendFixes(t, sample, index);
    GrowBracket(t.fixes, Grown(t, sample), index, i);
  }

  lemma GrowBracket(fixes: seq<Fix>, grown: Option<Anchor>, index: int, i: int)
    requires Sorted(fixes) && Below(fixes, index) && i <= index
    ensures var next := fixes + (if grown.Some? then [Fix(index as real, grown.value)] else []);
            && Sorted(next) && Below(next, index + 1)
            && BracketAt(next, i) == (if i < index then Extend(BracketAt(fixes, i), grown)
                                      else OwnBracket(if fixes == [] then None else Some(fixes[|fixes| - 1].anchor), grown))
  {
    hide LowerBound;
    if grown.None? {
      assert fixes + [] == fixes;
      if i == index {
        LowerBoundIs(fixes, i as real, |fixes|);
      }
    } else {
      var next := fixes + [Fix(index as real, grown.value)];
      if i == index {
        LowerBoundIs(next, i as real, |fixes|);
      } else {
        LowerBoundIs(next, i as real, LowerBound(fixes, i as real));
      }
    }
  }

  /** The newest fix belongs to the current segment. */
  ghost predicate InSegment(t: Trajectory) {
    t.fixes != [] ==> t.fixes[|t.fixes| - 1].anchor.segment == t.currentSegment
  }

  lemma AppendInSegment(t: Trajectory, sample: FlightSample, index: int)
    requires InSegment(t)
    ensures InSegment(Append(t, sample, index).0)
  {
    hide ValidSample;
  }

  /** A new fix that completes a held interval without the flag does not bridge it. */
  lemma FlagCovers(t: Trajectory, sample: FlightSample, index: int, i: int, drawn: FlightSample)
    requires InSegment(t) && i < index && t.fixes != [] && t.fixes[|t.fixes| - 1].index < i as real
    requires Grown(t, sample).Some? && !Append(t, sample, index).1
    ensures !Bridges(Newest(t).value, Grown(t, sample).value, drawn)
  {
    hide ValidSample;
    assert (i + 1) as real <= index as real;
  }

  /** The redraw flag is complete: without it, no earlier row is drawn elsewhere, whatever its sample is. */
  lemma RedrawComplete(t: Trajectory, sample: FlightSample, index: int, i: int, drawn: FlightSample)
    requires Sorted(t.fixes) && Below(t.fixes, index) && InSegment(t) && i < index
    ensures var (next, redraw) := Append(t, sample, index);
            && InSegment(next)
            && SegmentAt(next, i) == SegmentAt(t, i)
            && (!redraw ==> CoordinateAt(next, i, drawn) == CoordinateAt(t, i, drawn))
  {
    hide ValidSample, CoordinateAt, SegmentAt, Interpolate, Append, Grown, Bridges, InSegment, Sorted, Below;
    var (next, redraw) := Append(t, sample, index);
    AppendInSegment(t, sample, index);
    AppendBracket(t, sample, index, i);
    BracketShows(t, i, drawn);
    BracketShows(next, i, drawn);
    if LowerBound(t.fixes, i as real) == |t.fixes| > 0 && !redraw && Grown(t, sample).Some? {
      FlagCovers(t, sample, index, i, drawn);
    }
  }

  // ---------------------------------------------------------------------------------------------
  // Where an interpolated position lies
  // ---------------------------------------------------------------------------------------------

  /** `a` and `b` are the same longitude. */
  ghost predicate SameAngle(a: real, b: real, turns: int) {
    a == b + 360.0 * (turns as real)
  }

  /** The remainder is the same angle, within half a turn; an angle that is stays as it is, both ends included. */
  lemma RemainderNearest(x: real)
    ensures ShorterArc(x, Remainder360(x), RoundHalfEven(x / 360.0))
  {
    var q := x / 360.0;
    assert q * 360.0 == x;
    var n := RoundHalfEven(q) as real;
    assert -0.5 <= q - n <= 0.5;
    assert Remainder360(x) == 360.0 * (q - n);
  }

  lemma LerpBetween(a: real, b: real, f: real)
    requires 0.0 <= f <= 1.0
    ensures (if a <= b then a else b) <= Lerp(a, b, f) <= (if a <= b then b else a)
  {
    hide Part;
    PartOf(f, b - a);
  }

  /** A fraction of a distance points the same way and is no longer. */
  lemma PartOf(f: real, d: real)
    requires 0.0 <= f <= 1.0
    ensures if d >= 0.0 then 0.0 <= Part(f, d) <= d else d <= Part(f, d) <= 0.0
  {
    if d >= 0.0 {
      ScaleDown(f, d);
    } else {
      ScaleDown(f, -d);
      assert f * (-d) == -(f * d);
    }
  }

  lemma ScaleDown(f: real, d: real)
    requires 0.0 <= f <= 1.0 && d >= 0.0
    ensures 0.0 <= f * d <= d
  {
    assert (1.0 - f) * d >= 0.0;
    assert (1.0 - f) * d == d - f * d;
  }

  /** The shorter arc between two longitudes, the part of it that was travelled, and the turns lost in normalising. */
  datatype Arc = Arc(delta: real, step: real, arcTurns: int, turns: int)

  /**
   * The place lies between two reports in proportion to the time: straight in latitude, and in longitude on the shorter
   * arc, as an angle within half a turn.
   */
  ghost predicate PartWay(from: Coordinates, start: int, to: Coordinates, end: int, at: int, shown: Coordinates, arc: Arc) {
    && from.latitude.Finite? && from.longitude.Finite? && to.latitude.Finite? && to.longitude.Finite?
    && shown.latitude.Finite? && shown.longitude.Finite?
    && (shown.latitude.value - from.latitude.value) * (end - start) as real
       == (to.latitude.value - from.latitude.value) * (at - start) as real
    && ShorterArc(to.longitude.value - from.longitude.value, arc.delta, arc.arcTurns)
    && arc.step * (end - start) as real == arc.delta * (at - start) as real
    && ShorterArc(from.longitude.value + arc.step, shown.longitude.value, arc.turns)
  }

  /** `b` is the angle `a` within half a turn, and `a` itself if that is. */
  ghost predicate ShorterArc(a: real, b: real, turns: int) {
    -180.0 <= b <= 180.0 && SameAngle(a, b, turns) && (-180.0 <= a <= 180.0 ==> a == b)
  }

  function PlaceOf(a: Anchor): Coordinates {
    Coordinates(Finite(a.latitude), Finite(a.longitude))
  }

  /**
   * A row that is drawn away from its own coordinates and from a fix lies between two anchors of one segment that
   * are at most three seconds apart: in proportion to the time, so between their latitudes and on their shorter arc.
   */
  lemma InterpolationSound(t: Trajectory, index: int, sample: FlightSample) returns (p: Anchor, n: Anchor, arc: Arc)
    requires Sorted(t.fixes) && CoordinateAt(t, index, sample) != sample.coordinates
    requires !BracketAt(t.fixes, index).exact
    ensures BracketAt(t.fixes, index).previous == Some(p) && BracketAt(t.fixes, index).next == Some(n)
    ensures ValidSample(sample) && p.segment == n.segment
    ensures p.timestamp < sample.timestamp < n.timestamp <= p.timestamp + 3000
    ensures var shown := CoordinateAt(t, index, sample);
            && PartWay(PlaceOf(p), p.timestamp, PlaceOf(n), n.timestamp, sample.timestamp, shown, arc)
            && MinReal(p.latitude, n.latitude) <= shown.latitude.value <= MaxReal(p.latitude, n.latitude)
    ensures if arc.delta >= 0.0 then 0.0 <= arc.step <= arc.delta else arc.delta <= arc.step <= 0.0
  {
    hide ValidSample, Interpolate, CoordinateAt, LowerBound, SegmentAt, PartWay;
    BracketShows(t, index, sample);
    var b := BracketAt(t.fixes, index);
    p, n := b.previous.value, b.next.value;
    arc := InterpolateSound(p, n, sample.timestamp);
  }

  /** Interpolating by the share of the time goes the share of the way. */
  lemma InterpolateSound(p: Anchor, n: Anchor, at: int) returns (arc: Arc)
    requires p.timestamp < at < n.timestamp
    ensures var shown := Interpolate(p, n, (at - p.timestamp) as real / (n.timestamp - p.timestamp) as real);
            && PartWay(PlaceOf(p), p.timestamp, PlaceOf(n), n.timestamp, at, shown, arc)
            && MinReal(p.latitude, n.latitude) <= shown.latitude.value <= MaxReal(p.latitude, n.latitude)
    ensures if arc.delta >= 0.0 then 0.0 <= arc.step <= arc.delta else arc.delta <= arc.step <= 0.0
  {
    hide Remainder360, RoundHalfEven, SameAngle, Part;
    var elapsed, duration := (at - p.timestamp) as real, (n.timestamp - p.timestamp) as real;
    var f := elapsed / duration;
    FractionInside(elapsed, duration);
    LerpBetween(p.latitude, n.latitude, f);
    ShareOfWay(f, n.latitude - p.latitude, elapsed, duration);
    var delta := Remainder360(n.longitude - p.longitude);
    ShareOfWay(f, delta, elapsed, duration);
    arc := Arc(delta, Part(f, delta), RoundHalfEven((n.longitude - p.longitude) / 360.0),
               RoundHalfEven((p.longitude + Part(f, delta)) / 360.0));
    RemainderNearest(n.longitude - p.longitude);
    RemainderNearest(p.longitude + Part(f, delta));
  }

  lemma FractionInside(elapsed: real, duration: real)
    requires 0.0 < elapsed < duration
    ensures 0.0 <= elapsed / duration <= 1.0
  {
    QuotientSign(elapsed, duration);
  }

  lemma ShareOfWay(f: real, d: real, elapsed: real, duration: real)
    requires duration > 0.0 && f == elapsed / duration && 0.0 <= f <= 1.0
    ensures if d >= 0.0 then 0.0 <= Part(f, d) <= d else d <= Part(f, d) <= 0.0
    ensures Part(f, d) * duration == d * elapsed
  {
    PartOf(f, d);
    QuotientTimes(elapsed, duration);
    assert (f * d) * duration == d * (f * duration);
  }
}
