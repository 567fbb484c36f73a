/**
 * Display-only GPS alignment: an append-only list of coordinate changes, interpolation across short holds, and the
 * two compactions of the live map, dropping fixes and renumbering them.
 */
module GpsTrajectory {
  import opened Domain

  const MAX_GAP_MS: int := 3000

  /** What a fix contributes to the display; its row index only places it. */
  datatype Anchor = Anchor(timestamp: int, latitude: real, longitude: real, segment: int)

  /** A fix. Its index may fall between rows after renumbering. */
  datatype Fix = Fix(index: real, anchor: Anchor)

  datatype Trajectory = Trajectory(fixes: seq<Fix>, lastTimestamp: int, currentSegment: int, interrupted: bool)

  const START: Trajectory := Trajectory([], 0, 0, true)

  predicate ValidSample(sample: FlightSample) {
    && sample.coordinates.latitude.Finite? && sample.coordinates.longitude.Finite? && sample.altitude.Finite?
    && var lat, lon := sample.coordinates.latitude.value, sample.coordinates.longitude.value;
       && Abs(lat) <= 90.0 && Abs(lon) <= 180.0
       && (Abs(lat) >= 0.000000001 || Abs(lon) >= 0.000000001)
       && Abs(sample.altitude.value) <= 10000000.0
  }

  ghost predicate Sorted(fixes: seq<Fix>) {
    forall i, j :: 0 <= i < j < |fixes| ==> fixes[i].index < fixes[j].index
  }

  // ---------------------------------------------------------------------------------------------
  // Appending
  // ---------------------------------------------------------------------------------------------

  /** The new sample does not continue what came before it. */
  predicate Interrupts(t: Trajectory, sample: FlightSample) {
    t.interrupted || sample.timestamp <= t.lastTimestamp || sample.timestamp - t.lastTimestamp > MAX_GAP_MS
  }

  /** Append a raw sample; the flag asks for a redraw of a completed held interval. */
  function Append(t: Trajectory, sample: FlightSample, index: int): (r: (Trajectory, bool)) {
    var interrupted := Interrupts(t, sample);
    if !ValidSample(sample) then (t.(lastTimestamp := sample.timestamp, interrupted := true), false)
    else
      var lat, lon := sample.coordinates.latitude.value, sample.coordinates.longitude.value;
      var seen := t.(lastTimestamp := sample.timestamp, interrupted := false);
      if t.fixes == [] then
        (seen.(fixes := [Fix(index as real, Anchor(sample.timestamp, lat, lon, t.currentSegment))]), false)
      else
        var previous := t.fixes[|t.fixes| - 1];
        if !interrupted && lat == previous.anchor.latitude && lon == previous.anchor.longitude then (seen, false)
        else
          var segment := if interrupted then t.currentSegment + 1 else t.currentSegment;
          (seen.(fixes := t.fixes + [Fix(index as real, Anchor(sample.timestamp, lat, lon, segment))],
                 currentSegment := segment),
           !interrupted && index as real > previous.index + 1.0
           && sample.timestamp - previous.anchor.timestamp <= MAX_GAP_MS)
  }

  // ---------------------------------------------------------------------------------------------
  // Looking up
  // ---------------------------------------------------------------------------------------------

  /** `std::lower_bound`: the first fix that is not before `x`. */
  function LowerBound(fixes: seq<Fix>, x: real): (r: nat)
    ensures r <= |fixes|
    ensures forall k :: 0 <= k < r ==> fixes[k].index < x
    ensures r < |fixes| ==> x <= fixes[r].index
  {
    if fixes == [] || x <= fixes[0].index then 0 else 1 + LowerBound(fixes[1..], x)
  }

  /** `std::upper_bound`: the first fix after `x`. */
  function UpperBound(fixes: seq<Fix>, x: real): (r: nat)
    ensures r <= |fixes|
    ensures forall k :: 0 <= k < r ==> fixes[k].index <= x
    ensures r < |fixes| ==> x < fixes[r].index
  {
    if fixes == [] || x < fixes[0].index then 0 else 1 + UpperBound(fixes[1..], x)
  }

  /** The nearest integer, ties to even. */
  function RoundHalfEven(q: real): int {
    var f := q.Floor;
    var d := q - f as real;
    if d < 0.5 then f else if d > 0.5 then f + 1 else if f % 2 == 0 then f else f + 1
  }

  /** `std::remainder(x, 360.0)`. */
  function Remainder360(x: real): real {
    x - 360.0 * (RoundHalfEven(x / 360.0) as real)
  }

  function Part(fraction: real, whole: real): real {
    fraction * whole
  }

  function Lerp(a: real, b: real, fraction: real): real {
    a + Part(fraction, b - a)
  }

  function Interpolate(previous: Anchor, next: Anchor, fraction: real): Coordinates {
    var deltaLon := Remainder360(next.longitude - previous.longitude);
    Coordinates(Finite(Lerp(previous.latitude, next.latitude, fraction)),
                Finite(Remainder360(previous.longitude + Part(fraction, deltaLon))))
  }

  /** Whether a sample that was taken between two fixes is drawn between them. */
  predicate Bridges(previous: Anchor, next: Anchor, sample: FlightSample) {
    var elapsed, duration := sample.timestamp - previous.timestamp, next.timestamp - previous.timestamp;
    !(duration <= 0 || duration > MAX_GAP_MS || elapsed <= 0 || elapsed >= duration || previous.segment != next.segment)
  }

  function CoordinateAt(t: Trajectory, index: int, sample: FlightSample): Coordinates {
    var next := LowerBound(t.fixes, index as real);
    if !ValidSample(sample) then sample.coordinates
    else if next < |t.fixes| && t.fixes[next].index == index as real then
      Coordinates(Finite(t.fixes[next].anchor.latitude), Finite(t.fixes[next].anchor.longitude))
    else if next == 0 || next == |t.fixes| then sample.coordinates
    else
      var p, n := t.fixes[next - 1].anchor, t.fixes[next].anchor;
      if !Bridges(p, n, sample) then sample.coordinates
      else Interpolate(p, n, (sample.timestamp - p.timestamp) as real / (n.timestamp - p.timestamp) as real)
  }

  function SegmentAt(t: Trajectory, index: int): int {
    var next := UpperBound(t.fixes, index as real);
    if next == 0 then 0 else t.fixes[next - 1].anchor.segment
  }

  // ---------------------------------------------------------------------------------------------
  // Compaction
  // ---------------------------------------------------------------------------------------------

  /** Push a fix unless one at or after its index is there already. */
  function Keep(retained: seq<Fix>, fix: Fix): seq<Fix> {
    if retained == [] || retained[|retained| - 1].index < fix.index then retained + [fix] else retained
  }

  /** The fixes on both sides of one row. */
  function KeepAround(fixes: seq<Fix>, retained: seq<Fix>, index: int): seq<Fix> {
    var next := LowerBound(fixes, index as real);
    var before := if next != 0 then Keep(retained, fixes[next - 1]) else retained;
    if next != |fixes| then Keep(before, fixes[next]) else before
  }

  function KeepAll(fixes: seq<Fix>, indices: seq<int>): seq<Fix> {
    if indices == [] then []
    else KeepAround(fixes, KeepAll(fixes, indices[..|indices| - 1]), indices[|indices| - 1])
  }

  function RetainSamples(t: Trajectory, indices: seq<int>): Trajectory {
    if t.fixes == [] then t
    else t.(fixes := Keep(KeepAll(t.fixes, indices), t.fixes[|t.fixes| - 1]))
  }

  /** `std::upper_bound` on row indices. */
  function UpperRow(indices: seq<int>, x: real): (r: nat)
    ensures r <= |indices|
    ensures forall k :: 0 <= k < r ==> indices[k] as real <= x
    ensures r < |indices| ==> x < indices[r] as real
  {
    if indices == [] || x < indices[0] as real then 0 else 1 + UpperRow(indices[1..], x)
  }

  /** The piecewise linear renumbering: row `indices[k]` becomes row `k`. */
  function Renumber(indices: seq<int>, x: real): real
    requires indices != [] && StrictlyIncreasing(indices)
  {
    if |indices| == 1 then x - indices[0] as real
    else
      var high := Clamp(UpperRow(indices, x), 1, |indices| - 1);
      var low := high - 1;
      low as real + (x - indices[low] as real) / (indices[high] - indices[low]) as real
  }

  function RebaseFixes(fixes: seq<Fix>, indices: seq<int>): (r: seq<Fix>)
    requires indices != [] && StrictlyIncreasing(indices)
    ensures |r| == |fixes|
    ensures forall k :: 0 <= k < |fixes| ==> r[k] == fixes[k].(index := Renumber(indices, fixes[k].index))
  {
    seq(|fixes|, k requires 0 <= k < |fixes| => fixes[k].(index := Renumber(indices, fixes[k].index)))
  }

  function RebaseIndices(t: Trajectory, indices: seq<int>): Trajectory
    requires StrictlyIncreasing(indices)
  {
    if indices == [] then t.(fixes := []) else t.(fixes := RebaseFixes(t.fixes, indices))
  }
}
