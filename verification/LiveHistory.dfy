/**
 * The live map's bounded history: every received sample extends the trajectory, usable ones are kept as rows, and
 * both are thinned and renumbered again and again.
 */
module LiveHistory {
  import opened Domain
  import opened EvenSpread
  import opened GpsTrajectory
  import opened GpsCompaction

  const MAX_SAMPLE_COUNT: nat := 10_000_000
  const POINT_BUDGET: nat := 10_000
  const COMPACT_TARGET: nat := 5_000
  const MAX_MAP_TIME: int := 1_000_000_000_000_000

  datatype Row = Row(sample: FlightSample, index: int)

  datatype Live = Live(trajectory: Trajectory, rows: seq<Row>, total: nat)

  const NOTHING: Live := Live(START, [], 0)

  /** The timestamp is within what the map can show. */
  predicate Timely(sample: FlightSample) {
    -MAX_MAP_TIME <= sample.timestamp <= MAX_MAP_TIME
  }

  predicate Usable(sample: FlightSample) {
    ValidSample(sample) && Timely(sample)
  }

  predicate FiniteWithin(value: Reading, limit: real) {
    value.Finite? && Abs(value.value) <= limit
  }

  /** The map's own test of a sample: everything within bounds, and not the place that stands for no position. */
  predicate UsableMapPoint(sample: FlightSample) {
    var lat, lon := sample.coordinates.latitude, sample.coordinates.longitude;
    && FiniteWithin(lat, 90.0) && FiniteWithin(lon, 180.0)
    && FiniteWithin(sample.altitude, 10000000.0) && FiniteWithin(Finite(sample.timestamp as real), MAX_MAP_TIME as real)
    && (Abs(lat.value) >= 0.000000001 || Abs(lon.value) >= 0.000000001)
  }

  /** The map shows exactly the samples that the trajectory takes and whose time is within its limit. */
  lemma MapTakesUsable(sample: FlightSample)
    ensures UsableMapPoint(sample) <==> Usable(sample)
  {
  }

  function Indices(rows: seq<Row>): (r: seq<int>)
    ensures |r| == |rows| && forall k :: 0 <= k < |r| ==> r[k] == rows[k].index
  {
    seq(|rows|, k requires 0 <= k < |rows| => rows[k].index)
  }

  /** Evenly spread positions, computed without the product that could overflow. */
  function CappedPosition(i: nat, last: nat, outputLast: nat): nat
    requires outputLast > 0
  {
    (last / outputLast) * i + ((last % outputLast) * i) / outputLast
  }

  lemma CappedPositionIsShare(i: nat, last: nat, outputLast: nat)
    requires outputLast > 0
    ensures CappedPosition(i, last, outputLast) == Share(i, last, outputLast)
  {
    var q, r := last / outputLast, last % outputLast;
    DivMod(last, outputLast);
    Regroup(i, q, outputLast, r);
    SplitProducts(q, r, i, outputLast);
  }

  lemma DivMod(x: nat, d: nat)
    requires d > 0
    ensures x == (x / d) * d + x % d
  {
  }

  lemma SplitProducts(q: nat, r: nat, i: nat, d: nat)
    requires d > 0
    ensures ((q * i) * d + r * i) / d == q * i + (r * i) / d
  {
    QuotientSplit(q * i, r * i, d);
  }

  lemma Regroup(i: nat, q: nat, d: nat, r: nat)
    ensures i * (q * d + r) == (q * i) * d + r * i
  {
    assert i * (q * d) == (q * i) * d;
  }

  /** The positions to keep when there are more rows than the budget. */
  function Kept(size: nat, budget: nat): (r: seq<int>)
    requires 2 <= budget < size
    ensures |r| == budget
  {
    seq(budget, i requires 0 <= i < budget => CappedPosition(i, size - 1, budget - 1))
  }

  lemma KeptShape(size: nat, budget: nat)
    requires 2 <= budget < size
    ensures Positions(Kept(size, budget), size)
    ensures Kept(size, budget)[0] == 0 && Kept(size, budget)[budget - 1] == size - 1
  {
    hide CappedPosition, Share;
    var r := Kept(size, budget);
    ShareEnds(size - 1, budget - 1);
    CappedPositionIsShare(0, size - 1, budget - 1);
    CappedPositionIsShare(budget - 1, size - 1, budget - 1);
    forall i, j | 0 <= i < j < budget ensures r[i] < r[j] {
      CappedPositionIsShare(i, size - 1, budget - 1);
      CappedPositionIsShare(j, size - 1, budget - 1);
      ShareIncreasing(i, j, size - 1, budget - 1);
    }
    forall i | 0 <= i < budget ensures 0 <= r[i] < size {
      assert i < budget - 1 ==> r[i] < r[budget - 1];
    }
  }

  /** They are spread evenly: each stands where its share of the way falls, rounded down. */
  lemma KeptEven(size: nat, budget: nat, i: nat)
    requires 2 <= budget < size && i < budget
    ensures Kept(size, budget)[i] * (budget - 1) <= i * (size - 1) < (Kept(size, budget)[i] + 1) * (budget - 1)
  {
    CappedPositionIsShare(i, size - 1, budget - 1);
    ShareIsFloor(i, size - 1, budget - 1);
  }

  function PickRows(rows: seq<Row>, pos: seq<int>): (r: seq<Row>)
    requires forall k :: 0 <= k < |pos| ==> 0 <= pos[k] < |rows|
    ensures |r| == |pos| && forall k :: 0 <= k < |r| ==> r[k] == rows[pos[k]]
  {
    seq(|pos|, k requires 0 <= k < |pos| => rows[pos[k]])
  }

  // ---------------------------------------------------------------------------------------------
  // The three things that happen to the history
  // ---------------------------------------------------------------------------------------------

  /** Row indices are in order and below the next one. */
  ghost predicate RowsInOrder(live: Live) {
    StrictlyIncreasing(Indices(live.rows)) && forall k :: 0 <= k < |live.rows| ==> 0 <= live.rows[k].index < live.total
  }

  function Extended(live: Live, sample: FlightSample): (r: Live)
    ensures RowsInOrder(live) ==> RowsInOrder(r)
  {
    Live(Append(live.trajectory, sample, live.total).0,
         if Usable(sample) then live.rows + [Row(sample, live.total)] else live.rows,
         live.total + 1)
  }

  /** Keep the rows at some positions, and the fixes around them. */
  function Thinned(live: Live, pos: seq<int>): (r: Live)
    requires Positions(pos, |live.rows|)
    ensures RowsInOrder(live) ==> RowsInOrder(r)
  {
    var rows := PickRows(live.rows, pos);
    assert RowsInOrder(live) ==> forall k :: 0 <= k < |pos| ==> Indices(rows)[k] == Indices(live.rows)[pos[k]];
    live.(rows := rows, trajectory := RetainSamples(live.trajectory, Indices(rows)))
  }

  function Renumbered(live: Live): (r: Live)
    requires StrictlyIncreasing(Indices(live.rows))
    ensures RowsInOrder(r)
  {
    Live(RebaseIndices(live.trajectory, Indices(live.rows)),
         seq(|live.rows|, k requires 0 <= k < |live.rows| => live.rows[k].(index := k)),
         |live.rows|)
  }

  /** One step of a schedule: any thinning and any renumbering, at any time. */
  datatype Step = Take(sample: FlightSample) | Thin(pos: seq<int>) | Rebase

  ghost predicate Legal(live: Live, step: Step) {
    RowsInOrder(live) && (step.Thin? ==> Positions(step.pos, |live.rows|))
  }

  function Perform(live: Live, step: Step): (r: Live)
    requires Legal(live, step)
    ensures RowsInOrder(r)
  {
    match step
    case Take(sample) => Extended(live, sample)
    case Thin(pos) => Thinned(live, pos)
    case Rebase => Renumbered(live)
  }

  // ---------------------------------------------------------------------------------------------
  // What the program does
  // ---------------------------------------------------------------------------------------------

  /** The positions that compaction keeps, first and last row included. */
  function KeptRows(live: Live): (r: seq<int>)
    requires |live.rows| > POINT_BUDGET
    ensures |r| == COMPACT_TARGET && Positions(r, |live.rows|) && r[0] == 0 && r[|r| - 1] == |live.rows| - 1
  {
    KeptShape(|live.rows|, COMPACT_TARGET);
    Kept(|live.rows|, COMPACT_TARGET)
  }

  function Compacted(live: Live): (r: Live)
    ensures RowsInOrder(live) ==> RowsInOrder(r)
  {
    if |live.rows| <= POINT_BUDGET then live else Thinned(live, KeptRows(live))
  }

  /** Renumbered when the indices run out. */
  function Readied(live: Live): (r: Live)
    requires RowsInOrder(live)
    ensures RowsInOrder(r)
  {
    if live.total >= MAX_SAMPLE_COUNT then Renumbered(live) else live
  }

  /** One received sample: renumber when the indices run out, append, and thin when there are too many rows. */
  function Receive(live: Live, sample: FlightSample): (r: Live)
    requires RowsInOrder(live)
    ensures RowsInOrder(r)
  {
    Compacted(Extended(Readied(live), sample))
  }

  /** The live history after a run. */
  function LiveAfter(samples: seq<FlightSample>): (r: Live)
    ensures RowsInOrder(r)
  {
    if samples == [] then NOTHING else Receive(LiveAfter(samples[..|samples| - 1]), samples[|samples| - 1])
  }

  /** The steps behind one received sample. */
  function StepsOf(live: Live, sample: FlightSample): seq<Step>
    requires RowsInOrder(live)
  {
    var longer := Extended(Readied(live), sample);
    (if live.total >= MAX_SAMPLE_COUNT then [Rebase] else [])
    + [Take(sample)]
    + (if |longer.rows| > POINT_BUDGET then [Thin(KeptRows(longer))] else [])
  }
}
