/** What the lines of the live map connect: only rows without missing data between them. */
module LiveLines {
  import opened Domain
  import opened GpsTrajectory
  import opened GpsCompaction
  import opened GpsHistory
  import opened LiveHistory
  import opened LiveSchedule
  import opened LiveMap
  import opened TrajectoryCurve

  /** Every row of the live map holds a usable sample. */
  ghost predicate RowsUsable(live: Live) {
    forall k :: 0 <= k < |live.rows| ==> Usable(live.rows[k].sample)
  }

  lemma ReceiveKeepsUsable(live: Live, sample: FlightSample)
    requires RowsInOrder(live) && RowsUsable(live)
    ensures RowsUsable(Receive(live, sample))
  {
    hide Usable, KeptRows;
  }

  lemma {:induction false} RunUsable(samples: seq<FlightSample>)
    ensures RowsUsable(LiveAfter(samples))
    decreases |samples|
  {
    hide Receive, RowsUsable;
    if samples == [] {
      NothingUsable();
    } else {
      RunUsable(samples[..|samples| - 1]);
      ReceiveKeepsUsable(LiveAfter(samples[..|samples| - 1]), samples[|samples| - 1]);
    }
  }

  lemma NothingUsable()
    ensures RowsUsable(NOTHING)
  {
  }

  /** Positions of some of the rows, in order, with the segments that the trajectory gives them. */
  ghost predicate PositionsOf(positions: seq<Position>, live: Live, pos: seq<int>) {
    && Positions(pos, |live.rows|) && |positions| == |pos|
    && forall k :: 0 <= k < |pos| ==> positions[k].segment == SegmentAt(live.trajectory, live.rows[pos[k]].index)
  }

  /** From sample `a` to sample `b` every sample is usable as a position and continues the one before. */
  ghost predicate Stretch(samples: seq<FlightSample>, a: int, b: int) {
    0 <= a < b < |samples| && forall j :: a < j <= b ==> Continues(samples, j)
  }

  /** A drawn piece lies between two neighbouring positions whose samples bound such a stretch. */
  ghost predicate OverStretch(p: Pair, positions: seq<Position>, samples: seq<FlightSample>, origin: seq<int>, pos: seq<int>) {
    exists k :: StretchPiece(p, positions, samples, origin, pos, k)
  }

  ghost predicate StretchPiece(p: Pair, positions: seq<Position>, samples: seq<FlightSample>, origin: seq<int>, pos: seq<int>, k: int) {
    && PairOn(p, positions, k)
    && 0 <= k < |pos| - 1 && 0 <= pos[k] < |origin| && 0 <= pos[k + 1] < |origin|
    && Stretch(samples, origin[pos[k]], origin[pos[k + 1]])
  }

  /**
   * No line bridges missing data: whichever rows of a run are drawn, each piece of the drawing lies between two rows
   * of which the second, and everything received in between, continues what came before.
   */
  lemma LinesBridgeNothing(samples: seq<FlightSample>, pos: seq<int>, positions: seq<Position>) returns (origin: seq<int>)
    requires Roomy(samples) && PositionsOf(positions, LiveAfter(samples), pos)
    ensures DrawnAlike(LiveAfter(samples), samples, origin)
    ensures var pairs := LinePairs(positions, 0, Subdivisions(|positions|));
            forall q :: 0 <= q < |pairs| ==> OverStretch(pairs[q], positions, samples, origin, pos)
  {
    hide LiveAfter, Roomy, DrawnAlike, PositionsOf, RowsUsable, OverStretch, LinePairs, Subdivisions, InSomeSegment, LeadsTo;
    origin := LiveMapFaithful(samples);
    RunUsable(samples);
    var n := Subdivisions(|positions|);
    LineSound(positions, 0, n);
    var pairs := LinePairs(positions, 0, n);
    forall q | 0 <= q < |pairs| ensures OverStretch(pairs[q], positions, samples, origin, pos) {
      PieceStretches(pairs[q], samples, pos, positions, origin);
    }
  }

  lemma PieceStretches(p: Pair, samples: seq<FlightSample>, pos: seq<int>, positions: seq<Position>, origin: seq<int>)
    requires PositionsOf(positions, LiveAfter(samples), pos) && RowsUsable(LiveAfter(samples))
    requires DrawnAlike(LiveAfter(samples), samples, origin) && InSomeSegment(p, positions)
    ensures OverStretch(p, positions, samples, origin, pos)
  {
    hide LiveAfter, SegmentAt, CoordinateAt, Full, Continues, Stretch, RowsUsable;
    var k :| WithinSegment(p, positions, k);
    assert PairOn(p, positions, k);
    RowsStretch(samples, origin, pos[k], pos[k + 1]);
    assert StretchPiece(p, positions, samples, origin, pos, k);
  }

  /** Two rows in one segment are a stretch of the recording. */
  lemma RowsStretch(samples: seq<FlightSample>, origin: seq<int>, a: nat, b: nat)
    requires DrawnAlike(LiveAfter(samples), samples, origin) && RowsUsable(LiveAfter(samples))
    requires a < b < |origin|
    requires var live := LiveAfter(samples);
             |live.rows| == |origin|
             && SegmentAt(live.trajectory, live.rows[a].index) == SegmentAt(live.trajectory, live.rows[b].index)
    ensures Stretch(samples, origin[a], origin[b])
  {
    hide LiveAfter, SegmentAt, CoordinateAt, Full, Continues, ValidSample;
    var live := LiveAfter(samples);
    assert live.rows[a].sample == samples[origin[a]] && live.rows[b].sample == samples[origin[b]];
    assert Usable(live.rows[a].sample) && Usable(live.rows[b].sample);
    SegmentsAreStretches(samples, origin[a], origin[b]);
  }
}
