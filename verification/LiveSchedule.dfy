/**
 * Any schedule of samples, thinnings and renumberings: the history keeps matching a trajectory that never forgets, as
 * long as every renumbering finds room for the newest fix.
 */
module LiveSchedule {
  import opened Domain
  import opened GpsTrajectory
  import opened GpsCompaction
  import opened GpsDisplay
  import opened GpsHistory
  import opened LiveHistory
  import opened RealArithmetic

  // ---------------------------------------------------------------------------------------------
  // The live history matches the full recording
  // ---------------------------------------------------------------------------------------------

  /** Row `k` of the live history is sample `origin[k]` of the recording. */
  ghost predicate Aligned(rows: seq<Row>, samples: seq<FlightSample>, origin: seq<int>) {
    |origin| == |rows| && Positions(origin, |samples|)
    && forall k :: 0 <= k < |origin| ==> rows[k].sample == samples[origin[k]]
  }

  /** And it is drawn the same. */
  ghost predicate SameBrackets(live: Live, full: Trajectory, origin: seq<int>) {
    |origin| == |live.rows|
    && forall k :: 0 <= k < |origin| ==>
         BracketAt(live.trajectory.fixes, live.rows[k].index) == BracketAt(full.fixes, origin[k])
  }

  /** Rows and fixes are in order, and the next index is free. */
  ghost predicate Ordered(live: Live) {
    RowsInOrder(live) && Sorted(live.trajectory.fixes) && Below(live.trajectory.fixes, live.total)
  }

  /** What decides about the next sample is the same on both sides. */
  ghost predicate SameFuture(a: Trajectory, b: Trajectory) {
    && a.lastTimestamp == b.lastTimestamp && a.currentSegment == b.currentSegment && a.interrupted == b.interrupted
    && Newest(a) == Newest(b)
  }

  ghost predicate Matches(live: Live, samples: seq<FlightSample>, origin: seq<int>) {
    && Ordered(live)
    && SameFuture(live.trajectory, Full(samples))
    && Aligned(live.rows, samples, origin)
    && SameBrackets(live, Full(samples), origin)
  }

  // ---------------------------------------------------------------------------------------------
  // A sample
  // ---------------------------------------------------------------------------------------------

  lemma TakeFuture(a: Trajectory, b: Trajectory, sample: FlightSample, i: int, j: int)
    requires SameFuture(a, b)
    ensures SameFuture(Append(a, sample, i).0, Append(b, sample, j).0)
    ensures Grown(a, sample) == Grown(b, sample)
  {
    hide ValidSample;
  }

  lemma FullTakes(samples: seq<FlightSample>, sample: FlightSample)
    ensures Full(samples + [sample]) == Append(Full(samples), sample, |samples|).0
    ensures Sorted(Full(samples).fixes) && Below(Full(samples).fixes, |samples|)
  {
    hide Append;
    assert (samples + [sample])[..|samples|] == samples;
    FullSound(samples);
  }

  lemma TakeMatches(live: Live, samples: seq<FlightSample>, sample: FlightSample, origin: seq<int>) returns (next: seq<int>)
    requires Matches(live, samples, origin)
    ensures Matches(Extended(live, sample), samples + [sample], next)
    ensures next == if Usable(sample) then origin + [|samples|] else origin
  {
    hide Append, BracketAt, Usable, Grown, Full, SameFuture, Sorted, Below, Aligned;
    next := if Usable(sample) then origin + [|samples|] else origin;
    FullTakes(samples, sample);
    TakeFuture(live.trajectory, Full(samples), sample, live.total, |samples|);
    AppendBracket(live.trajectory, sample, live.total, live.total);
    AppendBracket(Full(samples), sample, |samples|, |samples|);
    TakeAligned(live, samples, sample, origin);
    SameNewest(live.trajectory, Full(samples));
    forall k | 0 <= k < |next|
      ensures BracketAt(Extended(live, sample).trajectory.fixes, Extended(live, sample).rows[k].index)
           == BracketAt(Full(samples + [sample]).fixes, next[k])
    {
      if k < |origin| {
        AlignedWithin(live.rows, samples, origin, k);
        AppendBracket(live.trajectory, sample, live.total, live.rows[k].index);
        AppendBracket(Full(samples), sample, |samples|, origin[k]);
      }
    }
  }

  lemma SameNewest(a: Trajectory, b: Trajectory)
    requires SameFuture(a, b)
    ensures Newest(a) == Newest(b)
  {
  }

  lemma AlignedWithin(rows: seq<Row>, samples: seq<FlightSample>, origin: seq<int>, k: nat)
    requires Aligned(rows, samples, origin) && k < |origin|
    ensures 0 <= origin[k] < |samples|
  {
  }

  lemma TakeAligned(live: Live, samples: seq<FlightSample>, sample: FlightSample, origin: seq<int>)
    requires Aligned(live.rows, samples, origin)
    ensures Aligned(Extended(live, sample).rows, samples + [sample],
                    if Usable(sample) then origin + [|samples|] else origin)
    ensures |origin| == |live.rows|
  {
    hide Append, Usable;
  }

  // ---------------------------------------------------------------------------------------------
  // A thinning
  // ---------------------------------------------------------------------------------------------

  /** The samples of the rows that are left. */
  function PickOrigin(origin: seq<int>, pos: seq<int>): (r: seq<int>)
    requires Positions(pos, |origin|)
    ensures |r| == |pos| && forall k :: 0 <= k < |r| ==> r[k] == origin[pos[k]]
  {
    seq(|pos|, k requires 0 <= k < |pos| => origin[pos[k]])
  }

  lemma ThinMatches(live: Live, samples: seq<FlightSample>, origin: seq<int>, pos: seq<int>)
    requires Matches(live, samples, origin) && Positions(pos, |live.rows|)
    ensures Matches(Thinned(live, pos), samples, PickOrigin(origin, pos))
  {
    hide Full, BracketAt, RetainSamples, CoordinateAt, SegmentAt, Sorted, Below;
    var after, next := Thinned(live, pos), PickOrigin(origin, pos);
    ThinOrdered(live, pos);
    forall k | 0 <= k < |next|
      ensures BracketAt(after.trajectory.fixes, after.rows[k].index) == BracketAt(Full(samples).fixes, next[k])
    {
      RetainInvisible(live.trajectory, Indices(after.rows), k, after.rows[k].sample);
      assert BracketAt(live.trajectory.fixes, live.rows[pos[k]].index) == BracketAt(Full(samples).fixes, origin[pos[k]]);
    }
  }

  /** The newest fix stays, whatever is thinned, so the future stays the same. */
  lemma ThinOrdered(live: Live, pos: seq<int>)
    requires Ordered(live) && Positions(pos, |live.rows|)
    ensures var next := Thinned(live, pos);
            && Ordered(next) && SameFuture(next.trajectory, live.trajectory) && Nondecreasing(Indices(next.rows))
  {
    hide RetainSamples, BracketAt, CoordinateAt, SegmentAt, HasAnchors;
    var next := Thinned(live, pos);
    var picked := RetainPicks(live.trajectory, Indices(next.rows));
    PickOrdered(live.trajectory.fixes, picked, live.total);
  }

  lemma PickOrdered(fixes: seq<Fix>, pos: seq<int>, total: int)
    requires Sorted(fixes) && Below(fixes, total) && Positions(pos, |fixes|)
    ensures Sorted(Pick(fixes, pos)) && Below(Pick(fixes, pos), total)
  {
  }

  // ---------------------------------------------------------------------------------------------
  // A renumbering
  // ---------------------------------------------------------------------------------------------

  /** Where the row after the newest one would be, if it lay as far behind it as that one behind its predecessor. */
  function NextPlace(indices: seq<int>): int
    requires indices != []
  {
    if |indices| == 1 then indices[0] + 1 else 2 * indices[|indices| - 1] - indices[|indices| - 2]
  }

  /** The newest fix is nearer to the newest row than the next place. */
  predicate HasRoom(live: Live) {
    live.trajectory.fixes != [] ==>
      && live.rows != []
      && live.trajectory.fixes[|live.trajectory.fixes| - 1].index < NextPlace(Indices(live.rows)) as real
  }

  /** Renumbering compares with the next index exactly as the old index compares with the next place. */
  lemma RenumberAtNextPlace(indices: seq<int>, x: real)
    requires indices != [] && StrictlyIncreasing(indices)
    ensures Renumber(indices, x) < |indices| as real <==> x < NextPlace(indices) as real
    ensures Renumber(indices, x) == |indices| as real <==> x == NextPlace(indices) as real
  {
    var n := |indices|;
    if n > 1 {
      RenumberCompares(indices, x, n - 1);
      if x >= indices[n - 1] as real {
        assert UpperRow(indices, x) == n;
        QuotientAgainstTwo(x - indices[n - 2] as real, (indices[n - 1] - indices[n - 2]) as real);
      }
    }
  }

  lemma QuotientAgainstTwo(y: real, d: real)
    requires d > 0.0
    ensures y / d < 2.0 <==> y < 2.0 * d
    ensures y / d == 2.0 <==> y == 2.0 * d
  {
    var q := y / d;
    QuotientTimes(y, d);
    ProductSigns(q - 2.0, d);
    assert (q - 2.0) * d == y - 2.0 * d;
  }

  lemma RebaseMatches(live: Live, samples: seq<FlightSample>, origin: seq<int>)
    requires Matches(live, samples, origin) && HasRoom(live)
    ensures Matches(Renumbered(live), samples, origin)
  {
    hide Full, BracketAt, Renumber, CoordinateAt, SegmentAt;
    var next, indices := Renumbered(live), Indices(live.rows);
    if indices != [] {
      RebaseOrdered(live);
      forall k | 0 <= k < |origin|
        ensures BracketAt(next.trajectory.fixes, next.rows[k].index) == BracketAt(Full(samples).fixes, origin[k])
      {
        RebaseInvisible(live.trajectory, indices, k, next.rows[k].sample);
        assert BracketAt(live.trajectory.fixes, live.rows[k].index) == BracketAt(Full(samples).fixes, origin[k]);
      }
    }
  }

  lemma RebaseOrdered(live: Live)
    requires Ordered(live) && HasRoom(live) && live.rows != []
    ensures var next := Renumbered(live);
            Ordered(next) && SameFuture(next.trajectory, live.trajectory)
  {
    hide Renumber, BracketAt, CoordinateAt, SegmentAt;
    var next, indices, fixes := Renumbered(live), Indices(live.rows), live.trajectory.fixes;
    RebaseInvisible(live.trajectory, indices, 0, live.rows[0].sample);
    if fixes != [] {
      var last := |fixes| - 1;
      RenumberAtNextPlace(indices, fixes[last].index);
      forall k | 0 <= k < last ensures next.trajectory.fixes[k].index < |indices| as real {
        assert next.trajectory.fixes[k].index < next.trajectory.fixes[last].index;
      }
    }
  }

  // ---------------------------------------------------------------------------------------------
  // Any schedule
  // ---------------------------------------------------------------------------------------------

  ghost predicate LegalAll(live: Live, steps: seq<Step>)
    decreases |steps|
  {
    steps == [] || (Legal(live, steps[0]) && LegalAll(Perform(live, steps[0]), steps[1..]))
  }

  function PerformAll(live: Live, steps: seq<Step>): Live
    requires LegalAll(live, steps)
    decreases |steps|
  {
    if steps == [] then live else PerformAll(Perform(live, steps[0]), steps[1..])
  }

  /** Every renumbering of the schedule finds room. */
  ghost predicate RoomAll(live: Live, steps: seq<Step>)
    requires LegalAll(live, steps)
    decreases |steps|
  {
    steps == [] || ((steps[0].Rebase? ==> HasRoom(live)) && RoomAll(Perform(live, steps[0]), steps[1..]))
  }

  function TakenBy(step: Step): seq<FlightSample> {
    if step.Take? then [step.sample] else []
  }

  /** The samples that a schedule brings, in order. */
  function Taken(steps: seq<Step>): seq<FlightSample>
    decreases |steps|
  {
    if steps == [] then [] else TakenBy(steps[0]) + Taken(steps[1..])
  }

  /** Which samples the rows show after a step: a usable sample adds itself, and a thinning chooses. */
  function NextOrigin(live: Live, origin: seq<int>, count: nat, step: Step): (r: seq<int>)
    requires Legal(live, step) && |origin| == |live.rows|
    ensures |r| == |Perform(live, step).rows|
  {
    match step
    case Take(sample) => if Usable(sample) then origin + [count] else origin
    case Thin(pos) => PickOrigin(origin, pos)
    case Rebase => origin
  }

  function OriginAfter(live: Live, origin: seq<int>, count: nat, steps: seq<Step>): seq<int>
    requires LegalAll(live, steps) && |origin| == |live.rows|
    decreases |steps|
  {
    if steps == [] then origin
    else
      OriginAfter(Perform(live, steps[0]), NextOrigin(live, origin, count, steps[0]),
                  count + |TakenBy(steps[0])|, steps[1..])
  }

  lemma StepMatches(live: Live, samples: seq<FlightSample>, origin: seq<int>, step: Step)
    requires Matches(live, samples, origin) && Legal(live, step) && (step.Rebase? ==> HasRoom(live))
    ensures |origin| == |live.rows|
    ensures Matches(Perform(live, step), samples + TakenBy(step), NextOrigin(live, origin, |samples|, step))
  {
    hide Extended, Thinned, Renumbered, HasRoom, Ordered, SameFuture, SameBrackets;
    assert samples + [] == samples;
    match step {
      case Take(sample) =>
        var next := TakeMatches(live, samples, sample, origin);
      case Thin(pos) =>
        ThinMatches(live, samples, origin, pos);
      case Rebase =>
        RebaseMatches(live, samples, origin);
    }
  }

  /**
   * Compaction is invisible on every schedule: any thinnings at any time, and any renumberings that find room, leave a
   * history whose rows are drawn as in the full recording, and which will stay so.
   */
  lemma {:induction false} ScheduleMatches(live: Live, samples: seq<FlightSample>, origin: seq<int>, steps: seq<Step>)
    requires Matches(live, samples, origin) && LegalAll(live, steps) && RoomAll(live, steps)
    ensures |origin| == |live.rows|
    ensures Matches(PerformAll(live, steps), samples + Taken(steps), OriginAfter(live, origin, |samples|, steps))
    decreases |steps|
  {
    hide Matches, Perform, HasRoom, Legal, NextOrigin, TakenBy;
    MatchesAligned(live, samples, origin);
    if steps == [] {
      assert samples + [] == samples;
    } else {
      StepMatches(live, samples, origin, steps[0]);
      ScheduleMatches(Perform(live, steps[0]), samples + TakenBy(steps[0]),
                      NextOrigin(live, origin, |samples|, steps[0]), steps[1..]);
      assert samples + TakenBy(steps[0]) + Taken(steps[1..]) == samples + (TakenBy(steps[0]) + Taken(steps[1..]));
    }
  }

  lemma MatchesAligned(live: Live, samples: seq<FlightSample>, origin: seq<int>)
    requires Matches(live, samples, origin)
    ensures |origin| == |live.rows| && RowsInOrder(live)
  {
  }

  /** Drawn the same: position and segment of every row are those of its sample in the full recording. */
  ghost predicate DrawnAlike(live: Live, samples: seq<FlightSample>, origin: seq<int>) {
    && Aligned(live.rows, samples, origin)
    && forall k :: 0 <= k < |origin| ==>
         && CoordinateAt(live.trajectory, live.rows[k].index, live.rows[k].sample)
            == CoordinateAt(Full(samples), origin[k], samples[origin[k]])
         && SegmentAt(live.trajectory, live.rows[k].index) == SegmentAt(Full(samples), origin[k])
  }

  lemma MatchesDrawnAlike(live: Live, samples: seq<FlightSample>, origin: seq<int>)
    requires Matches(live, samples, origin)
    ensures DrawnAlike(live, samples, origin)
  {
    hide CoordinateAt, SegmentAt, BracketAt, Full, SameFuture, Below, Sorted;
    FullSound(samples);
    forall k | 0 <= k < |origin|
      ensures CoordinateAt(live.trajectory, live.rows[k].index, live.rows[k].sample)
           == CoordinateAt(Full(samples), origin[k], samples[origin[k]])
      ensures SegmentAt(live.trajectory, live.rows[k].index) == SegmentAt(Full(samples), origin[k])
    {
      BracketShows(live.trajectory, live.rows[k].index, live.rows[k].sample);
      BracketShows(Full(samples), origin[k], live.rows[k].sample);
    }
  }
}
