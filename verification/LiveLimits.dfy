/**
 * What a renumbering without room does: no next row gets the right anchors. Only samples beyond the time limit of the
 * map can lead there.
 */
module LiveLimits {
  import opened Domain
  import opened GpsTrajectory
  import opened GpsCompaction
  import opened GpsDisplay
  import opened GpsHistory
  import opened LiveHistory
  import opened LiveSchedule
  import opened LiveMap

  // ---------------------------------------------------------------------------------------------
  // Old anchors are never those of a new sample
  // ---------------------------------------------------------------------------------------------

  /** No anchor is of a later segment than the current one; those of an open one are not later than the last sample. */
  ghost predicate Dated(t: Trajectory) {
    forall k :: 0 <= k < |t.fixes| ==>
      && t.fixes[k].anchor.segment <= t.currentSegment
      && (t.fixes[k].anchor.segment == t.currentSegment && !t.interrupted ==> t.fixes[k].anchor.timestamp <= t.lastTimestamp)
  }

  lemma TakeDated(t: Trajectory, sample: FlightSample, index: int)
    requires Dated(t)
    ensures Dated(Append(t, sample, index).0)
  {
    hide ValidSample;
  }

  lemma ThinDated(live: Live, pos: seq<int>)
    requires Ordered(live) && Positions(pos, |live.rows|) && Dated(live.trajectory)
    ensures Dated(Thinned(live, pos).trajectory)
  {
    hide RetainSamples, HasAnchors, Below;
    ThinOrdered(live, pos);
    var picked := RetainPicks(live.trajectory, Indices(Thinned(live, pos).rows));
  }

  lemma RebaseDated(live: Live)
    requires RowsInOrder(live) && Dated(live.trajectory)
    ensures Dated(Renumbered(live).trajectory)
  {
    hide Renumber;
  }

  /** On every schedule that finds room, as on every run. */
  lemma {:induction false} ScheduleDated(live: Live, samples: seq<FlightSample>, origin: seq<int>, steps: seq<Step>)
    requires Matches(live, samples, origin) && LegalAll(live, steps) && RoomAll(live, steps) && Dated(live.trajectory)
    ensures Dated(PerformAll(live, steps).trajectory)
    decreases |steps|
  {
    hide Dated, Extended, Thinned, Renumbered, HasRoom, SameFuture, Aligned, SameBrackets, NextOrigin, TakenBy;
    if steps != [] {
      StepDated(live, steps[0]);
      StepMatches(live, samples, origin, steps[0]);
      ScheduleDated(Perform(live, steps[0]), samples + TakenBy(steps[0]),
                    NextOrigin(live, origin, |samples|, steps[0]), steps[1..]);
    }
  }

  lemma StepDated(live: Live, step: Step)
    requires Ordered(live) && Legal(live, step) && Dated(live.trajectory)
    ensures Dated(Perform(live, step).trajectory)
  {
    hide Dated, RetainSamples, RebaseIndices, Append, Sorted, Below, RowsInOrder;
    match step {
      case Take(sample) => TakeDated(live.trajectory, sample, live.total);
      case Thin(pos) => ThinDated(live, pos);
      case Rebase => RebaseDated(live);
    }
  }

  lemma {:induction false} RunDated(samples: seq<FlightSample>)
    requires Roomy(samples)
    ensures Dated(LiveAfter(samples).trajectory)
    decreases |samples|
  {
    hide Matches, Dated, StepsOf, Roomy, LiveAfter, RowsInOrder, LegalAll, RoomAll, PerformAll, RoomNext, Taken;
    LiveAfterStep(samples);
    if samples == [] {
      NothingDated();
    } else {
      var init, last := samples[..|samples| - 1], samples[|samples| - 1];
      RoomyBefore(samples, |samples| - 1);
      RunDated(init);
      var origin := RunMatches(init);
      ReceiveIsSchedule(LiveAfter(init), last);
      ScheduleDated(LiveAfter(init), init, origin, StepsOf(LiveAfter(init), last));
    }
  }

  lemma NothingDated()
    ensures Dated(NOTHING.trajectory)
  {
  }

  lemma NewAnchorDiffers(t: Trajectory, sample: FlightSample, k: nat)
    requires Dated(t) && k < |t.fixes| && Grown(t, sample).Some?
    ensures Grown(t, sample).value != t.fixes[k].anchor
  {
    hide ValidSample;
  }

  // ---------------------------------------------------------------------------------------------
  // The row after a renumbering
  // ---------------------------------------------------------------------------------------------

  /** The history after a renumbering and one more sample. */
  function RebasedThen(live: Live, sample: FlightSample): Live
    requires RowsInOrder(live)
  {
    Extended(Renumbered(live), sample)
  }

  /** The first fix at or behind the next place, if there is one. */
  function Blocking(live: Live): (k: nat)
    requires live.rows != []
    ensures k <= |live.trajectory.fixes|
  {
    LowerBound(live.trajectory.fixes, NextPlace(Indices(live.rows)) as real)
  }

  lemma RoomIsUnblocked(live: Live)
    requires Ordered(live) && live.rows != []
    ensures HasRoom(live) <==> Blocking(live) == |live.trajectory.fixes|
  {
    var fixes, x := live.trajectory.fixes, NextPlace(Indices(live.rows)) as real;
    if fixes != [] && fixes[|fixes| - 1].index < x {
      assert forall k :: 0 <= k < |fixes| ==> fixes[k].index <= fixes[|fixes| - 1].index;
    }
  }

  /** What stands around the next row when there is no room: the blocking fix and the one before it. */
  lemma BlockedRow(live: Live, sample: FlightSample)
    requires Ordered(live) && live.rows != [] && !HasRoom(live)
    ensures var fixes, k := live.trajectory.fixes, Blocking(live);
            var next := RebasedThen(live, sample).trajectory.fixes;
            && k < |fixes| && BracketAt(next, |live.rows|)
               == Bracket(if k == 0 then None else Some(fixes[k - 1].anchor), Some(fixes[k].anchor),
                          fixes[k].index == NextPlace(Indices(live.rows)) as real)
  {
    hide Append, Renumber, NextPlace, Grown, LowerBound, HasRoom;
    RoomIsUnblocked(live);
    var fixes, k, indices := live.trajectory.fixes, Blocking(live), Indices(live.rows);
    var moved, next := Renumbered(live).trajectory.fixes, RebasedThen(live, sample).trajectory.fixes;
    AppendFixes(Renumbered(live).trajectory, sample, |live.rows|);
    assert forall j :: 0 <= j < |moved| ==> next[j] == moved[j];
    assert forall j :: 0 <= j < |moved| ==> moved[j].anchor == fixes[j].anchor;
    forall j | 0 <= j < k ensures next[j].index < |live.rows| as real {
      RenumberAtNextPlace(indices, fixes[j].index);
    }
    RenumberAtNextPlace(indices, fixes[k].index);
    FirstNotBelow(next, |live.rows| as real, k);
  }

  lemma FirstNotBelow(fixes: seq<Fix>, x: real, k: nat)
    requires k < |fixes| && x <= fixes[k].index && forall j :: 0 <= j < k ==> fixes[j].index < x
    ensures LowerBound(fixes, x) == k
  {
    var r := LowerBound(fixes, x);
    assert r <= k;
    assert r < |fixes| ==> x <= fixes[r].index;
  }

  /**
   * Renumbering is exact: the row of the next sample gets the anchors that the full recording has for it exactly when
   * there was room, whatever the sample is.
   */
  lemma RebaseExact(live: Live, samples: seq<FlightSample>, origin: seq<int>, sample: FlightSample)
    requires Matches(live, samples, origin) && Dated(live.trajectory) && ValidSample(sample)
    ensures RowsInOrder(live)
    ensures BracketAt(RebasedThen(live, sample).trajectory.fixes, |live.rows|)
            == BracketAt(Full(samples + [sample]).fixes, |samples|)
       <==> HasRoom(live)
  {
    hide Full, Append, BracketAt, Renumbered, ValidSample, Dated, Grown;
    FullTakes(samples, sample);
    AppendBracket(Full(samples), sample, |samples|, |samples|);
    TakeFuture(live.trajectory, Full(samples), sample, live.total, |samples|);
    if HasRoom(live) {
      RebaseMatches(live, samples, origin);
      TakeFuture(Renumbered(live).trajectory, Full(samples), sample, |live.rows|, |samples|);
      RenumberedTotal(live);
      AppendBracket(Renumbered(live).trajectory, sample, |live.rows|, |live.rows|);
    } else if live.rows == [] {
      FirstRowAlone(live, sample);
    } else {
      BlockedRow(live, sample);
      if Grown(live.trajectory, sample).Some? {
        NewAnchorDiffers(live.trajectory, sample, Blocking(live));
      }
    }
  }

  lemma RenumberedTotal(live: Live)
    requires RowsInOrder(live)
    ensures Renumbered(live).total == |live.rows|
  {
  }

  /** Without rows the fixes are forgotten, and the next row has none before it. */
  lemma FirstRowAlone(live: Live, sample: FlightSample)
    requires Ordered(live) && live.rows == [] && ValidSample(sample)
    ensures BracketAt(RebasedThen(live, sample).trajectory.fixes, 0).previous == None
    ensures CoordinateAt(RebasedThen(live, sample).trajectory, 0, sample) == sample.coordinates
  {
    hide ValidSample;
    ValidIsFinite(sample);
  }

  lemma ValidIsFinite(sample: FlightSample)
    ensures ValidSample(sample) ==> sample.coordinates.latitude.Finite? && sample.coordinates.longitude.Finite?
  {
  }

  /** A usable sample at some time and latitude. */
  function SomeSample(timestamp: int, latitude: real): FlightSample {
    FlightSample(timestamp, NotFinite, NotFinite, NotFinite, Coordinates(Finite(latitude), Finite(1.0)), Finite(0.0),
                 NotFinite, NotFinite, NotFinite)
  }

  lemma SomeSampleUsable(timestamp: int, latitude: real)
    requires -MAX_MAP_TIME <= timestamp <= MAX_MAP_TIME && -90.0 <= latitude <= 90.0
    ensures Usable(SomeSample(timestamp, latitude))
  {
  }

  /** The next row of a run would get the anchors of the full recording, for any usable sample. */
  ghost predicate NextExact(samples: seq<FlightSample>) {
    forall sample: FlightSample :: Usable(sample) ==> NextRowExact(samples, sample)
  }

  ghost predicate NextRowExact(samples: seq<FlightSample>, sample: FlightSample) {
    var start := Readied(LiveAfter(samples));
    BracketAt(Extended(start, sample).trajectory.fixes, start.total) == BracketAt(Full(samples + [sample]).fixes, |samples|)
  }

  /**
   * A run is exact at every moment, for any usable next sample, exactly when it finds room at every moment it would
   * renumber; no sample is excluded.
   */
  lemma RunExact(samples: seq<FlightSample>)
    ensures (forall k :: 0 <= k <= |samples| ==> NextExact(samples[..k]))
       <==> (forall k :: 0 <= k <= |samples| ==> RoomNext(LiveAfter(samples[..k])))
  {
    hide NextExact, RoomNext, LiveAfter;
    if forall k :: 0 <= k <= |samples| ==> RoomNext(LiveAfter(samples[..k])) {
      forall k | 0 <= k <= |samples| ensures NextExact(samples[..k]) {
        RoomUpTo(samples, k);
        PrefixExact(samples[..k]);
      }
    }
    if forall k :: 0 <= k <= |samples| ==> NextExact(samples[..k]) {
      forall k | 0 <= k <= |samples| ensures RoomNext(LiveAfter(samples[..k])) {
        ExactHasRoom(samples, k);
      }
    }
  }

  lemma RoomUpTo(samples: seq<FlightSample>, n: nat)
    requires n <= |samples| && forall k :: 0 <= k < n ==> RoomNext(LiveAfter(samples[..k]))
    ensures Roomy(samples[..n])
  {
    hide RoomNext, LiveAfter;
    forall k | 0 <= k < n ensures RoomNext(LiveAfter(samples[..n][..k])) {
      assert samples[..n][..k] == samples[..k];
    }
  }

  lemma {:induction false} ExactHasRoom(samples: seq<FlightSample>, n: nat)
    requires n <= |samples| && forall k :: 0 <= k <= |samples| ==> NextExact(samples[..k])
    ensures forall k :: 0 <= k <= n ==> RoomNext(LiveAfter(samples[..k]))
  {
    hide NextExact, RoomNext, LiveAfter;
    if n > 0 {
      ExactHasRoom(samples, n - 1);
    }
    RoomUpTo(samples, n);
    PrefixExact(samples[..n]);
  }

  /** As long as there was room before, the next row is exact for any usable sample exactly when there is room now. */
  lemma PrefixExact(samples: seq<FlightSample>)
    requires Roomy(samples)
    ensures NextExact(samples) <==> RoomNext(LiveAfter(samples))
  {
    hide LiveAfter, Roomy, RoomNext, Usable, NextRowExact;
    var plain := SomeSample(0, 1.0);
    SomeSampleUsable(0, 1.0);
    RowExact(samples, plain);
    forall sample: FlightSample | Usable(sample) && RoomNext(LiveAfter(samples)) ensures NextRowExact(samples, sample) {
      RowExact(samples, sample);
    }
  }

  lemma RowExact(samples: seq<FlightSample>, sample: FlightSample)
    requires Roomy(samples) && Usable(sample)
    ensures NextRowExact(samples, sample) <==> RoomNext(LiveAfter(samples))
  {
    hide Full, Append, BracketAt, Renumbered, Dated, Roomy, LiveAfter, HasRoom, ValidSample, Grown;
    var live := LiveAfter(samples);
    var origin := RunMatches(samples);
    RunDated(samples);
    if live.total >= MAX_SAMPLE_COUNT {
      RebaseExact(live, samples, origin, sample);
      RenumberedTotal(live);
    } else {
      FullTakes(samples, sample);
      AppendBracket(Full(samples), sample, |samples|, |samples|);
      AppendBracket(live.trajectory, sample, live.total, live.total);
      TakeFuture(live.trajectory, Full(samples), sample, live.total, |samples|);
    }
  }
}
