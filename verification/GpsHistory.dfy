/** Whole recordings: the trajectory that never forgets, and what equal segments say about it. */
module GpsHistory {
  import opened Domain
  import opened GpsTrajectory
  import opened GpsCompaction
  import opened GpsDisplay

  /** The trajectory of a recording, one row per sample. */
  function Full(samples: seq<FlightSample>): Trajectory {
    if samples == [] then START
    else Append(Full(samples[..|samples| - 1]), samples[|samples| - 1], |samples| - 1).0
  }

  lemma {:induction false} FullSound(samples: seq<FlightSample>)
    ensures var t := Full(samples); Sorted(t.fixes) && Below(t.fixes, |samples|) && InSegment(t)
    decreases |samples|
  {
    hide Append, BracketAt, Extend, OwnBracket, Grown;
    if samples != [] {
      var init, last := samples[..|samples| - 1], samples[|samples| - 1];
      FullSound(init);
      AppendBracket(Full(init), last, |init|, |init|);
      RedrawComplete(Full(init), last, |init|, |init| - 1, last);
    }
  }

  // ---------------------------------------------------------------------------------------------
  // Segments
  // ---------------------------------------------------------------------------------------------

  /** Row `k` continues row `k - 1`: a usable fix, and a timestamp that moves forward by at most three seconds. */
  predicate Continues(samples: seq<FlightSample>, k: int)
    requires 0 < k < |samples|
  {
    ValidSample(samples[k]) && 0 < samples[k].timestamp - samples[k - 1].timestamp <= 3000
  }

  ghost predicate Unbroken(samples: seq<FlightSample>, i: nat, end: nat)
    requires end <= |samples|
  {
    forall k :: i < k < end ==> Continues(samples, k)
  }

  /** What one row does to the segment. */
  lemma AppendOpen(t: Trajectory, sample: FlightSample, index: int)
    ensures var next := Append(t, sample, index).0;
            && next.lastTimestamp == sample.timestamp && next.currentSegment >= t.currentSegment
            && (next.interrupted <==> !ValidSample(sample))
            && (t.fixes != [] || ValidSample(sample) ==> next.fixes != [])
            && (t.fixes != [] && ValidSample(sample) ==>
                  (next.currentSegment == t.currentSegment <==> !Interrupts(t, sample)))
  {
    hide ValidSample;
  }

  /** After a usable row `i`, the segment is still the same and open exactly as long as nothing broke the stretch. */
  lemma {:induction false} StretchOpen(samples: seq<FlightSample>, i: nat, end: nat)
    requires i < end <= |samples| && ValidSample(samples[i])
    ensures var at, now := Full(samples[..i + 1]), Full(samples[..end]);
            && now.fixes != [] && now.lastTimestamp == samples[end - 1].timestamp
            && now.currentSegment >= at.currentSegment
            && (Unbroken(samples, i, end) <==> now.currentSegment == at.currentSegment && !now.interrupted)
    decreases end
  {
    hide ValidSample, Append;
    assert samples[..end][..end - 1] == samples[..end - 1];
    AppendOpen(Full(samples[..end - 1]), samples[end - 1], end - 1);
    if end > i + 1 {
      StretchOpen(samples, i, end - 1);
      assert Unbroken(samples, i, end) <==> Unbroken(samples, i, end - 1) && Continues(samples, end - 1);
    }
  }

  lemma {:induction false} SegmentOfRow(samples: seq<FlightSample>, i: nat)
    requires i < |samples| && ValidSample(samples[i])
    ensures SegmentAt(Full(samples), i) == Full(samples[..i + 1]).currentSegment
    decreases |samples|
  {
    hide ValidSample, SegmentAt, Append, Grown;
    var init, last := samples[..|samples| - 1], samples[|samples| - 1];
    FullSound(init);
    if i < |init| {
      SegmentOfRow(init, i);
      RedrawComplete(Full(init), last, |init|, i, last);
      assert init[..i + 1] == samples[..i + 1];
    } else {
      assert samples[..i + 1] == samples;
      FullSound(samples);
      StretchOpen(samples, i, i + 1);
      AppendBracket(Full(init), last, |init|, |init|);
      BracketShows(Full(samples), i, last);
      OwnSegment(Full(init), last, |init|);
    }
  }

  /** A usable row belongs to the segment that is current after it. */
  lemma OwnSegment(t: Trajectory, sample: FlightSample, index: int)
    requires InSegment(t) && ValidSample(sample)
    ensures SegmentOf(OwnBracket(Newest(t), Grown(t, sample))) == Append(t, sample, index).0.currentSegment
  {
  }

  /**
   * Two usable rows of a recording carry the same segment exactly when every row after the first, up to the second,
   * continues its predecessor. So a line drawn within one segment never crosses missing data.
   */
  lemma SegmentsAreStretches(samples: seq<FlightSample>, i: nat, j: nat)
    requires i < j < |samples| && ValidSample(samples[i]) && ValidSample(samples[j])
    ensures SegmentAt(Full(samples), i) == SegmentAt(Full(samples), j)
       <==> forall k :: i < k <= j ==> Continues(samples, k)
  {
    hide SegmentAt, Append, ValidSample;
    SegmentOfRow(samples, i);
    SegmentOfRow(samples, j);
    StretchOpen(samples, i, j + 1);
    AppendCloses(Full(samples[..j]), samples[j], j);
    assert samples[..j + 1][..j] == samples[..j];
  }

  lemma AppendCloses(t: Trajectory, sample: FlightSample, index: int)
    requires ValidSample(sample)
    ensures !Append(t, sample, index).0.interrupted
  {
  }
}
