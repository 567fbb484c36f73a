/**
 * What the display of a whole recording is, without any trajectory: which rows change the fix, and between which two
 * of them a held row is drawn.
 */
module GpsRecording {
  import opened Domain
  import opened GpsTrajectory
  import opened GpsCompaction
  import opened GpsDisplay
  import opened GpsHistory

  /** A usable row that starts a recording, follows an unusable one, does not continue its predecessor, or moved. */
  predicate MakesFix(samples: seq<FlightSample>, k: nat)
    requires k < |samples|
  {
    ValidSample(samples[k])
    && (k == 0 || !ValidSample(samples[k - 1]) || !Continues(samples, k) || samples[k].coordinates != samples[k - 1].coordinates)
  }

  /** The row where the position of a usable row was first reported. */
  function HeldSince(samples: seq<FlightSample>, i: nat): (a: nat)
    requires i < |samples| && ValidSample(samples[i])
    ensures a <= i && MakesFix(samples, a)
    ensures Unbroken(samples, a, i + 1)
    ensures forall k :: a < k <= i ==> !MakesFix(samples, k) && samples[k].coordinates == samples[a].coordinates
  {
    if MakesFix(samples, i) then i else HeldSince(samples, i - 1)
  }

  /** The first row after `i`, and before `end`, that makes a fix. */
  function NextFix(samples: seq<FlightSample>, i: nat, end: nat): (b: Option<nat>)
    requires i < end <= |samples|
    ensures b.Some? ==> i < b.value < end && MakesFix(samples, b.value)
    ensures forall k :: i < k < (if b.Some? then b.value else end) ==> !MakesFix(samples, k)
    decreases end
  {
    if end == i + 1 then None
    else
      var before := NextFix(samples, i, end - 1);
      if before.Some? then before else if MakesFix(samples, end - 1) then Some(end - 1) else None
  }

  /** The position that a row reports, whatever its segment. */
  function ReportOf(samples: seq<FlightSample>, k: nat): Anchor
    requires k < |samples| && ValidSample(samples[k])
  {
    Anchor(samples[k].timestamp, samples[k].coordinates.latitude.value, samples[k].coordinates.longitude.value, 0)
  }

  /** The same as the trajectory holds it. */
  function AnchorOf(samples: seq<FlightSample>, k: nat): Anchor
    requires k < |samples| && ValidSample(samples[k])
  {
    ReportOf(samples, k).(segment := Full(samples[..k + 1]).currentSegment)
  }

  /**
   * The row repeats a position, another one is reported later, at most three seconds after the first report of this
   * one, and every row from the one report to the other continues its predecessor.
   */
  ghost predicate Bridged(samples: seq<FlightSample>, i: nat)
    requires i < |samples|
  {
    ValidSample(samples[i]) &&
    var a, b := HeldSince(samples, i), NextFix(samples, i, |samples|);
    && a < i && b.Some? && samples[b.value].timestamp - samples[a].timestamp <= 3000
    && Unbroken(samples, a, b.value + 1)
  }

  /** Where the row is drawn: between the two reports around it if they belong together, otherwise where it says. */
  ghost function Displayed(samples: seq<FlightSample>, i: nat): Coordinates
    requires i < |samples|
  {
    var s := samples[i];
    if !Bridged(samples, i) then s.coordinates
    else
      var a, b := HeldSince(samples, i), NextFix(samples, i, |samples|).value;
      TimeRuns(samples, a, b);
      Interpolate(ReportOf(samples, a), ReportOf(samples, b),
                  (s.timestamp - samples[a].timestamp) as real / (samples[b].timestamp - samples[a].timestamp) as real)
  }

  // ---------------------------------------------------------------------------------------------
  // The trajectory knows these rows
  // ---------------------------------------------------------------------------------------------

  /** After a usable sample, the newest fix is at its position. */
  lemma AppendNewest(t: Trajectory, sample: FlightSample, index: int)
    requires ValidSample(sample)
    ensures var newest := Newest(Append(t, sample, index).0);
            && newest.Some? && Finite(newest.value.latitude) == sample.coordinates.latitude
            && Finite(newest.value.longitude) == sample.coordinates.longitude
  {
  }

  lemma FullStep(samples: seq<FlightSample>, k: nat)
    requires k < |samples|
    ensures Full(samples[..k + 1]) == Append(Full(samples[..k]), samples[k], k).0
  {
    hide Append;
    assert samples[..k + 1][..k] == samples[..k];
  }

  lemma GrownIsFix(samples: seq<FlightSample>, k: nat)
    requires k < |samples|
    ensures Grown(Full(samples[..k]), samples[k])
         == if MakesFix(samples, k) then Some(AnchorOf(samples, k)) else None
  {
    hide Append, ValidSample;
    FullStep(samples, k);
    ValidIsFinite(samples[k]);
    GrownSegment(Full(samples[..k]), samples[k], k);
    if k > 0 {
      FullStep(samples, k - 1);
      AppendOpen(Full(samples[..k - 1]), samples[k - 1], k - 1);
      if ValidSample(samples[k - 1]) {
        AppendNewest(Full(samples[..k - 1]), samples[k - 1], k - 1);
      }
    }
  }

  lemma ValidIsFinite(sample: FlightSample)
    ensures ValidSample(sample) ==> sample.coordinates.latitude.Finite? && sample.coordinates.longitude.Finite?
  {
  }

  lemma GrownSegment(t: Trajectory, sample: FlightSample, index: int)
    ensures Grown(t, sample).Some? ==> Grown(t, sample).value.segment == Append(t, sample, index).0.currentSegment
  {
    hide ValidSample;
  }

  lemma {:induction false} NewestIsHeld(samples: seq<FlightSample>, i: nat)
    requires i < |samples| && ValidSample(samples[i])
    ensures Newest(Full(samples[..i + 1])) == Some(AnchorOf(samples, HeldSince(samples, i)))
  {
    hide Append, ValidSample, Grown, AnchorOf, Full;
    FullStep(samples, i);
    GrownIsFix(samples, i);
    AppendFixes(Full(samples[..i]), samples[i], i);
    if !MakesFix(samples, i) {
      NewestIsHeld(samples, i - 1);
    }
  }

  /** The bracket of a usable row in the recording up to `end`. */
  lemma {:induction false} BracketOfRow(samples: seq<FlightSample>, i: nat, end: nat)
    requires i < end <= |samples| && ValidSample(samples[i])
    ensures var b, next := BracketAt(Full(samples[..end]).fixes, i), NextFix(samples, i, end);
            if MakesFix(samples, i) then b.exact && b.next == Some(AnchorOf(samples, i))
            else b == Bracket(Some(AnchorOf(samples, HeldSince(samples, i))),
                              if next.Some? then Some(AnchorOf(samples, next.value)) else None, false)
    decreases end
  {
    hide Append, ValidSample, Grown, AnchorOf, Full, BracketAt, MakesFix;
    FullStep(samples, end - 1);
    GrownIsFix(samples, end - 1);
    FullSound(samples[..end - 1]);
    AppendBracket(Full(samples[..end - 1]), samples[end - 1], end - 1, i);
    if i < end - 1 {
      BracketOfRow(samples, i, end - 1);
    } else if !MakesFix(samples, i) {
      HeldBefore(samples, i);
      NewestIsHeld(samples, i - 1);
    }
  }

  lemma HeldBefore(samples: seq<FlightSample>, i: nat)
    requires i < |samples| && ValidSample(samples[i]) && !MakesFix(samples, i)
    ensures i > 0 && ValidSample(samples[i - 1]) && HeldSince(samples, i) == HeldSince(samples, i - 1)
  {
  }

  /** Two reports belong together exactly when every row between them continues. */
  lemma SameStretch(samples: seq<FlightSample>, a: nat, b: nat)
    requires a < b < |samples| && ValidSample(samples[a]) && ValidSample(samples[b])
    ensures AnchorOf(samples, a).segment == AnchorOf(samples, b).segment
       <==> Unbroken(samples, a, b + 1)
  {
    hide Append, ValidSample, Full, Unbroken;
    StretchOpen(samples, a, b + 1);
    FullStep(samples, b);
    AppendOpen(Full(samples[..b]), samples[b], b);
  }

  lemma {:induction false} TimeRuns(samples: seq<FlightSample>, a: nat, b: nat)
    requires a < b < |samples| && Unbroken(samples, a, b + 1)
    ensures samples[a].timestamp < samples[b].timestamp
    decreases b
  {
    hide ValidSample;
    assert Continues(samples, b);
    if a < b - 1 {
      TimeRuns(samples, a, b - 1);
    }
  }

  /** The place of a bridged row lies between the two reports, in proportion to the time. */
  lemma DisplayedPartWay(samples: seq<FlightSample>, i: nat) returns (arc: Arc)
    requires i < |samples| && Bridged(samples, i)
    ensures var a, b := samples[HeldSince(samples, i)], samples[NextFix(samples, i, |samples|).value];
            PartWay(a.coordinates, a.timestamp, b.coordinates, b.timestamp, samples[i].timestamp, Displayed(samples, i), arc)
  {
    hide ValidSample, MakesFix, Interpolate, Continues, PartWay, Full;
    var a, b := HeldSince(samples, i), NextFix(samples, i, |samples|).value;
    TimeRuns(samples, a, b);
    FixIsValid(samples, a);
    FixIsValid(samples, b);
    TimeRuns(samples, a, i);
    TimeRuns(samples, i, b);
    AnchorPlace(samples, a);
    AnchorPlace(samples, b);
    arc := InterpolateSound(ReportOf(samples, a), ReportOf(samples, b), samples[i].timestamp);
  }

  /**
   * The display of a whole recording, from its samples alone: a held row is drawn between the report of its position
   * and the next one, in proportion to the time, exactly when every row from the one to the other continues its
   * predecessor and the two are at most three seconds apart. Every other row is drawn where it says.
   */
  lemma RecordingDisplayed(samples: seq<FlightSample>, i: nat) returns (arc: Arc)
    requires i < |samples|
    ensures CoordinateAt(Full(samples), i, samples[i]) == Displayed(samples, i)
    ensures !Bridged(samples, i) ==> Displayed(samples, i) == samples[i].coordinates
    ensures Bridged(samples, i) ==>
              var a, b := samples[HeldSince(samples, i)], samples[NextFix(samples, i, |samples|).value];
              PartWay(a.coordinates, a.timestamp, b.coordinates, b.timestamp, samples[i].timestamp, Displayed(samples, i), arc)
  {
    hide PartWay, Interpolate, CoordinateAt, Full, ValidSample, MakesFix, Unbroken;
    DisplayedByTrajectory(samples, i);
    if Bridged(samples, i) {
      arc := DisplayedPartWay(samples, i);
    } else {
      arc := Arc(0.0, 0.0, 0, 0);
    }
  }

  lemma DisplayedByTrajectory(samples: seq<FlightSample>, i: nat)
    requires i < |samples|
    ensures CoordinateAt(Full(samples), i, samples[i]) == Displayed(samples, i)
  {
    hide Append, Full, BracketAt, CoordinateAt, Interpolate, SegmentAt, ValidSample, MakesFix, Unbroken, AnchorOf, ReportOf;
    FullSound(samples);
    BracketShows(Full(samples), i, samples[i]);
    if ValidSample(samples[i]) {
      assert samples[..|samples|] == samples;
      BracketOfRow(samples, i, |samples|);
      AnchorPlace(samples, i);
      var a, b := HeldSince(samples, i), NextFix(samples, i, |samples|);
      if a < i && b.Some? {
        FixIsValid(samples, a);
        FixIsValid(samples, b.value);
        BridgesRow(samples, a, i, b.value);
        SegmentsUnseen(samples, a, b.value);
      }
    }
  }

  lemma SegmentsUnseen(samples: seq<FlightSample>, a: nat, b: nat)
    requires a < |samples| && b < |samples| && ValidSample(samples[a]) && ValidSample(samples[b])
    ensures forall f :: Interpolate(AnchorOf(samples, a), AnchorOf(samples, b), f)
                     == Interpolate(ReportOf(samples, a), ReportOf(samples, b), f)
  {
    hide Full, ValidSample, Remainder360;
  }

  lemma FixIsValid(samples: seq<FlightSample>, k: nat)
    requires k < |samples| && MakesFix(samples, k)
    ensures ValidSample(samples[k])
  {
  }

  /** A row that makes a fix is drawn where it says. */
  lemma AnchorPlace(samples: seq<FlightSample>, k: nat)
    requires k < |samples| && ValidSample(samples[k])
    ensures var anchor := AnchorOf(samples, k);
            Coordinates(Finite(anchor.latitude), Finite(anchor.longitude)) == samples[k].coordinates
            && anchor.timestamp == samples[k].timestamp
    ensures HeldSince(samples, k) == k <==> MakesFix(samples, k)
  {
  }

  lemma BridgesRow(samples: seq<FlightSample>, a: nat, i: nat, b: nat)
    requires a < i < b < |samples| && ValidSample(samples[a]) && ValidSample(samples[b]) && Unbroken(samples, a, i + 1)
    ensures Bridges(AnchorOf(samples, a), AnchorOf(samples, b), samples[i])
       <==> Unbroken(samples, a, b + 1) && samples[b].timestamp - samples[a].timestamp <= MAX_GAP_MS
    ensures AnchorOf(samples, a).timestamp == samples[a].timestamp && AnchorOf(samples, b).timestamp == samples[b].timestamp
  {
    hide ValidSample, Full, Continues;
    SameStretch(samples, a, b);
    TimeRuns(samples, a, i);
    if Unbroken(samples, a, b + 1) {
      TimeRuns(samples, i, b);
    }
  }

  // ---------------------------------------------------------------------------------------------
  // When an append asks for a redraw
  // ---------------------------------------------------------------------------------------------

  lemma {:induction false} NewestPlacedAtReport(samples: seq<FlightSample>, i: nat)
    requires i < |samples| && ValidSample(samples[i])
    ensures var fixes := Full(samples[..i + 1]).fixes;
            fixes != [] && fixes[|fixes| - 1].index == HeldSince(samples, i) as real
  {
    hide Append, ValidSample, Grown, AnchorOf, Full, MakesFix;
    FullStep(samples, i);
    GrownIsFix(samples, i);
    AppendFixes(Full(samples[..i]), samples[i], i);
    if !MakesFix(samples, i) {
      HeldBefore(samples, i);
      NewestPlacedAtReport(samples, i - 1);
    }
  }

  /** The flag, read off the new anchor. */
  lemma FlagMeans(t: Trajectory, sample: FlightSample, index: int)
    requires t.fixes != []
    ensures Append(t, sample, index).1 <==>
              && Grown(t, sample).Some? && !Interrupts(t, sample)
              && index as real > t.fixes[|t.fixes| - 1].index + 1.0
              && sample.timestamp - t.fixes[|t.fixes| - 1].anchor.timestamp <= MAX_GAP_MS
  {
    hide ValidSample;
  }

  lemma NoFlag(t: Trajectory, sample: FlightSample, index: int)
    requires t.fixes == [] || t.interrupted
    ensures !Append(t, sample, index).1
  {
    hide ValidSample;
  }

  /**
   * The redraw flag is exact: recording a further sample asks for a redraw exactly when it completes a held interval,
   * so that the row before it is now drawn between two reports.
   */
  lemma RedrawExact(samples: seq<FlightSample>, sample: FlightSample)
    ensures Append(Full(samples), sample, |samples|).1 <==>
              samples != [] && Bridged(samples + [sample], |samples| - 1)
  {
    hide Append, ValidSample, Full, Bridged;
    var n, all := |samples|, samples + [sample];
    assert all[..n] == samples;
    if n == 0 {
      NothingRecorded();
      NoFlag(Full(samples), sample, n);
    } else {
      FullStep(all, n - 1);
      AppendOpen(Full(all[..n - 1]), all[n - 1], n - 1);
      if ValidSample(all[n - 1]) {
        HeldRedraw(all, n);
      } else {
        NoFlag(Full(samples), sample, n);
        UnusableNotBridged(all, n - 1);
      }
    }
  }

  lemma UnusableNotBridged(samples: seq<FlightSample>, i: nat)
    requires i < |samples| && !ValidSample(samples[i])
    ensures !Bridged(samples, i)
  {
  }

  lemma NothingRecorded()
    ensures Full([]) == START
  {
  }

  lemma HeldRedraw(all: seq<FlightSample>, n: nat)
    requires 0 < n && n + 1 == |all| && ValidSample(all[n - 1])
    ensures Append(Full(all[..n]), all[n], n).1 <==> Bridged(all, n - 1)
  {
    hide Append, ValidSample, Grown, Full, MakesFix, Unbroken, Interrupts, AnchorOf;
    var t, a := Full(all[..n]), HeldSince(all, n - 1);
    FullStep(all, n - 1);
    AppendOpen(Full(all[..n - 1]), all[n - 1], n - 1);
    NewestPlacedAtReport(all, n - 1);
    NewestIsHeld(all, n - 1);
    FixIsValid(all, a);
    AnchorPlace(all, a);
    FlagMeans(t, all[n], n);
    GrownIsFix(all, n);
    LastFix(all, n);
    if MakesFix(all, n) {
      FixIsValid(all, n);
      LastStep(all, a, n, t);
    }
  }

  lemma LastFix(samples: seq<FlightSample>, k: nat)
    requires 0 < k && k + 1 == |samples|
    ensures NextFix(samples, k - 1, |samples|) == if MakesFix(samples, k) then Some(k) else None
  {
    hide MakesFix;
  }

  /** The last row continues its predecessor exactly when it does not interrupt. */
  lemma LastStep(samples: seq<FlightSample>, a: nat, k: nat, t: Trajectory)
    requires a < k && k + 1 == |samples| && Unbroken(samples, a, k) && ValidSample(samples[k])
    requires t.lastTimestamp == samples[k - 1].timestamp && !t.interrupted
    ensures Unbroken(samples, a, k + 1) <==> !Interrupts(t, samples[k])
  {
    hide ValidSample;
    assert Unbroken(samples, a, k + 1) <==> Unbroken(samples, a, k) && Continues(samples, k);
  }
}
