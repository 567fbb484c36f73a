/** What is seen of a renumbering without room: exactly when some next row is drawn away from its own place. */
module LiveMisdrawn {
  import opened Domain
  import opened GpsTrajectory
  import opened GpsCompaction
  import opened GpsDisplay
  import opened LiveHistory
  import opened LiveSchedule
  import opened LiveMap
  import opened LiveLimits

  /** Two fixes between which some timely sample would be drawn. */
  predicate Bridgeable(previous: Anchor, next: Anchor) {
    && previous.segment == next.segment && 2 <= next.timestamp - previous.timestamp <= MAX_GAP_MS
    && previous.timestamp < MAX_MAP_TIME && -MAX_MAP_TIME < next.timestamp
  }

  /**
   * The blocking fix harms the next row exactly when it lies on the next place, or when it and the fix before it can
   * be bridged.
   */
  predicate Harmful(live: Live) {
    live.rows != [] &&
    var fixes, k := live.trajectory.fixes, Blocking(live);
    k < |fixes| && (fixes[k].index == NextPlace(Indices(live.rows)) as real
                    || (k > 0 && Bridgeable(fixes[k - 1].anchor, fixes[k].anchor)))
  }

  /** After a renumbering, the next row is drawn where its sample says, for any usable sample. */
  ghost predicate NextDrawnRight(live: Live)
    requires RowsInOrder(live)
  {
    forall sample: FlightSample :: Usable(sample) ==> RowDrawnRight(live, sample)
  }

  ghost predicate RowDrawnRight(live: Live, sample: FlightSample)
    requires RowsInOrder(live)
  {
    CoordinateAt(RebasedThen(live, sample).trajectory, |live.rows|, sample) == sample.coordinates
  }

  /** The position of the next row in the blocked case. */
  lemma BlockedPosition(live: Live, sample: FlightSample)
    requires Ordered(live) && live.rows != [] && !HasRoom(live)
    ensures var fixes, k := live.trajectory.fixes, Blocking(live);
            && k < |fixes|
            && CoordinateAt(RebasedThen(live, sample).trajectory, |live.rows|, sample)
               == Show(Bracket(if k == 0 then None else Some(fixes[k - 1].anchor), Some(fixes[k].anchor),
                               fixes[k].index == NextPlace(Indices(live.rows)) as real), sample)
  {
    hide Append, Renumbered, NextPlace, HasRoom, Interpolate, ValidSample, Bridges, Ordered;
    BlockedRow(live, sample);
  }

  /**
   * What is seen of a renumbering: every usable next sample is drawn where it says exactly when no harmful fix is in
   * the way.
   */
  lemma NextDrawnExactly(live: Live)
    requires Ordered(live)
    ensures NextDrawnRight(live) <==> !Harmful(live)
  {
    hide Ordered, RowDrawnRight, Usable, Blocking, NextPlace;
    OrderedRows(live);
    if Harmful(live) {
      var sample := HarmedSample(live);
    } else {
      forall sample: FlightSample | Usable(sample) ensures RowDrawnRight(live, sample) {
        UnharmedRow(live, sample);
      }
    }
  }

  lemma UnharmedRow(live: Live, sample: FlightSample)
    requires Ordered(live) && !Harmful(live) && Usable(sample)
    ensures RowsInOrder(live) && RowDrawnRight(live, sample)
  {
    hide Append, Blocking, NextPlace, ValidSample, Interpolate, CoordinateAt, Renumbered;
    if live.rows == [] {
      FirstRowAlone(live, sample);
    } else if HasRoom(live) {
      RebaseOrdered(live);
      RenumberedTotal(live);
      NewestRowRaw(Renumbered(live).trajectory, sample, |live.rows|);
    } else {
      BlockedPosition(live, sample);
    }
  }

  /** The newest row is drawn where it says. */
  lemma NewestRowRaw(t: Trajectory, sample: FlightSample, index: int)
    requires Sorted(t.fixes) && Below(t.fixes, index)
    ensures CoordinateAt(Append(t, sample, index).0, index, sample) == sample.coordinates
  {
    hide Append, BracketAt, CoordinateAt, SegmentAt;
    AppendBracket(t, sample, index, index);
    BracketShows(Append(t, sample, index).0, index, sample);
    GrownPlace(t, sample);
  }

  lemma GrownPlace(t: Trajectory, sample: FlightSample)
    ensures Grown(t, sample).Some? ==>
              Coordinates(Finite(Grown(t, sample).value.latitude), Finite(Grown(t, sample).value.longitude))
              == sample.coordinates
  {
  }

  lemma HarmedSample(live: Live) returns (sample: FlightSample)
    requires Ordered(live) && Harmful(live)
    ensures RowsInOrder(live) && Usable(sample) && !RowDrawnRight(live, sample)
  {
    hide Append, Blocking, NextPlace, ValidSample, Interpolate, CoordinateAt, Renumbered, Usable;
    RoomIsUnblocked(live);
    var fixes, k := live.trajectory.fixes, Blocking(live);
    if fixes[k].index == NextPlace(Indices(live.rows)) as real {
      sample := SomeSample(0, if fixes[k].anchor.latitude == 1.0 then 2.0 else 1.0);
      SomeSampleUsable(0, sample.coordinates.latitude.value);
    } else {
      var p, n := fixes[k - 1].anchor, fixes[k].anchor;
      var at := Max(p.timestamp + 1, -MAX_MAP_TIME);
      var shown := Interpolate(p, n, (at - p.timestamp) as real / (n.timestamp - p.timestamp) as real);
      sample := SomeSample(at, if shown.latitude == Finite(1.0) then 2.0 else 1.0);
      SomeSampleUsable(at, sample.coordinates.latitude.value);
    }
    UsableIsValid(sample);
    BlockedPosition(live, sample);
  }

  lemma UsableIsValid(sample: FlightSample)
    requires Usable(sample)
    ensures ValidSample(sample)
  {
  }
}
