/** A run in which the live map draws a row at the place of another sample. */
module LiveClash {
  import opened Domain
  import opened GpsTrajectory
  import opened GpsHistory
  import opened LiveHistory
  import opened LiveSchedule
  import opened LiveLimits
  import opened LiveMisdrawn

  const NO_FIX: FlightSample :=
    FlightSample(0, NotFinite, NotFinite, NotFinite, Coordinates(NotFinite, NotFinite), NotFinite, NotFinite, NotFinite, NotFinite)

  /** A long wait for a position. */
  function Waiting(n: nat): (r: seq<FlightSample>)
    ensures |r| == n
  {
    if n == 0 then [] else Waiting(n - 1) + [NO_FIX]
  }

  const WAIT: nat := MAX_SAMPLE_COUNT - 3
  const FIRST: FlightSample := SomeSample(250, 54.0)
  const SECOND: FlightSample := SomeSample(500, 55.0)
  const LATE: FlightSample := SomeSample(MAX_MAP_TIME + 1, 56.0)
  const NEXT: FlightSample := SomeSample(750, 57.0)

  const RUN: seq<FlightSample> := Waiting(WAIT) + [FIRST] + [SECOND] + [LATE]

  lemma LiveTakes(samples: seq<FlightSample>, sample: FlightSample)
    ensures LiveAfter(samples + [sample]) == Receive(LiveAfter(samples), sample)
  {
    hide Receive;
    assert (samples + [sample])[..|samples|] == samples;
  }

  /** Appending alone, away from both limits. */
  lemma PlainTake(samples: seq<FlightSample>, sample: FlightSample)
    requires LiveAfter(samples).total < MAX_SAMPLE_COUNT && |LiveAfter(samples).rows| < 3
    ensures LiveAfter(samples + [sample]) == Extended(LiveAfter(samples), sample)
  {
    hide LiveAfter, Extended;
    LiveTakes(samples, sample);
    ExtendedRows(LiveAfter(samples), sample);
  }

  lemma ExtendedRows(live: Live, sample: FlightSample)
    ensures |Extended(live, sample).rows| <= |live.rows| + 1
  {
    hide Append;
  }

  lemma NoFixTaken(n: nat)
    ensures Extended(Live(START, [], n), NO_FIX) == Live(START, [], n + 1)
  {
  }

  lemma {:induction false} WaitingRun(n: nat)
    requires n <= WAIT
    ensures LiveAfter(Waiting(n)) == Live(START, [], n)
  {
    hide Receive, Extended;
    if n > 0 {
      WaitingRun(n - 1);
      PlainTake(Waiting(n - 1), NO_FIX);
      NoFixTaken(n - 1);
    }
  }

  lemma FirstTaken()
    ensures Extended(Live(START, [], WAIT), FIRST)
         == Live(Trajectory([Fix(WAIT as real, Anchor(250, 54.0, 1.0, 0))], 250, 0, false), [Row(FIRST, WAIT)], WAIT + 1)
  {
  }

  lemma SecondTaken(fix: Fix, row: Row)
    requires fix.anchor == Anchor(250, 54.0, 1.0, 0)
    ensures Extended(Live(Trajectory([fix], 250, 0, false), [row], WAIT + 1), SECOND)
         == Live(Trajectory([fix, Fix((WAIT + 1) as real, Anchor(500, 55.0, 1.0, 0))], 500, 0, false),
                 [row, Row(SECOND, WAIT + 1)], WAIT + 2)
  {
  }

  lemma LateTaken(a: Fix, b: Fix, rows: seq<Row>)
    ensures Extended(Live(Trajectory([a, b], 500, 0, false), rows, WAIT + 2), LATE)
         == Live(Trajectory([a, b, Fix((WAIT + 2) as real, Anchor(MAX_MAP_TIME + 1, 56.0, 1.0, 1))], MAX_MAP_TIME + 1, 1, false),
                 rows, WAIT + 3)
  {
  }

  /** The history before the row in question: two rows, and a third fix that makes no row. */
  lemma BeforeClash()
    ensures var live := LiveAfter(RUN);
            && live.total == MAX_SAMPLE_COUNT && Indices(live.rows) == [WAIT, WAIT + 1]
            && |live.trajectory.fixes| == 3 && Ordered(live)
            && live.trajectory.fixes[1].index == (WAIT + 1) as real
            && live.trajectory.fixes[2] == Fix((WAIT + 2) as real, Anchor(MAX_MAP_TIME + 1, 56.0, 1.0, 1))
  {
    hide Waiting, LiveAfter, Extended, ValidSample;
    var w, a, b := Waiting(WAIT), Waiting(WAIT) + [FIRST], Waiting(WAIT) + [FIRST] + [SECOND];
    WaitingRun(WAIT);
    PlainTake(w, FIRST);
    FirstTaken();
    var fix, row := Fix(WAIT as real, Anchor(250, 54.0, 1.0, 0)), Row(FIRST, WAIT);
    PlainTake(a, SECOND);
    SecondTaken(fix, row);
    var next := Fix((WAIT + 1) as real, Anchor(500, 55.0, 1.0, 0));
    PlainTake(b, LATE);
    LateTaken(fix, next, [row, Row(SECOND, WAIT + 1)]);
  }

  /**
   * After almost ten million samples without a position, two rows and one sample beyond the time limit, the next row
   * is drawn at the latitude of that sample, while the full recording draws it at its own.
   */
  lemma UntimelyRunMisdraws()
    ensures Usable(NEXT)
    ensures var live := LiveAfter(RUN + [NEXT]);
            && |live.rows| == 3 && live.rows[2] == Row(NEXT, 2)
            && CoordinateAt(live.trajectory, 2, NEXT).latitude == LATE.coordinates.latitude
    ensures CoordinateAt(Full(RUN + [NEXT]), |RUN|, NEXT) == NEXT.coordinates
    ensures LATE.coordinates.latitude != NEXT.coordinates.latitude
  {
    hide LiveAfter, Full, Append, CoordinateAt, Waiting, ValidSample, Renumber;
    SomeSampleUsable(750, 57.0);
    UsableIsValid(NEXT);
    BeforeClash();
    var live := LiveAfter(RUN);
    LiveTakes(RUN, NEXT);
    ClashPosition(live);
    FullTakes(RUN, NEXT);
    NewestRowRaw(Full(RUN), NEXT, |RUN|);
  }

  lemma ClashPosition(live: Live)
    requires Ordered(live) && live.total == MAX_SAMPLE_COUNT && Indices(live.rows) == [WAIT, WAIT + 1]
    requires |live.trajectory.fixes| == 3 && live.trajectory.fixes[1].index == (WAIT + 1) as real
    requires live.trajectory.fixes[2].index == (WAIT + 2) as real
    ensures CoordinateAt(RebasedThen(live, NEXT).trajectory, 2, NEXT).latitude
         == Finite(live.trajectory.fixes[2].anchor.latitude)
  {
    hide Append, CoordinateAt, Renumbered, ValidSample;
    SomeSampleUsable(750, 57.0);
    UsableIsValid(NEXT);
    var fixes := live.trajectory.fixes;
    assert fixes[0].index < fixes[1].index;
    FirstNotBelow(fixes, (WAIT + 2) as real, 2);
    BlockedPosition(live, NEXT);
  }
}
