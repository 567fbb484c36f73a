/**
 * The program's own schedule: renumber when the indices run out, thin when there are too many rows. Kept rows are drawn
 * as if nothing had been forgotten, and the history stays small.
 */
module LiveMap {
  import opened Domain
  import opened GpsTrajectory
  import opened GpsCompaction
  import opened GpsDisplay
  import opened LiveHistory
  import opened LiveSchedule

  // ---------------------------------------------------------------------------------------------
  // Every run
  // ---------------------------------------------------------------------------------------------

  /** Should the next sample make the map renumber, there is room. */
  ghost predicate RoomNext(live: Live) {
    live.total >= MAX_SAMPLE_COUNT ==> HasRoom(live)
  }

  /** Every renumbering of the run finds room. */
  ghost predicate Roomy(samples: seq<FlightSample>) {
    forall k :: 0 <= k < |samples| ==> RoomNext(LiveAfter(samples[..k]))
  }

  /** A step in front of a schedule. */
  lemma StepFirst(live: Live, step: Step, rest: seq<Step>)
    requires Legal(live, step) && LegalAll(Perform(live, step), rest)
    ensures var steps := [step] + rest;
            && LegalAll(live, steps) && PerformAll(live, steps) == PerformAll(Perform(live, step), rest)
            && (RoomAll(live, steps) <==> (step.Rebase? ==> HasRoom(live)) && RoomAll(Perform(live, step), rest))
            && Taken(steps) == TakenBy(step) + Taken(rest)
  {
    hide Legal, Perform, HasRoom, TakenBy;
    assert ([step] + rest)[1..] == rest;
  }

  lemma NoSteps(live: Live)
    ensures LegalAll(live, []) && RoomAll(live, []) && PerformAll(live, []) == live && Taken([]) == []
  {
  }

  /** Receiving a sample is a schedule of at most three steps. */
  lemma ReceiveIsSchedule(live: Live, sample: FlightSample)
    requires RowsInOrder(live)
    ensures var steps := StepsOf(live, sample);
            && LegalAll(live, steps) && PerformAll(live, steps) == Receive(live, sample) && Taken(steps) == [sample]
            && (RoomAll(live, steps) <==> RoomNext(live))
  {
    hide Extended, Thinned, Renumbered, RowsInOrder, HasRoom, KeptRows, LegalAll, PerformAll, RoomAll, Taken;
    var start := Readied(live);
    var longer := Extended(start, sample);
    var tail := if |longer.rows| > POINT_BUDGET then [Thin(KeptRows(longer))] else [];
    TailSchedule(longer, tail);
    StepFirst(start, Take(sample), tail);
    var middle := [Take(sample)] + tail;
    assert [sample] + [] == [sample] && [] + [sample] == [sample];
    if live.total >= MAX_SAMPLE_COUNT {
      StepFirst(live, Rebase, middle);
      assert StepsOf(live, sample) == [Rebase] + middle;
    } else {
      assert StepsOf(live, sample) == middle;
    }
  }

  lemma TailSchedule(longer: Live, tail: seq<Step>)
    requires RowsInOrder(longer)
    requires tail == if |longer.rows| > POINT_BUDGET then [Thin(KeptRows(longer))] else []
    ensures LegalAll(longer, tail) && RoomAll(longer, tail) && PerformAll(longer, tail) == Compacted(longer)
    ensures Taken(tail) == []
  {
    hide RowsInOrder, Thinned, KeptRows, LegalAll, PerformAll, RoomAll, Taken;
    if tail == [] {
      NoSteps(longer);
    } else {
      NoSteps(Perform(longer, tail[0]));
      StepFirst(longer, tail[0], []);
      assert [tail[0]] + [] == tail;
    }
  }

  function UsableCount(samples: seq<FlightSample>): nat {
    if samples == [] then 0
    else UsableCount(samples[..|samples| - 1]) + (if Usable(samples[|samples| - 1]) then 1 else 0)
  }

  /**
   * Some samples stand for the usable ones: the first and the last of them are there, at least 5,000 if there are so
   * many, and all of them while there are at most 10,000.
   */
  ghost predicate Represents(samples: seq<FlightSample>, origin: seq<int>) {
    && (forall k :: 0 <= k < |origin| ==> 0 <= origin[k] < |samples| && Usable(samples[origin[k]]))
    && (forall j :: 0 <= j < |samples| && Usable(samples[j]) ==> origin != [] && origin[0] <= j <= origin[|origin| - 1])
    && Min(UsableCount(samples), 5_000) <= |origin| <= UsableCount(samples)
    && (UsableCount(samples) <= 10_000 ==> forall j :: 0 <= j < |samples| && Usable(samples[j]) ==> j in origin)
  }

  lemma RepresentsMore(samples: seq<FlightSample>, sample: FlightSample, origin: seq<int>)
    requires Represents(samples, origin)
    ensures Represents(samples + [sample], GrownOrigin(origin, |samples|, sample))
  {
    hide Usable;
    var all := samples + [sample];
    var next := GrownOrigin(origin, |samples|, sample);
    assert all[..|samples|] == samples;
    forall j | UsableCount(all) <= 10_000 && 0 <= j < |all| && Usable(all[j]) ensures j in next {
      if j < |samples| {
        assert samples[j] == all[j] && j in origin;
      } else {
        assert next[|origin|] == j;
      }
    }
  }

  lemma RepresentsFewer(samples: seq<FlightSample>, origin: seq<int>, pos: seq<int>)
    requires Represents(samples, origin) && |origin| > 10_000 && Positions(pos, |origin|)
    requires |pos| == 5_000 && pos[0] == 0 && pos[|pos| - 1] == |origin| - 1
    ensures Represents(samples, PickOrigin(origin, pos))
  {
    hide Usable, UsableCount;
  }

  /** The samples behind the rows when one more was received, before any thinning. */
  function GrownOrigin(origin: seq<int>, count: nat, sample: FlightSample): seq<int> {
    if Usable(sample) then origin + [count] else origin
  }

  /** Which samples the rows show after one more was received. */
  lemma ReceiveOrigin(live: Live, origin: seq<int>, count: nat, sample: FlightSample)
    requires RowsInOrder(live) && |origin| == |live.rows|
    ensures LegalAll(live, StepsOf(live, sample))
    ensures var longer, grown := Extended(Readied(live), sample), GrownOrigin(origin, count, sample);
            && |grown| == |longer.rows|
            && OriginAfter(live, origin, count, StepsOf(live, sample))
               == if |longer.rows| > POINT_BUDGET then PickOrigin(grown, KeptRows(longer)) else grown
  {
    hide Extended, Thinned, GrownOrigin, KeptRows, RowsInOrder, LegalAll, OriginAfter, PickOrigin, NextOrigin, Renumbered;
    ReceiveIsSchedule(live, sample);
    var start := Readied(live);
    var longer := Extended(start, sample);
    var tail := if |longer.rows| > POINT_BUDGET then [Thin(KeptRows(longer))] else [];
    SameRowCount(live);
    TakeOrigin(start, origin, count, sample, tail);
    var middle := [Take(sample)] + tail;
    if live.total >= MAX_SAMPLE_COUNT {
      RebaseOrigin(live, origin, count, middle);
      assert StepsOf(live, sample) == [Rebase] + middle;
    } else {
      assert StepsOf(live, sample) == middle;
    }
  }

  lemma SameRowCount(live: Live)
    requires RowsInOrder(live)
    ensures |Readied(live).rows| == |live.rows|
  {
  }

  lemma TakeOrigin(start: Live, origin: seq<int>, count: nat, sample: FlightSample, tail: seq<Step>)
    requires RowsInOrder(start) && |origin| == |start.rows|
    requires var longer := Extended(start, sample);
             tail == if |longer.rows| > POINT_BUDGET then [Thin(KeptRows(longer))] else []
    ensures LegalAll(start, [Take(sample)] + tail)
    ensures var longer, grown := Extended(start, sample), GrownOrigin(origin, count, sample);
            && |grown| == |longer.rows|
            && OriginAfter(start, origin, count, [Take(sample)] + tail)
               == if |longer.rows| > POINT_BUDGET then PickOrigin(grown, KeptRows(longer)) else grown
  {
    hide Append, Thinned, KeptRows, RowsInOrder, LegalAll, OriginAfter, PickOrigin, Usable;
    var longer := Extended(start, sample);
    TailSchedule(longer, tail);
    TailOrigin(longer, GrownOrigin(origin, count, sample), count + 1, tail);
    OriginFirst(start, origin, count, Take(sample), tail);
  }

  lemma RebaseOrigin(live: Live, origin: seq<int>, count: nat, rest: seq<Step>)
    requires RowsInOrder(live) && |origin| == |live.rows| && LegalAll(Renumbered(live), rest)
    ensures |origin| == |Renumbered(live).rows| && LegalAll(live, [Rebase] + rest)
    ensures OriginAfter(live, origin, count, [Rebase] + rest) == OriginAfter(Renumbered(live), origin, count, rest)
  {
    hide RebaseIndices, LegalAll, OriginAfter;
    OriginFirst(live, origin, count, Rebase, rest);
  }

  lemma OriginFirst(live: Live, origin: seq<int>, count: nat, step: Step, rest: seq<Step>)
    requires Legal(live, step) && LegalAll(Perform(live, step), rest) && |origin| == |live.rows|
    ensures LegalAll(live, [step] + rest)
    ensures OriginAfter(live, origin, count, [step] + rest)
         == OriginAfter(Perform(live, step), NextOrigin(live, origin, count, step), count + |TakenBy(step)|, rest)
  {
    hide Legal, Perform, NextOrigin, TakenBy;
    assert ([step] + rest)[1..] == rest;
  }

  lemma TailOrigin(longer: Live, grown: seq<int>, count: nat, tail: seq<Step>)
    requires RowsInOrder(longer) && |grown| == |longer.rows| && LegalAll(longer, tail)
    requires tail == if |longer.rows| > POINT_BUDGET then [Thin(KeptRows(longer))] else []
    ensures OriginAfter(longer, grown, count, tail)
         == if |longer.rows| > POINT_BUDGET then PickOrigin(grown, KeptRows(longer)) else grown
  {
    hide RowsInOrder, Thinned, KeptRows, LegalAll;
    if tail != [] {
      NoSteps(Perform(longer, tail[0]));
      OriginFirst(longer, grown, count, tail[0], []);
      assert [tail[0]] + [] == tail;
    }
  }

  lemma {:induction false} RunMatches(samples: seq<FlightSample>) returns (origin: seq<int>)
    requires Roomy(samples)
    ensures Matches(LiveAfter(samples), samples, origin) && Represents(samples, origin)
    decreases |samples|
  {
    hide Matches, RoomNext, StepsOf, Roomy, LiveAfter, RowsInOrder, LegalAll, RoomAll, PerformAll, Taken, OriginAfter,
      Represents, Extended, KeptRows, Readied, GrownOrigin;
    LiveAfterStep(samples);
    if samples == [] {
      origin := [];
      NothingMatches();
    } else {
      var init, last := samples[..|samples| - 1], samples[|samples| - 1];
      RoomyBefore(samples, |samples| - 1);
      var before := RunMatches(init);
      var live := LiveAfter(init);
      ReceiveIsSchedule(live, last);
      ScheduleMatches(live, init, before, StepsOf(live, last));
      origin := OriginAfter(live, before, |init|, StepsOf(live, last));
      assert init + [last] == samples;
      ReceiveOrigin(live, before, |init|, last);
      RepresentsMore(init, last, before);
      var longer := Extended(Readied(live), last);
      if |longer.rows| > POINT_BUDGET {
        RepresentsFewer(samples, GrownOrigin(before, |init|, last), KeptRows(longer));
      }
    }
  }

  lemma LiveAfterStep(samples: seq<FlightSample>)
    ensures samples == [] ==> LiveAfter(samples) == NOTHING
    ensures samples != [] ==>
              LiveAfter(samples) == Receive(LiveAfter(samples[..|samples| - 1]), samples[|samples| - 1])
  {
    hide Receive;
  }

  lemma RoomyBefore(samples: seq<FlightSample>, n: nat)
    requires Roomy(samples) && n <= |samples|
    ensures Roomy(samples[..n]) && (n < |samples| ==> RoomNext(LiveAfter(samples[..n])))
  {
    hide RoomNext, LiveAfter;
    forall k | 0 <= k < n ensures RoomNext(LiveAfter(samples[..n][..k])) {
      assert samples[..n][..k] == samples[..k];
    }
  }

  lemma NothingMatches()
    ensures Matches(NOTHING, [], []) && Represents([], [])
  {
  }

  /**
   * However often the history was thinned and renumbered, the rows stand for all usable samples, in recording order,
   * and each is drawn exactly where the full recording draws its sample, in the same segment.
   */
  lemma LiveMapFaithful(samples: seq<FlightSample>) returns (origin: seq<int>)
    requires Roomy(samples)
    ensures DrawnAlike(LiveAfter(samples), samples, origin) && Represents(samples, origin)
  {
    hide Matches, DrawnAlike, LiveAfter, Roomy, Represents;
    origin := RunMatches(samples);
    MatchesDrawnAlike(LiveAfter(samples), samples, origin);
  }

  // ---------------------------------------------------------------------------------------------
  // Timely samples always leave room
  // ---------------------------------------------------------------------------------------------

  /** No fix lies after the newest row. */
  ghost predicate Tight(live: Live) {
    live.trajectory.fixes != [] ==>
      && live.rows != []
      && live.trajectory.fixes[|live.trajectory.fixes| - 1].index <= live.rows[|live.rows| - 1].index as real
  }

  /** A step that brings only timely samples and thins only older rows away. */
  ghost predicate Gentle(live: Live, step: Step) {
    && (step.Take? ==> Timely(step.sample))
    && (step.Thin? ==> live.rows == [] || (step.pos != [] && step.pos[|step.pos| - 1] == |live.rows| - 1))
  }

  lemma TightHasRoom(live: Live)
    requires Tight(live) && RowsInOrder(live)
    ensures HasRoom(live)
  {
    var indices := Indices(live.rows);
    if |indices| > 1 {
      assert indices[|indices| - 2] < indices[|indices| - 1];
    }
  }

  lemma GentleKeepsTight(live: Live, step: Step)
    requires Ordered(live) && Tight(live) && Legal(live, step) && Gentle(live, step)
    ensures Ordered(Perform(live, step)) && Tight(Perform(live, step))
  {
    hide Append, ValidSample, BracketAt, RetainSamples, Renumber, Sorted, Below, RowsInOrder;
    match step {
      case Take(sample) => TakeKeepsTight(live, sample);
      case Thin(pos) => ThinKeepsTight(live, pos);
      case Rebase => RebaseKeepsTight(live);
    }
  }

  lemma TakeKeepsTight(live: Live, sample: FlightSample)
    requires Ordered(live) && Tight(live) && Timely(sample)
    ensures Ordered(Extended(live, sample)) && Tight(Extended(live, sample))
  {
    hide Append, ValidSample, BracketAt, RowsInOrder;
    AppendBracket(live.trajectory, sample, live.total, live.total);
    AppendFixes(live.trajectory, sample, live.total);
    GrownIsValid(live.trajectory, sample);
  }

  lemma GrownIsValid(t: Trajectory, sample: FlightSample)
    ensures Grown(t, sample).Some? ==> ValidSample(sample)
  {
  }

  lemma ThinKeepsTight(live: Live, pos: seq<int>)
    requires Ordered(live) && Tight(live) && Positions(pos, |live.rows|) && Gentle(live, Thin(pos))
    ensures Ordered(Thinned(live, pos)) && Tight(Thinned(live, pos))
  {
    hide RetainSamples, BracketAt, Sorted, Below, StrictlyIncreasing;
    ThinOrdered(live, pos);
    NewestStays(live.trajectory, Indices(Thinned(live, pos).rows));
  }

  /** Thinning keeps the newest fix itself. */
  lemma NewestStays(t: Trajectory, indices: seq<int>)
    requires Sorted(t.fixes) && Nondecreasing(indices)
    ensures var fixes := RetainSamples(t, indices).fixes;
            (fixes == [] <==> t.fixes == []) && (t.fixes != [] ==> fixes[|fixes| - 1] == t.fixes[|t.fixes| - 1])
  {
    hide Keep, KeepAll;
    var pos := RetainPicks(t, indices);
  }

  lemma RebaseKeepsTight(live: Live)
    requires Ordered(live) && Tight(live)
    ensures Ordered(Renumbered(live)) && Tight(Renumbered(live))
  {
    hide Renumber, Sorted, Below;
    TightHasRoom(live);
    var fixes, indices := live.trajectory.fixes, Indices(live.rows);
    if live.rows != [] {
      RebaseOrdered(live);
      if fixes != [] {
        RenumberCompares(indices, fixes[|fixes| - 1].index, |indices| - 1);
      }
    } else {
      NoFixes(Renumbered(live));
    }
  }

  lemma NoFixes(live: Live)
    requires live.trajectory.fixes == [] && RowsInOrder(live)
    ensures Ordered(live)
  {
  }

  /** The program's runs on timely samples are gentle. */
  lemma {:induction false} TimelyRunTight(samples: seq<FlightSample>)
    requires forall k :: 0 <= k < |samples| ==> Timely(samples[k])
    ensures Ordered(LiveAfter(samples)) && Tight(LiveAfter(samples))
    decreases |samples|
  {
    hide Ordered, Tight, Timely, Extended, Renumbered, Thinned, KeptRows;
    if samples == [] {
      NothingTight();
    } else {
      var init, last := samples[..|samples| - 1], samples[|samples| - 1];
      TimelyRunTight(init);
      var live := LiveAfter(init);
      var start := Readied(live);
      if live.total >= MAX_SAMPLE_COUNT {
        GentleKeepsTight(live, Rebase);
      }
      GentleKeepsTight(start, Take(last));
      var longer := Extended(start, last);
      if |longer.rows| > POINT_BUDGET {
        GentleKeepsTight(longer, Thin(KeptRows(longer)));
      }
    }
  }

  lemma NothingTight()
    ensures Ordered(NOTHING) && Tight(NOTHING)
  {
  }

  /** Without untimely samples every renumbering finds room. */
  lemma TimelyIsRoomy(samples: seq<FlightSample>)
    requires forall k :: 0 <= k < |samples| ==> Timely(samples[k])
    ensures Roomy(samples)
  {
    hide LiveAfter, Timely, HasRoom, Ordered;
    forall k | 0 <= k < |samples| ensures RoomNext(LiveAfter(samples[..k])) {
      TimelyRunTight(samples[..k]);
      OrderedRows(LiveAfter(samples[..k]));
      TightHasRoom(LiveAfter(samples[..k]));
    }
  }

  lemma OrderedRows(live: Live)
    requires Ordered(live)
    ensures RowsInOrder(live)
  {
  }

  // ---------------------------------------------------------------------------------------------
  // The history stays small
  // ---------------------------------------------------------------------------------------------

  /** Thinning leaves at most two fixes for each kept row, and the newest one. */
  lemma RetainBound(t: Trajectory, indices: seq<int>)
    ensures t.fixes != [] ==> |RetainSamples(t, indices).fixes| <= 2 * |indices| + 1
    ensures t.fixes == [] ==> RetainSamples(t, indices).fixes == []
  {
    KeepAllBound(t.fixes, indices);
  }

  lemma {:induction false} KeepAllBound(fixes: seq<Fix>, indices: seq<int>)
    ensures |KeepAll(fixes, indices)| <= 2 * |indices|
    decreases |indices|
  {
    if indices != [] {
      KeepAllBound(fixes, indices[..|indices| - 1]);
    }
  }

  /** Samples that may make a fix, but no row. */
  function UntimelyCount(samples: seq<FlightSample>): nat {
    if samples == [] then 0
    else UntimelyCount(samples[..|samples| - 1]) + (if Timely(samples[|samples| - 1]) then 0 else 1)
  }

  lemma {:induction false} NoneUntimely(samples: seq<FlightSample>)
    requires forall k :: 0 <= k < |samples| ==> Timely(samples[k])
    ensures UntimelyCount(samples) == 0
    decreases |samples|
  {
    if samples != [] {
      NoneUntimely(samples[..|samples| - 1]);
    }
  }

  /** At most so many fixes beyond one for each row. */
  ghost predicate Small(live: Live, extra: nat) {
    |live.trajectory.fixes| <= |live.rows| + COMPACT_TARGET + 1 + extra
  }

  lemma ExtendedSize(live: Live, sample: FlightSample, extra: nat)
    requires Small(live, extra)
    ensures Small(Extended(live, sample), extra + if Timely(sample) then 0 else 1)
    ensures |Extended(live, sample).rows| <= |live.rows| + 1
  {
    hide Append, ValidSample;
    AppendFixes(live.trajectory, sample, live.total);
    GrownIsValid(live.trajectory, sample);
  }

  lemma CompactedSize(live: Live, extra: nat)
    requires Small(live, extra) && |live.rows| <= POINT_BUDGET + 1
    ensures Small(Compacted(live), extra) && |Compacted(live).rows| <= POINT_BUDGET
  {
    hide RetainSamples, Positions;
    if |live.rows| > POINT_BUDGET {
      RetainBound(live.trajectory, Indices(PickRows(live.rows, KeptRows(live))));
    }
  }

  /**
   * Over every run there are at most 10,000 rows, and at most 5,001 fixes more than rows: both are bounded, unless
   * untimely samples keep arriving, each of which may add one fix.
   */
  lemma {:induction false} RunBounded(samples: seq<FlightSample>)
    ensures |LiveAfter(samples).rows| <= 10_000
    ensures |LiveAfter(samples).trajectory.fixes| <= |LiveAfter(samples).rows| + 5_001 + UntimelyCount(samples)
    decreases |samples|
  {
    hide Extended, Compacted, Timely;
    if samples != [] {
      var init, last := samples[..|samples| - 1], samples[|samples| - 1];
      RunBounded(init);
      var live := LiveAfter(init);
      var start := Readied(live);
      ExtendedSize(start, last, UntimelyCount(init));
      CompactedSize(Extended(start, last), UntimelyCount(samples));
    }
  }
}
