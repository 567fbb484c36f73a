/** The drawing of a metric is complete: what can be joined is joined, and what the selection keeps is on the chart. */
module ChartDrawing {
  import opened Domain
  import opened ChartSummaries
  import opened ChartSelection
  import opened ChartSegments
  import opened ChartBudget

  // ---------------------------------------------------------------------------------------------
  // Which runs become lines
  // ---------------------------------------------------------------------------------------------

  /** The runs that are more than a single point. */
  function Long(runs: seq<seq<nat>>): seq<seq<nat>> {
    if runs == [] then []
    else Long(runs[..|runs| - 1]) + (if |runs[|runs| - 1]| == 1 then [] else [runs[|runs| - 1]])
  }

  /** The lines are exactly the first 32 long runs. */
  lemma {:induction false} LinesAreFirstLong(runs: seq<seq<nat>>)
    ensures Draw(runs).lines == Long(runs)[..Min(MAX_LINE_SEGMENTS, |Long(runs)|)]
    decreases |runs|
  {
    if runs != [] {
      LinesAreFirstLong(runs[..|runs| - 1]);
    }
  }

  /** A run becomes a line, unless it is a single point or there are 32 lines already; then its points are isolated. */
  lemma {:induction false} RunIsDrawn(runs: seq<seq<nat>>, r: nat)
    requires r < |runs|
    ensures var d := Draw(runs);
            runs[r] in d.lines
            || ((|runs[r]| == 1 || |d.lines| == MAX_LINE_SEGMENTS) && forall p :: p in runs[r] ==> p in d.isolated)
    decreases |runs|
  {
    var init := runs[..|runs| - 1];
    if r < |init| {
      RunIsDrawn(init, r);
    }
  }

  // ---------------------------------------------------------------------------------------------
  // Which neighbours are joined
  // ---------------------------------------------------------------------------------------------

  /** A run or a line steps from plotted row `i - 1` to plotted row `i`. */
  ghost predicate StepsInto(run: seq<nat>, i: nat) {
    exists j :: 0 <= j < |run| - 1 && run[j] + 1 == i && run[j + 1] == i
  }

  ghost predicate Joined(runs: seq<seq<nat>>, i: nat) {
    exists r :: 0 <= r < |runs| && StepsInto(runs[r], i)
  }

  /** Two neighbouring plotted rows have values, and so has every raw row between them. */
  ghost predicate Joinable(t: Task, i: nat)
    requires Proper(t) && 0 < i < |t.plot|
  {
    ValueOf(t, i - 1).Finite? && ValueOf(t, i).Finite? && t.index.Some? && NothingMissing(t, i - 1, i)
  }

  lemma StepsIntoSnoc(run: seq<nat>, last: nat)
    requires run != [] && run[|run| - 1] + 1 == last
    ensures StepsInto(run + [last], last)
    ensures forall i :: StepsInto(run, i) ==> StepsInto(run + [last], i)
  {
    var r := run + [last];
    assert r[|run| - 1] + 1 == last && r[|run|] == last;
    forall i | StepsInto(run, i) ensures StepsInto(r, i) {
      var j :| 0 <= j < |run| - 1 && run[j] + 1 == i && run[j + 1] == i;
      assert r[j] + 1 == i && r[j + 1] == i;
    }
  }

  /** Where a joined pair sits in the walk. */
  ghost predicate JoinedInWalk(w: Walk, i: nat) {
    Joined(w.closed, i) || StepsInto(w.open, i)
  }

  lemma CloseKeepsJoined(w: Walk, i: nat)
    requires JoinedInWalk(w, i)
    ensures Joined(Close(w).closed, i)
  {
    if Joined(w.closed, i) {
      var r :| 0 <= r < |w.closed| && StepsInto(w.closed[r], i);
      assert StepsInto(Close(w).closed[r], i);
    } else {
      assert StepsInto(Close(w).closed[|w.closed|], i);
    }
  }

  /** The walk joins every neighbouring pair with values and no gap. */
  lemma {:induction false} WalkJoins(t: Task, k: nat, i: nat)
    requires Proper(t) && 0 < i < k <= |t.plot|
    requires ValueOf(t, i - 1).Finite? && ValueOf(t, i).Finite? && !GapBefore(t, i)
    ensures JoinedInWalk(WalkUpTo(t, k), i)
    decreases k
  {
    hide ValueOf, GapBefore, Proper, Close, StepsInto, Solid, Joined;
    var w, last := WalkUpTo(t, k - 1), k - 1;
    RunsSolid(t, k - 1);
    if i < last {
      WalkJoins(t, k - 1, i);
      CloseKeepsJoined(w, i);
      PushKeepsJoined(w, last, i);
    } else {
      assert WalkUpTo(t, k) == w.(open := w.open + [last]);
      StepsIntoSnoc(w.open, last);
    }
  }

  lemma PushKeepsJoined(w: Walk, last: nat, i: nat)
    requires JoinedInWalk(w, i) && (w.open == [] || w.open[|w.open| - 1] + 1 == last)
    ensures JoinedInWalk(w.(open := w.open + [last]), i)
  {
    hide Joined;
    if w.open != [] {
      StepsIntoSnoc(w.open, last);
    }
  }

  /** A run holds only rows with values, and steps only where nothing is missing. */
  lemma RunStepsJoinable(t: Task, r: nat, i: nat)
    requires Proper(t) && r < |Runs(t)| && StepsInto(Runs(t)[r], i)
    ensures 0 < i < |t.plot| && Joinable(t, i)
  {
    hide ValueOf, GapBefore, Proper, WalkUpTo, Close, Content, NothingMissing;
    var w, run := WalkUpTo(t, |t.plot|), Runs(t)[r];
    RunsSolid(t, |t.plot|);
    CloseSolid(t, w);
    var j :| 0 <= j < |run| - 1 && run[j] + 1 == i && run[j + 1] == i;
    assert Steps(t, run[j], run[j + 1]);
    GapExact(t, i);
    RunsPartition(t, |t.plot|);
    CloseKeepsContent(w);
    InConcat(Runs(t), r, j);
    InConcat(Runs(t), r, j + 1);
    OnlyFinite(t, |t.plot|, i - 1);
    OnlyFinite(t, |t.plot|, i);
    IndexNeeded(t, i);
  }

  lemma IndexNeeded(t: Task, i: nat)
    requires Proper(t) && 0 < i < |t.plot| && !GapBefore(t, i)
    ensures t.index.Some?
  {
  }

  lemma {:induction false} InConcat(runs: seq<seq<nat>>, r: nat, j: nat)
    requires r < |runs| && j < |runs[r]|
    ensures runs[r][j] in Concat(runs)
    decreases |runs|
  {
    if r < |runs| - 1 {
      InConcat(runs[..|runs| - 1], r, j);
    }
  }

  lemma {:induction false} OnlyFinite(t: Task, k: nat, i: nat)
    requires Proper(t) && k <= |t.plot|
    ensures i in FiniteUpTo(t, k) <==> i < k && ValueOf(t, i).Finite?
    decreases k
  {
    hide ValueOf, Proper;
    if k > 0 {
      OnlyFinite(t, k - 1, i);
    }
  }

  /** Joined exactly when joinable, unless the limit on lines leaves both points isolated. */
  ghost predicate JoinedWhereDue(t: Task, d: Drawing, i: nat)
    requires Proper(t) && 0 < i < |t.plot|
  {
    && (Joined(d.lines, i) ==> Joinable(t, i))
    && (Joinable(t, i) ==>
          Joined(d.lines, i) || (|d.lines| == 32 && i - 1 in d.isolated && i in d.isolated))
  }

  /**
   * Drawing is complete: two neighbouring plotted rows are joined by a line exactly when both have a value and so has
   * every raw row between them. Only once 32 lines are drawn may such a pair be left as two isolated points instead.
   */
  lemma DrawingComplete(t: Task, i: nat)
    requires Proper(t) && 0 < i < |t.plot|
    ensures JoinedWhereDue(t, Draw(Runs(t)), i)
  {
    hide ValueOf, GapBefore, Proper, WalkUpTo, NothingMissing, StepsInto, Draw;
    var runs, d := Runs(t), Draw(Runs(t));
    if Joined(d.lines, i) {
      var l :| 0 <= l < |d.lines| && StepsInto(d.lines[l], i);
      assert d.lines[l] in runs;
      var r :| 0 <= r < |runs| && runs[r] == d.lines[l];
      RunStepsJoinable(t, r, i);
    }
    if Joinable(t, i) {
      GapExact(t, i);
      WalkJoins(t, |t.plot|, i);
      CloseKeepsJoined(WalkUpTo(t, |t.plot|), i);
      var r :| 0 <= r < |runs| && StepsInto(runs[r], i);
      RunIsDrawn(runs, r);
      StepIsLong(runs[r], i);
      if runs[r] in d.lines {
        var l :| 0 <= l < |d.lines| && d.lines[l] == runs[r];
        assert StepsInto(d.lines[l], i);
      }
    }
  }

  /**
   * The drawing of a metric, exactly: at most 32 lines of at least two points; every plotted row with a value in
   * exactly one line, once, or isolated, once; and neighbouring plotted rows joined exactly when both have a value and
   * nothing is missing between them, except that after 32 lines the points of a further run stay isolated.
   */
  lemma DrawingExact(t: Task)
    requires Proper(t)
    ensures var d := Draw(Runs(t));
            && |d.lines| <= 32 && (forall l :: 0 <= l < |d.lines| ==> |d.lines[l]| >= 2)
            && multiset(Concat(d.lines)) + multiset(d.isolated) == multiset(FiniteUpTo(t, |t.plot|))
            && (forall i :: 0 < i < |t.plot| ==> JoinedWhereDue(t, d, i))
            && d.lines == Long(Runs(t))[..Min(32, |Long(Runs(t))|)]
  {
    hide Draw, Runs, JoinedWhereDue, Long, Unbridged;
    DrawingSound(t);
    LinesAreFirstLong(Runs(t));
    forall i | 0 < i < |t.plot| ensures JoinedWhereDue(t, Draw(Runs(t)), i) {
      DrawingComplete(t, i);
    }
  }

  lemma StepIsLong(run: seq<nat>, i: nat)
    requires StepsInto(run, i)
    ensures |run| >= 2 && i > 0 && i - 1 in run && i in run
  {
  }

  // ---------------------------------------------------------------------------------------------
  // The chart of a selection
  // ---------------------------------------------------------------------------------------------

  /** The plotted row is on the chart, in a line or as a point. */
  ghost predicate OnChart(t: Task, k: nat)
    requires Proper(t)
  {
    var d := Draw(Runs(t));
    k < |t.plot| && (k in Concat(d.lines) || k in d.isolated)
  }

  lemma FiniteIsOnChart(t: Task, k: nat)
    requires Proper(t) && k < |t.plot| && ValueOf(t, k).Finite?
    ensures OnChart(t, k)
  {
    hide ValueOf, Proper, Runs, Draw;
    DrawingSound(t);
    OnlyFinite(t, |t.plot|, k);
    var d := Draw(Runs(t));
    assert k in multiset(FiniteUpTo(t, |t.plot|));
    assert k in multiset(Concat(d.lines)) + multiset(d.isolated);
  }

  /** A point of the chart is as low as raw row `i`. */
  ghost predicate ShownLow(t: Task, i: nat)
    requires Proper(t) && i < |t.samples| && SampleValue(t.samples[i], t.metric).Finite?
  {
    exists k :: 0 <= k < |t.plot| && OnChart(t, k) && SampleValue(t.samples[t.plot[k].sampleIndex], t.metric).Finite?
      && SampleValue(t.samples[t.plot[k].sampleIndex], t.metric).value <= SampleValue(t.samples[i], t.metric).value
  }

  ghost predicate ShownHigh(t: Task, i: nat)
    requires Proper(t) && i < |t.samples| && SampleValue(t.samples[i], t.metric).Finite?
  {
    exists k :: 0 <= k < |t.plot| && OnChart(t, k) && SampleValue(t.samples[t.plot[k].sampleIndex], t.metric).Finite?
      && SampleValue(t.samples[i], t.metric).value <= SampleValue(t.samples[t.plot[k].sampleIndex], t.metric).value
  }

  /** The task plots what the selection chose. */
  ghost predicate PlotsSelection(t: Task, index: Index, begin: int, end: int, budget: int, enabled: seq<bool>)
    requires Usable(index, t.samples) && |enabled| == METRIC_COUNT
  {
    var chosen := Select(index, t.samples, begin, end, budget, enabled);
    |t.plot| == |chosen| && forall k :: 0 <= k < |chosen| ==> t.plot[k].sampleIndex == chosen[k]
  }

  /**
   * A selection with room for a full bucket shows the whole range: for every raw row of the clamped range some point on
   * the chart is as low and some is as high, and nothing on it bridges a missing row.
   */
  lemma SelectionShowsExtremes(t: Task, begin: int, end: int, budget: int, enabled: seq<bool>, i: nat)
    requires Proper(t) && t.index.Some? && |enabled| == METRIC_COUNT
    requires enabled[t.metric] && PointsPerBucket(enabled) <= budget
    requires PlotsSelection(t, t.index.value, begin, end, budget, enabled)
    requires var b := Clamp(begin, 0, BoundedSize(t.samples));
             b <= i < Clamp(end, b, BoundedSize(t.samples)) && SampleValue(t.samples[i], t.metric).Finite?
    ensures ShownLow(t, i) && ShownHigh(t, i)
    ensures forall l :: 0 <= l < |Draw(Runs(t)).lines| ==> Unbridged(t, Draw(Runs(t)).lines[l])
  {
    hide Select, SampleValue, Runs, Draw, OnChart, Unbridged, FirstMissing, LastMissing, PointsPerBucket;
    SelectKeepsExtremes(t.index.value, t.samples, begin, end, budget, enabled, t.metric);
    DrawingSound(t);
    var chosen := Select(t.index.value, t.samples, begin, end, budget, enabled);
    var b := Clamp(begin, 0, BoundedSize(t.samples));
    var e := Clamp(end, b, BoundedSize(t.samples));
    assert AsLow(chosen, t.samples, t.metric, b, e, i) && AsHigh(chosen, t.samples, t.metric, b, e, i);
    var low :| low in chosen && b <= low < e && SampleValue(t.samples[low], t.metric).Finite?
      && SampleValue(t.samples[low], t.metric).value <= SampleValue(t.samples[i], t.metric).value;
    var high :| high in chosen && b <= high < e && SampleValue(t.samples[high], t.metric).Finite?
      && SampleValue(t.samples[i], t.metric).value <= SampleValue(t.samples[high], t.metric).value;
    var j :| 0 <= j < |chosen| && chosen[j] == low;
    var k :| 0 <= k < |chosen| && chosen[k] == high;
    FiniteIsOnChart(t, j);
    FiniteIsOnChart(t, k);
  }

  /** The program's chart, at any width and with any metrics, shows the extremes of the raw range and bridges nothing. */
  lemma ChartShowsExtremes(t: Task, begin: int, end: int, width: int, enabled: seq<bool>, i: nat)
    requires Proper(t) && t.index.Some? && |enabled| == METRIC_COUNT && enabled[t.metric]
    requires PlotsSelection(t, t.index.value, begin, end, ChartPointBudget(width), enabled)
    requires var b := Clamp(begin, 0, BoundedSize(t.samples));
             b <= i < Clamp(end, b, BoundedSize(t.samples)) && SampleValue(t.samples[i], t.metric).Finite?
    ensures ShownLow(t, i) && ShownHigh(t, i)
    ensures forall l :: 0 <= l < |Draw(Runs(t)).lines| ==> Unbridged(t, Draw(Runs(t)).lines[l])
  {
    hide PlotsSelection, ShownLow, ShownHigh, Unbridged, Draw, Runs, SampleValue, PointsPerBucket, AlwaysKeeps;
    ProgramBudgetKeeps(width, enabled);
    SelectionShowsExtremes(t, begin, end, ChartPointBudget(width), enabled, i);
  }
}
