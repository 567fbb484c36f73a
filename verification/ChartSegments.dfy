/** Cutting one metric's selected chart points into line segments that never bridge missing data. */
module ChartSegments {
  import opened Domain
  import opened ChartSummaries
  import opened ChartMissing
  import opened ChartSelection

  const MAX_LINE_SEGMENTS: nat := 32

  datatype PlotSample = PlotSample(x: real, sampleIndex: nat)

  datatype Point = Point(x: real, y: real)

  /**
   * One metric's drawing task: the plotted rows, the unit conversion of the display, and the index that answers for
   * missing values. No index at all stands for a preview of another session, for which every gap counts as missing.
   */
  datatype Task = Task(
    samples: seq<FlightSample>,
    metric: nat,
    plot: seq<PlotSample>,
    display: real -> real,
    index: Option<Index>)

  ghost predicate Proper(t: Task) {
    && t.metric < METRIC_COUNT
    && (forall k :: 0 <= k < |t.plot| ==> t.plot[k].sampleIndex < BoundedSize(t.samples))
    && (t.index.Some? ==> Usable(t.index.value, t.samples))
  }

  /** The displayed value of plotted row `k`. */
  function ValueOf(t: Task, k: nat): Reading
    requires Proper(t) && k < |t.plot|
  {
    var v := SampleValue(t.samples[t.plot[k].sampleIndex], t.metric);
    if v.NotFinite? then NotFinite else Finite(t.display(v.value))
  }

  /** Something may be missing between plotted rows `k - 1` and `k`, in raw rows, whichever comes first. */
  function GapBefore(t: Task, k: nat): bool
    requires Proper(t) && 0 < k < |t.plot|
  {
    var a, b := t.plot[k - 1].sampleIndex, t.plot[k].sampleIndex;
    t.index.None? ||
    (UsableShaped(t.index.value, t.samples);
     HasMissing(t.index.value, t.samples, t.metric, Min(a, b) + 1, Max(a, b)))
  }

  // ---------------------------------------------------------------------------------------------
  // Runs of plotted rows
  // ---------------------------------------------------------------------------------------------

  /** Positions of the plot in finished runs, and in the run that is being collected. */
  datatype Walk = Walk(closed: seq<seq<nat>>, open: seq<nat>)

  function Close(w: Walk): Walk {
    if w.open == [] then w else Walk(w.closed + [w.open], [])
  }

  function WalkUpTo(t: Task, k: nat): Walk
    requires Proper(t) && k <= |t.plot|
  {
    if k == 0 then Walk([], [])
    else
      var w, i := WalkUpTo(t, k - 1), k - 1;
      if ValueOf(t, i).NotFinite? then Close(w)
      else
        var cut := if i > 0 && ValueOf(t, i - 1).Finite? && GapBefore(t, i) then Close(w) else w;
        cut.(open := cut.open + [i])
  }

  function Runs(t: Task): seq<seq<nat>>
    requires Proper(t)
  {
    Close(WalkUpTo(t, |t.plot|)).closed
  }

  /** Long enough runs become lines, up to the limit; the rest are isolated points. */
  datatype Drawing = Drawing(lines: seq<seq<nat>>, isolated: seq<nat>)

  function Draw(runs: seq<seq<nat>>): (d: Drawing)
    ensures |d.lines| <= MAX_LINE_SEGMENTS
    ensures forall i :: 0 <= i < |d.lines| ==> d.lines[i] in runs
  {
    if runs == [] then Drawing([], [])
    else
      var before, last := Draw(runs[..|runs| - 1]), runs[|runs| - 1];
      if |last| == 1 || |before.lines| >= MAX_LINE_SEGMENTS then before.(isolated := before.isolated + last)
      else before.(lines := before.lines + [last])
  }

  function Concat(s: seq<seq<nat>>): seq<nat> {
    if s == [] then [] else Concat(s[..|s| - 1]) + s[|s| - 1]
  }

  /** The plotted rows that have a value. */
  function FiniteUpTo(t: Task, k: nat): seq<nat>
    requires Proper(t) && k <= |t.plot|
  {
    if k == 0 then []
    else FiniteUpTo(t, k - 1) + (if ValueOf(t, k - 1).Finite? then [k - 1] else [])
  }

  lemma ConcatSnoc(s: seq<seq<nat>>, last: seq<nat>)
    ensures Concat(s + [last]) == Concat(s) + last
  {
    assert (s + [last])[..|s|] == s;
  }

  /** All rows of a walk, in order. */
  function Content(w: Walk): seq<nat> {
    Concat(w.closed) + w.open
  }

  lemma CloseKeepsContent(w: Walk)
    ensures Content(Close(w)) == Content(w) && Close(w).open == []
    ensures Content(Close(w)) == Concat(Close(w).closed)
  {
    ConcatSnoc(w.closed, w.open);
    assert Concat(Close(w).closed) + [] == Concat(Close(w).closed);
  }

  lemma PushKeepsContent(w: Walk, i: nat)
    ensures Content(w.(open := w.open + [i])) == Content(w) + [i]
  {
    assert Concat(w.closed) + (w.open + [i]) == Concat(w.closed) + w.open + [i];
  }

  /** Nothing is lost and nothing is drawn twice: the runs, one after the other, are the rows with a value. */
  lemma {:induction false} RunsPartition(t: Task, k: nat)
    requires Proper(t) && k <= |t.plot|
    ensures Content(WalkUpTo(t, k)) == FiniteUpTo(t, k)
    decreases k
  {
    hide ValueOf, GapBefore, Close, Proper, Content;
    if k > 0 {
      RunsPartition(t, k - 1);
      var w := WalkUpTo(t, k - 1);
      CloseKeepsContent(w);
      PushKeepsContent(w, k - 1);
      PushKeepsContent(Close(w), k - 1);
      assert FiniteUpTo(t, k - 1) + [] == FiniteUpTo(t, k - 1);
    } else {
      NoContent();
    }
  }

  lemma NoContent()
    ensures Content(Walk([], [])) == []
  {
  }

  /** A run steps from plotted row to plotted row, over gaps with nothing missing. */
  ghost predicate Solid(t: Task, run: seq<nat>)
    requires Proper(t)
  {
    && run != [] && run[|run| - 1] < |t.plot|
    && forall i :: 0 <= i < |run| - 1 ==> Steps(t, run[i], run[i + 1])
  }

  ghost predicate Steps(t: Task, a: nat, b: nat)
    requires Proper(t)
  {
    b == a + 1 < |t.plot| && !GapBefore(t, b)
  }

  lemma {:induction false} RunsSolid(t: Task, k: nat)
    requires Proper(t) && k <= |t.plot|
    ensures var w := WalkUpTo(t, k);
            && (forall i :: 0 <= i < |w.closed| ==> Solid(t, w.closed[i]))
            && (w.open != [] ==> Solid(t, w.open) && w.open[|w.open| - 1] == k - 1)
            && (w.open == [] <==> k == 0 || ValueOf(t, k - 1).NotFinite?)
    decreases k
  {
    hide ValueOf, GapBefore, Proper, Solid, Close;
    if k > 0 {
      RunsSolid(t, k - 1);
      var w, i := WalkUpTo(t, k - 1), k - 1;
      CloseSolid(t, w);
      SolidAlone(t, i);
      if w.open != [] && !GapBefore(t, i) {
        SolidSnoc(t, w.open, i);
      }
    }
  }

  lemma CloseSolid(t: Task, w: Walk)
    requires Proper(t) && forall i :: 0 <= i < |w.closed| ==> Solid(t, w.closed[i])
    requires w.open != [] ==> Solid(t, w.open)
    ensures Close(w).open == [] && forall i :: 0 <= i < |Close(w).closed| ==> Solid(t, Close(w).closed[i])
  {
    hide Solid, Proper;
  }

  lemma SolidAlone(t: Task, i: nat)
    requires Proper(t) && i < |t.plot|
    ensures Solid(t, [i]) && [] + [i] == [i]
  {
  }

  lemma SolidSnoc(t: Task, run: seq<nat>, i: nat)
    requires Proper(t) && 0 < i < |t.plot| && Solid(t, run) && run[|run| - 1] == i - 1 && !GapBefore(t, i)
    ensures Solid(t, run + [i])
  {
    hide GapBefore, Proper;
    var r := run + [i];
    forall k | 0 <= k < |r| - 1 ensures Steps(t, r[k], r[k + 1]) {
      if k < |run| - 1 {
        assert Steps(t, run[k], run[k + 1]);
      }
    }
  }

  /** Nothing is missing in the raw rows strictly between two neighbouring plotted rows. */
  ghost predicate NothingMissing(t: Task, j: nat, k: nat)
    requires Proper(t)
  {
    && k == j + 1 < |t.plot|
    && var a, b := t.plot[j].sampleIndex, t.plot[k].sampleIndex;
       forall i :: Min(a, b) < i < Max(a, b) ==> SampleValue(t.samples[i], t.metric).Finite?
  }

  /** The gap test is exact: with an index, it sees a gap exactly when some raw row in between is missing. */
  lemma GapExact(t: Task, k: nat)
    requires Proper(t) && 0 < k < |t.plot|
    ensures GapBefore(t, k) <==> t.index.None? || !NothingMissing(t, k - 1, k)
  {
    hide HasMissing, SampleValue;
    var a, b := t.plot[k - 1].sampleIndex, t.plot[k].sampleIndex;
    if t.index.Some? {
      UsableShaped(t.index.value, t.samples);
      HasMissingExact(t.index.value, t.samples, t.metric, Min(a, b) + 1, Max(a, b));
    }
  }

  lemma {:induction false} DrawPartition(runs: seq<seq<nat>>)
    ensures multiset(Concat(Draw(runs).lines)) + multiset(Draw(runs).isolated) == multiset(Concat(runs))
    decreases |runs|
  {
    if runs != [] {
      DrawPartition(runs[..|runs| - 1]);
      var before := Draw(runs[..|runs| - 1]);
      ConcatSnoc(before.lines, runs[|runs| - 1]);
    }
  }

  lemma {:induction false} LinesAreLong(runs: seq<seq<nat>>)
    requires forall i :: 0 <= i < |runs| ==> runs[i] != []
    ensures forall i :: 0 <= i < |Draw(runs).lines| ==> |Draw(runs).lines[i]| >= 2
    decreases |runs|
  {
    if runs != [] {
      LinesAreLong(runs[..|runs| - 1]);
    }
  }

  /**
   * The drawing of a metric: at most 32 lines of at least two points each; every plotted row with a value is in
   * exactly one line, once, or isolated, once; and a line joins only neighbouring plotted rows between which no raw
   * row of the metric is missing.
   */
  lemma DrawingSound(t: Task)
    requires Proper(t)
    ensures var d := Draw(Runs(t));
            && |d.lines| <= MAX_LINE_SEGMENTS
            && multiset(Concat(d.lines)) + multiset(d.isolated) == multiset(FiniteUpTo(t, |t.plot|))
            && (forall i :: 0 <= i < |d.lines| ==> |d.lines[i]| >= 2 && Unbridged(t, d.lines[i]))
  {
    hide ValueOf, GapBefore, Proper, WalkUpTo, Unbridged, Solid;
    var w, n, runs := WalkUpTo(t, |t.plot|), |t.plot|, Runs(t);
    RunsPartition(t, n);
    CloseKeepsContent(w);
    RunsSolid(t, n);
    forall i | 0 <= i < |runs| ensures Solid(t, runs[i]) && runs[i] != [] && Unbridged(t, runs[i]) {
      SolidUnbridged(t, runs[i]);
    }
    DrawPartition(runs);
    LinesAreLong(runs);
  }

  /** Neighbouring points of a line are neighbouring plotted rows with nothing missing between them. */
  ghost predicate Unbridged(t: Task, line: seq<nat>)
    requires Proper(t)
  {
    forall i :: 0 <= i < |line| - 1 ==> NothingMissing(t, line[i], line[i + 1])
  }

  lemma SolidUnbridged(t: Task, run: seq<nat>)
    requires Proper(t) && Solid(t, run)
    ensures run != [] && Unbridged(t, run)
  {
    hide GapBefore, Proper, SampleValue;
    forall i | 0 <= i < |run| - 1 ensures NothingMissing(t, run[i], run[i + 1]) {
      assert Steps(t, run[i], run[i + 1]);
      GapExact(t, run[i + 1]);
    }
  }

  // ---------------------------------------------------------------------------------------------
  // The loop
  // ---------------------------------------------------------------------------------------------

  /** `points` are the points of the rows `run`. */
  ghost predicate Shows(t: Task, points: seq<Point>, run: seq<nat>)
    requires Proper(t)
  {
    && |points| == |run|
    && forall i :: 0 <= i < |run| ==>
         run[i] < |t.plot| && ValueOf(t, run[i]).Finite? && points[i] == Point(t.plot[run[i]].x, ValueOf(t, run[i]).value)
  }

  ghost predicate ShowsAll(t: Task, lines: seq<seq<Point>>, runs: seq<seq<nat>>)
    requires Proper(t)
  {
    |lines| == |runs| && forall i :: 0 <= i < |runs| ==> Shows(t, lines[i], runs[i])
  }

  /** The points that are shown are the displayed readings of their rows. */
  lemma ShowsReadings(t: Task, points: seq<Point>, run: seq<nat>, i: nat)
    requires Proper(t) && Shows(t, points, run) && i < |run|
    ensures |points| == |run| && run[i] < |t.plot|
    ensures var p := t.plot[run[i]];
            var reading := SampleValue(t.samples[p.sampleIndex], t.metric);
            reading.Finite? && points[i] == Point(p.x, t.display(reading.value))
  {
    hide SampleValue;
  }

  lemma DrawSnoc(runs: seq<seq<nat>>, last: seq<nat>)
    ensures var d := Draw(runs);
            Draw(runs + [last]) ==
              if |last| == 1 || |d.lines| >= MAX_LINE_SEGMENTS then d.(isolated := d.isolated + last)
              else d.(lines := d.lines + [last])
  {
    assert (runs + [last])[..|runs|] == runs;
  }

  /** Finish the collected points: a line if there are at least two and lines are left, isolated points otherwise. */
  method FlushSegment(t: Task, pts: seq<Point>, lines: seq<seq<Point>>, isolated: seq<Point>, ghost w: Walk)
    returns (lines': seq<seq<Point>>, isolated': seq<Point>)
    requires Proper(t) && Shows(t, pts, w.open)
    requires ShowsAll(t, lines, Draw(w.closed).lines) && Shows(t, isolated, Draw(w.closed).isolated)
    ensures ShowsAll(t, lines', Draw(Close(w).closed).lines) && Shows(t, isolated', Draw(Close(w).closed).isolated)
  {
    hide ValueOf, Proper, Draw;
    lines', isolated' := lines, isolated;
    if pts == [] {
      return;
    }
    DrawSnoc(w.closed, w.open);
    if |pts| == 1 || |lines| >= MAX_LINE_SEGMENTS {
      isolated' := isolated + pts;
    } else {
      lines' := lines + [pts];
    }
  }

  /** Collect the points of one metric row by row, flushing at every gap. */
  method BuildSegments(t: Task) returns (lines: seq<seq<Point>>, isolated: seq<Point>)
    requires Proper(t)
    ensures ShowsAll(t, lines, Draw(Runs(t)).lines) && Shows(t, isolated, Draw(Runs(t)).isolated)
  {
    hide ValueOf, GapBefore, Proper, Shows, ShowsAll, Draw, Close;
    var hasFiniteRange := HasFiniteRange(t);
    var pts: seq<Point>, previousIndex: int := [], -1;
    lines, isolated := [], [];
    NothingShown(t);
    for k := 0 to |t.plot|
      invariant Shows(t, pts, WalkUpTo(t, k).open)
      invariant ShowsAll(t, lines, Draw(WalkUpTo(t, k).closed).lines)
      invariant Shows(t, isolated, Draw(WalkUpTo(t, k).closed).isolated)
      invariant previousIndex == if k > 0 && ValueOf(t, k - 1).Finite? then t.plot[k - 1].sampleIndex else -1
    {
      ghost var w := WalkUpTo(t, k);
      var y := ValueOf(t, k);
      if y.NotFinite? || !hasFiniteRange {
        lines, isolated := FlushSegment(t, pts, lines, isolated, w);
        ClosedIsEmpty(t, w);
        pts, previousIndex := [], -1;
        continue;
      }
      if previousIndex >= 0 {
        var missing := GapBefore(t, k);
        if missing {
          lines, isolated := FlushSegment(t, pts, lines, isolated, w);
          ClosedIsEmpty(t, w);
          pts := [];
          w := Close(w);
        }
      }
      ShowsSnoc(t, pts, w.open, k);
      pts := pts + [Point(t.plot[k].x, y.value)];
      previousIndex := t.plot[k].sampleIndex;
    }
    lines, isolated := FlushSegment(t, pts, lines, isolated, WalkUpTo(t, |t.plot|));
  }

  /** The value range of the plot is finite as soon as one value is. */
  method HasFiniteRange(t: Task) returns (r: bool)
    requires Proper(t)
    ensures r <==> exists k :: 0 <= k < |t.plot| && ValueOf(t, k).Finite?
  {
    hide ValueOf, Proper;
    var lo: Option<real>, hi: Option<real> := None, None;
    for k := 0 to |t.plot|
      invariant lo.Some? <==> hi.Some?
      invariant lo.Some? <==> exists j :: 0 <= j < k && ValueOf(t, j).Finite?
    {
      var y := ValueOf(t, k);
      if y.Finite? {
        assert ValueOf(t, k).Finite?;
        lo := Some(if lo.Some? && lo.value < y.value then lo.value else y.value);
        hi := Some(if hi.Some? && y.value < hi.value then hi.value else y.value);
      }
    }
    r := lo.Some? && hi.Some?;
  }

  lemma NothingShown(t: Task)
    requires Proper(t)
    ensures Shows(t, [], []) && ShowsAll(t, [], Draw([]).lines) && Shows(t, [], Draw([]).isolated)
  {
  }

  lemma ClosedIsEmpty(t: Task, w: Walk)
    requires Proper(t)
    ensures Close(w).open == [] && Shows(t, [], Close(w).open)
  {
  }

  lemma ShowsSnoc(t: Task, pts: seq<Point>, run: seq<nat>, k: nat)
    requires Proper(t) && Shows(t, pts, run) && k < |t.plot| && ValueOf(t, k).Finite?
    ensures Shows(t, pts + [Point(t.plot[k].x, ValueOf(t, k).value)], run + [k])
  {
    hide ValueOf, Proper;
  }
}
