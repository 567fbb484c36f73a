/**
 * From which budget on the selection keeps the extremes of every enabled metric: two points and six per metric are
 * enough on all samples, and with one point less there are samples whose maximum is lost.
 */
module ChartBudget {
  import opened Domain
  import opened ChartSummaries
  import opened ChartQuery
  import opened ChartSelection
  import opened EvenSpread

  // ---------------------------------------------------------------------------------------------
  // Rows that need every point of a full bucket
  // ---------------------------------------------------------------------------------------------

  /** How many of the first flags are set. */
  function EnabledBelow(enabled: seq<bool>, metric: nat): nat
    requires metric <= |enabled|
  {
    if metric == 0 then 0 else EnabledBelow(enabled, metric - 1) + (if enabled[metric - 1] then 1 else 0)
  }

  lemma {:induction false} EnabledSplits(enabled: seq<bool>, metric: nat)
    requires metric <= |enabled|
    ensures EnabledBelow(enabled, metric) + EnabledFrom(enabled, metric) == EnabledFrom(enabled, 0)
    decreases metric
  {
    if metric > 0 {
      EnabledSplits(enabled, metric - 1);
    }
  }

  /** The rows before those that belong to a metric. */
  function Base(enabled: seq<bool>, metric: nat): nat
    requires metric <= |enabled|
  {
    6 * EnabledBelow(enabled, metric)
  }

  /** The six rows of an enabled metric are level, gap, gap, level, minimum and maximum; elsewhere it is level. */
  function ValueAt(enabled: seq<bool>, metric: nat, i: nat): Reading
    requires metric < |enabled|
  {
    var k := i - Base(enabled, metric);
    if enabled[metric] && (k == 2 || k == 3) then NotFinite
    else if enabled[metric] && k == 5 then Finite(1.0)
    else if enabled[metric] && k == 6 then Finite(9.0)
    else Finite(5.0)
  }

  function RowAt(enabled: seq<bool>, i: nat): FlightSample
    requires |enabled| == METRIC_COUNT
  {
    FlightSample(0, ValueAt(enabled, 5, i), ValueAt(enabled, 6, i), ValueAt(enabled, 3, i),
                 Coordinates(ValueAt(enabled, 7, i), ValueAt(enabled, 8, i)), ValueAt(enabled, 0, i),
                 ValueAt(enabled, 2, i), ValueAt(enabled, 1, i), ValueAt(enabled, 4, i))
  }

  function Demanding(enabled: seq<bool>): (r: seq<FlightSample>)
    requires |enabled| == METRIC_COUNT
    ensures |r| == PointsPerBucket(enabled)
  {
    seq(PointsPerBucket(enabled), i requires 0 <= i => RowAt(enabled, i))
  }

  lemma {:induction false} FewFlags(enabled: seq<bool>, metric: nat)
    requires metric <= |enabled|
    ensures EnabledFrom(enabled, metric) <= |enabled| - metric
    decreases |enabled| - metric
  {
    if metric < |enabled| {
      FewFlags(enabled, metric + 1);
    }
  }

  /** Nine flags make at most 56 points per bucket. */
  lemma FullBucketIsSmall(enabled: seq<bool>)
    requires |enabled| == METRIC_COUNT
    ensures PointsPerBucket(enabled) <= 56 && BoundedSize(Demanding(enabled)) == PointsPerBucket(enabled)
  {
    FewFlags(enabled, 0);
  }

  lemma DemandingValue(enabled: seq<bool>, metric: nat, i: nat)
    requires |enabled| == METRIC_COUNT && metric < METRIC_COUNT && i < PointsPerBucket(enabled)
    ensures SampleValue(Demanding(enabled)[i], metric) == ValueAt(enabled, metric, i)
  {
    hide ValueAt, PointsPerBucket;
  }

  // ---------------------------------------------------------------------------------------------
  // Every row is a candidate
  // ---------------------------------------------------------------------------------------------

  /** The range summary of an enabled metric names its own rows. */
  lemma DemandingSummary(enabled: seq<bool>, metric: nat)
    requires |enabled| == METRIC_COUNT && metric < METRIC_COUNT && enabled[metric]
    ensures CanQuery(UNBUILT, Demanding(enabled), PointsPerBucket(enabled))
    ensures var base := Base(enabled, metric);
            && base + 8 <= PointsPerBucket(enabled)
            && Query(UNBUILT, Demanding(enabled), metric, 0, PointsPerBucket(enabled))
               == Summary(base + 5, base + 6, base + 2, base + 3)
  {
    hide Query, SampleValue, Demanding, IsSummary;
    var rows, n, base := Demanding(enabled), PointsPerBucket(enabled), Base(enabled, metric);
    EnabledSplits(enabled, metric);
    FullBucketIsSmall(enabled);
    QuerySound(UNBUILT, rows, metric, 0, n);
    forall i | 0 <= i < n ensures SampleValue(rows[i], metric) == ValueAt(enabled, metric, i) {
      DemandingValue(enabled, metric, i);
    }
    SummaryIs(Query(UNBUILT, rows, metric, 0, n), rows, metric, n, base);
  }

  /** A summary is known by the values of the rows. */
  lemma SummaryIs(s: Summary, rows: seq<FlightSample>, metric: nat, n: nat, base: nat)
    requires n <= |rows| && base + 8 <= n && Within(s, |rows|) && IsSummary(s, rows, metric, Rows(0, n))
    requires forall i :: 0 <= i < n ==>
               SampleValue(rows[i], metric) == if i == base + 2 || i == base + 3 then NotFinite
                                               else if i == base + 5 then Finite(1.0)
                                               else if i == base + 6 then Finite(9.0) else Finite(5.0)
    ensures s == Summary(base + 5, base + 6, base + 2, base + 3)
  {
    hide SampleValue;
    var ids := Rows(0, n);
    assert base + 2 in ids && base + 3 in ids && base + 5 in ids && base + 6 in ids;
  }

  /** All rows of the enabled metrics from `metric` on are candidates. */
  lemma {:induction false} PointsCover(enabled: seq<bool>, metric: nat, v: nat)
    requires |enabled| == METRIC_COUNT && metric <= METRIC_COUNT
    requires CanQuery(UNBUILT, Demanding(enabled), PointsPerBucket(enabled))
    requires Base(enabled, metric) < v < PointsPerBucket(enabled) - 1
    ensures v in MetricPoints(UNBUILT, Demanding(enabled), enabled, metric, 0, PointsPerBucket(enabled))
    decreases METRIC_COUNT - metric
  {
    hide Query, MetricPoints, Demanding, CanQuery;
    var rows, n, base := Demanding(enabled), PointsPerBucket(enabled), Base(enabled, metric);
    EnabledSplits(enabled, metric);
    if metric < METRIC_COUNT {
      MetricPointsUnfold(UNBUILT, rows, enabled, metric, 0, n);
      if enabled[metric] {
        DemandingSummary(enabled, metric);
        if v <= base + 6 {
          SixPoints(base, n, v);
        } else {
          PointsCover(enabled, metric + 1, v);
        }
      } else {
        PointsCover(enabled, metric + 1, v);
      }
    }
  }

  lemma SixPoints(base: nat, n: nat, v: nat)
    requires base < v <= base + 6 && base + 8 <= n
    ensures v in SummaryPoints(Summary(base + 5, base + 6, base + 2, base + 3), 0, n)
  {
    var r := SummaryPoints(Summary(base + 5, base + 6, base + 2, base + 3), 0, n);
    assert r == [base + 5, base + 6, base + 1, base + 2, base + 3, base + 4];
    assert r[0] == base + 5 && r[1] == base + 6 && r[2] == base + 1 && r[3] == base + 2 && r[4] == base + 3 && r[5] == base + 4;
  }

  /** A strictly increasing sequence with just the elements `from..to` is that interval. */
  lemma {:induction false} IntervalIs(s: seq<int>, from: int, to: int)
    requires StrictlyIncreasing(s) && from <= to && forall v :: v in s <==> from <= v < to
    ensures |s| == to - from && forall k :: 0 <= k < |s| ==> s[k] == from + k
    decreases |s|
  {
    assert s != [] ==> s[0] in s;
    if from < to {
      assert from in s;
      var rest := s[1..];
      forall v ensures v in rest <==> from + 1 <= v < to {
        assert v in s <==> v == s[0] || v in rest;
        assert forall k :: 0 <= k < |rest| ==> s[0] < rest[k];
      }
      IntervalIs(rest, from + 1, to);
    }
  }

  /** With a single bucket the candidates are all rows. */
  lemma CandidatesAreAll(enabled: seq<bool>)
    requires |enabled| == METRIC_COUNT && EnabledFrom(enabled, 0) > 0
    ensures var n := PointsPerBucket(enabled);
            && CanQuery(UNBUILT, Demanding(enabled), n)
            && var all := SortUnique(Candidates(UNBUILT, Demanding(enabled), enabled, 0, n, 1, 1));
               |all| == n && forall k :: 0 <= k < n ==> all[k] == k
  {
    hide MetricPoints, Demanding, SortUnique, Base, Share;
    var rows, n := Demanding(enabled), PointsPerBucket(enabled);
    FullBucketIsSmall(enabled);
    ShareEnds(n, 1);
    CandidatesShape(UNBUILT, rows, enabled, 0, n, 1, 1);
    var c := Candidates(UNBUILT, rows, enabled, 0, n, 1, 1);
    OneBucket(rows, enabled, n);
    NothingBelow(enabled);
    forall v | 0 <= v < n ensures v in c {
      if 0 < v < n - 1 {
        PointsCover(enabled, 0, v);
      }
    }
    IntervalIs(SortUnique(c), 0, n);
  }

  lemma NothingBelow(enabled: seq<bool>)
    ensures Base(enabled, 0) == 0
  {
  }

  lemma OneBucket(rows: seq<FlightSample>, enabled: seq<bool>, n: nat)
    requires CanQuery(UNBUILT, rows, n) && |enabled| == METRIC_COUNT && n > 0
    ensures var c := Candidates(UNBUILT, rows, enabled, 0, n, 1, 1);
            0 in c && n - 1 in c && forall v :: v in MetricPoints(UNBUILT, rows, enabled, 0, 0, n) ==> v in c
  {
    hide MetricPoints, Share;
    ShareEnds(n, 1);
    assert Candidates(UNBUILT, rows, enabled, 0, n, 1, 0) == [];
    var points := MetricPoints(UNBUILT, rows, enabled, 0, 0, n);
    var c := Candidates(UNBUILT, rows, enabled, 0, n, 1, 1);
    assert c == [] + ([0, n - 1] + points);
    assert c[0] == 0 && c[1] == n - 1;
  }

  // ---------------------------------------------------------------------------------------------
  // The last maximum is dropped
  // ---------------------------------------------------------------------------------------------

  /** Spreading fewer points over more candidates never hits the last but one. */
  lemma LastButOneSkipped(i: nat, n: nat, budget: nat)
    requires 2 <= budget < n && i < budget
    ensures Share(i, n - 1, budget - 1) != n - 2
  {
    hide Share;
    var parts := budget - 1;
    ShareEnds(n - 1, parts);
    if i < parts {
      BeforeLast(i, n - 1, parts);
    }
  }

  lemma BeforeLast(i: nat, total: nat, parts: nat)
    requires i < parts < total
    ensures Share(i, total, parts) < total - 1
  {
    assert i * total <= (parts - 1) * total by { MulLeq(i, parts - 1, total); }
    assert (parts - 1) * total == parts * total - total;
    assert (total - 1) * parts == total * parts - parts;
    var q := i * total / parts;
    if q >= total - 1 {
      MulLeq(total - 1, q, parts);
    }
  }

  /** Below a full bucket the demanding rows lose the last but one of them. */
  lemma SmallBudgetDrops(enabled: seq<bool>, budget: int)
    requires |enabled| == METRIC_COUNT && EnabledFrom(enabled, 0) > 0 && budget < PointsPerBucket(enabled)
    ensures var n := PointsPerBucket(enabled);
            n - 2 !in Select(UNBUILT, Demanding(enabled), 0, n, budget, enabled)
  {
    hide Demanding, Candidates, SortUnique, Share, PointsPerBucket;
    var rows, n := Demanding(enabled), PointsPerBucket(enabled);
    FullBucketIsSmall(enabled);
    EightAtLeast(enabled);
    if budget >= 2 {
      CandidatesAreAll(enabled);
      SingleBucket(enabled, budget);
      var all := SortUnique(Candidates(UNBUILT, rows, enabled, 0, n, 1, 1));
      var r := Reduced(all, budget);
      forall i | 0 <= i < budget ensures r[i] != n - 2 {
        ReducedPosition(i, n, budget);
        LastButOneSkipped(i, n, budget);
      }
    }
  }

  lemma EightAtLeast(enabled: seq<bool>)
    requires EnabledFrom(enabled, 0) > 0
    ensures PointsPerBucket(enabled) >= 8
  {
  }

  lemma SingleBucket(enabled: seq<bool>, budget: nat)
    requires budget < PointsPerBucket(enabled)
    ensures BucketCount(budget, enabled) == 1
  {
  }

  /** The last enabled metric. */
  lemma {:induction false} LastEnabled(enabled: seq<bool>, from: nat) returns (metric: nat)
    requires from <= |enabled| && EnabledFrom(enabled, from) > 0
    ensures from <= metric < |enabled| && enabled[metric] && EnabledFrom(enabled, metric + 1) == 0
    decreases |enabled| - from
  {
    if EnabledFrom(enabled, from + 1) > 0 {
      metric := LastEnabled(enabled, from + 1);
    } else {
      metric := from;
    }
  }

  /** The dropped row is the only maximum of the last enabled metric. */
  lemma SmallBudgetLosesMaximum(enabled: seq<bool>, budget: int) returns (metric: nat)
    requires |enabled| == METRIC_COUNT && EnabledFrom(enabled, 0) > 0 && budget < PointsPerBucket(enabled)
    ensures metric < METRIC_COUNT && enabled[metric]
    ensures var rows, n := Demanding(enabled), PointsPerBucket(enabled);
            && n - 2 < |rows| && SampleValue(rows[n - 2], metric).Finite?
            && !AsHigh(Select(UNBUILT, rows, 0, n, budget, enabled), rows, metric, 0, n, n - 2)
  {
    hide Demanding, Select, SampleValue, EnabledBelow, EnabledFrom;
    var rows, n := Demanding(enabled), PointsPerBucket(enabled);
    metric := LastEnabled(enabled, 0);
    EnabledSplits(enabled, metric + 1);
    EnabledStep(enabled, metric);
    SmallBudgetDrops(enabled, budget);
    forall i | 0 <= i < n ensures SampleValue(rows[i], metric) == ValueAt(enabled, metric, i) {
      DemandingValue(enabled, metric, i);
    }
  }

  lemma EnabledStep(enabled: seq<bool>, metric: nat)
    requires metric < |enabled| && enabled[metric]
    ensures EnabledBelow(enabled, metric + 1) == EnabledBelow(enabled, metric) + 1
  {
  }

  // ---------------------------------------------------------------------------------------------
  // The exact budget
  // ---------------------------------------------------------------------------------------------

  /** An original minimum and maximum of the rows are selected. */
  ghost predicate KeepsExtremes(r: seq<int>, samples: seq<FlightSample>, metric: int, first: int, last: int) {
    forall i :: 0 <= first <= i < last <= |samples| && SampleValue(samples[i], metric).Finite? ==>
      AsLow(r, samples, metric, first, last, i) && AsHigh(r, samples, metric, first, last, i)
  }

  /** One call of the selection keeps the extremes of a metric. */
  ghost predicate CallKeeps(index: Index, samples: seq<FlightSample>, begin: int, end: int, budget: int, enabled: seq<bool>, metric: int)
    requires Usable(index, samples) && |enabled| == METRIC_COUNT
  {
    var b := Clamp(begin, 0, BoundedSize(samples));
    KeepsExtremes(Select(index, samples, begin, end, budget, enabled), samples, metric, b, Clamp(end, b, BoundedSize(samples)))
  }

  /** Every call with this budget and these flags keeps the extremes of every enabled metric. */
  ghost predicate AlwaysKeeps(budget: int, enabled: seq<bool>)
    requires |enabled| == METRIC_COUNT
  {
    forall index: Index, samples: seq<FlightSample>, begin: int, end: int, metric: nat ::
      Usable(index, samples) && metric < METRIC_COUNT && enabled[metric] ==>
        CallKeeps(index, samples, begin, end, budget, enabled, metric)
  }

  lemma FullBucketKeeps(index: Index, samples: seq<FlightSample>, begin: int, end: int, budget: int, enabled: seq<bool>, metric: nat)
    requires Usable(index, samples) && |enabled| == METRIC_COUNT && metric < METRIC_COUNT && enabled[metric]
    requires PointsPerBucket(enabled) <= budget
    ensures CallKeeps(index, samples, begin, end, budget, enabled, metric)
  {
    hide Select, AsLow, AsHigh, SampleValue, PointsPerBucket, FirstMissing, LastMissing, Usable;
    SelectKeepsExtremes(index, samples, begin, end, budget, enabled, metric);
  }

  lemma SmallBudgetFails(budget: int, enabled: seq<bool>)
    requires |enabled| == METRIC_COUNT && EnabledFrom(enabled, 0) > 0 && budget < PointsPerBucket(enabled)
    ensures !AlwaysKeeps(budget, enabled)
  {
    hide Select, AsLow, AsHigh, SampleValue, Demanding, PointsPerBucket, EnabledFrom;
    var metric := SmallBudgetLosesMaximum(enabled, budget);
    FullBucketIsSmall(enabled);
    EightAtLeast(enabled);
    assert !CallKeeps(UNBUILT, Demanding(enabled), 0, PointsPerBucket(enabled), budget, enabled, metric);
  }

  /**
   * The budget is exact: the extremes of every enabled metric survive on all samples and ranges exactly when no metric
   * is enabled or the budget holds one full bucket.
   */
  lemma BudgetExact(budget: int, enabled: seq<bool>)
    requires |enabled| == METRIC_COUNT
    ensures AlwaysKeeps(budget, enabled) <==> EnabledFrom(enabled, 0) == 0 || PointsPerBucket(enabled) <= budget
  {
    hide CallKeeps, EnabledFrom, PointsPerBucket;
    if EnabledFrom(enabled, 0) == 0 {
      NoneEnabled(enabled, 0);
    } else if PointsPerBucket(enabled) <= budget {
      forall index: Index, samples: seq<FlightSample>, begin: int, end: int, metric: nat |
        Usable(index, samples) && metric < METRIC_COUNT && enabled[metric]
        ensures CallKeeps(index, samples, begin, end, budget, enabled, metric)
      {
        FullBucketKeeps(index, samples, begin, end, budget, enabled, metric);
      }
    } else {
      SmallBudgetFails(budget, enabled);
    }
  }

  lemma {:induction false} NoneEnabled(enabled: seq<bool>, from: nat)
    requires from <= |enabled| && EnabledFrom(enabled, from) == 0
    ensures forall k :: from <= k < |enabled| ==> !enabled[k]
    decreases |enabled| - from
  {
    if from < |enabled| {
      NoneEnabled(enabled, from + 1);
    }
  }

  // ---------------------------------------------------------------------------------------------
  // The program's budget
  // ---------------------------------------------------------------------------------------------

  const MAX_CHART_POINTS: int := 6000

  /** The point budget of a chart view. */
  function ChartPointBudget(width: int): int {
    Min(MAX_CHART_POINTS, Max(1000, width * 2))
  }

  /** The program's charts never come near the limit, at any width and with any metrics. */
  lemma ProgramBudgetKeeps(width: int, enabled: seq<bool>)
    requires |enabled| == METRIC_COUNT
    ensures PointsPerBucket(enabled) <= ChartPointBudget(width) && AlwaysKeeps(ChartPointBudget(width), enabled)
    ensures ChartPointBudget(width) == Clamp(2 * width, 1000, 6000)
  {
    hide AlwaysKeeps, PointsPerBucket, EnabledFrom;
    FullBucketIsSmall(enabled);
    BudgetExact(ChartPointBudget(width), enabled);
  }
}
