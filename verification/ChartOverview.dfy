/** The chart overview as the program keeps it: nodes filled in place, queries that move their borders step by step. */
module ChartOverview {
  import opened Domain
  import opened ChartSummaries
  import opened ChartQuery
  import opened ChartMissing
  import opened ChartSelection
  import opened EvenSpread

  class Overview {
    var leafCount: nat
    var nodes: seq<seq<Summary>>

    function View(): Index
      reads this
    {
      Index(leafCount, nodes)
    }

    constructor ()
      ensures View() == UNBUILT
    {
      leafCount, nodes := 0, [];
    }

    /** Fill the leaves row by row, then the inner nodes from the last one up to the root. */
    method Build(samples: seq<FlightSample>)
      modifies this
      ensures Built(View(), samples)
    {
      hide IsSummary, Within, IncludeRow, MergeRow, NodesHold;
      var count := BoundedSize(samples);
      leafCount := 1;
      var blocks := count / BLOCK_SIZE + (if count % BLOCK_SIZE != 0 then 1 else 0);
      while leafCount < blocks
        invariant PowerOfTwo(leafCount)
      {
        leafCount := leafCount * 2;
      }
      ResetNodes(samples);
      for i := 0 to count
        invariant PowerOfTwo(leafCount) && count <= leafCount * BLOCK_SIZE
        invariant Shaped(View(), |samples|) && NodesHold(View(), samples, leafCount, i)
      {
        var k := leafCount + i / BLOCK_SIZE;
        ghost var before := View();
        IncludeAt(samples, k, i);
        LeafStep(before, View(), samples, i);
      }
      var node := leafCount - 1;
      while node > 0
        invariant 0 <= node < leafCount
        invariant PowerOfTwo(leafCount) && count <= leafCount * BLOCK_SIZE
        invariant Shaped(View(), |samples|) && NodesHold(View(), samples, node + 1, count)
      {
        ghost var before := View();
        MergeAt(samples, node);
        InnerStep(before, View(), samples, node, count);
        node := node - 1;
      }
    }

    method ResetNodes(samples: seq<FlightSample>)
      requires leafCount > 0
      modifies this`nodes
      ensures Shaped(View(), |samples|) && NodesHold(View(), samples, leafCount, 0)
    {
      nodes := seq(2 * leafCount, _ => seq(METRIC_COUNT, _ => EMPTY));
      NothingHeld(View(), samples);
    }

    /** Include row `i` in all nine summaries of node `k`. */
    method IncludeAt(samples: seq<FlightSample>, k: nat, i: nat)
      requires Shaped(View(), |samples|) && k < |nodes| && i < |samples|
      modifies this`nodes
      ensures nodes == old(nodes)[k := IncludeRow(old(nodes)[k], samples, i)] && Shaped(View(), |samples|)
    {
      hide IncludeRow;
      var row := IncludeMetrics(nodes[k], samples, i);
      nodes := nodes[k := row];
    }

    /** Merge the children of `node` metric by metric. */
    method MergeAt(samples: seq<FlightSample>, node: nat)
      requires Shaped(View(), |samples|) && 0 < node < leafCount
      modifies this`nodes
      ensures nodes == old(nodes)[node := MergeRow(old(nodes)[2 * node], old(nodes)[2 * node + 1], samples)]
      ensures Shaped(View(), |samples|)
    {
      hide MergeRow;
      var row := MergeMetrics(nodes[2 * node], nodes[2 * node + 1], samples);
      nodes := nodes[node := row];
    }

    /** The range query, border loops and node walk in place. */
    method RangeSummary(samples: seq<FlightSample>, metric: nat, begin: nat, end: nat) returns (result: Summary)
      requires Usable(View(), samples) && metric < METRIC_COUNT && begin <= end <= BoundedSize(samples)
      ensures result == Query(View(), samples, metric, begin, end)
    {
      hide Built;
      UsableShaped(View(), samples);
      result := EMPTY;
      if nodes == [] {
        for i := begin to end
          invariant Within(result, |samples|)
          invariant Scan(samples, metric, result, i, end) == Scan(samples, metric, EMPTY, begin, end)
        {
          result := Include(result, samples, metric, i);
        }
      } else {
        result := TreeSummary(samples, metric, begin, end);
      }
    }

    method TreeSummary(samples: seq<FlightSample>, metric: nat, begin: nat, end: nat) returns (result: Summary)
      requires Shaped(View(), |samples|) && nodes != [] && metric < METRIC_COUNT
      requires begin <= end <= |samples| && end <= leafCount * BLOCK_SIZE
      ensures result == Query(View(), samples, metric, begin, end)
    {
      hide Within, Include, Merge, Walk;
      result := EMPTY;
      EmptyIsWithin(|samples|);
      var b: nat := begin;
      var e: nat := end;
      while b < e && b % BLOCK_SIZE != 0
        invariant begin <= b <= e && Within(result, |samples|)
        invariant Front(samples, metric, result, b, e) == Front(samples, metric, EMPTY, begin, end)
      {
        result := Include(result, samples, metric, b);
        b := b + 1;
      }
      ghost var front := result;
      while b < e && e % BLOCK_SIZE != 0
        invariant b <= e <= end && Within(result, |samples|)
        invariant Back(samples, metric, result, b, e) == Back(samples, metric, front, b, end)
      {
        e := e - 1;
        var tail := Include(EMPTY, samples, metric, e);
        result := Merge(result, tail, samples, metric);
      }
      result := WalkBlocks(samples, metric, result, b / BLOCK_SIZE + leafCount, e / BLOCK_SIZE + leafCount);
    }

    method WalkBlocks(samples: seq<FlightSample>, metric: nat, acc: Summary, from: nat, to: nat) returns (result: Summary)
      requires Shaped(View(), |samples|) && metric < METRIC_COUNT && Within(acc, |samples|) && from <= to <= |nodes|
      ensures result == Walk(View(), samples, metric, acc, from, to)
    {
      hide Within, Merge, Walk;
      result := acc;
      var left: nat := from;
      var right: nat := to;
      while left < right
        invariant left <= right <= |nodes| && Within(result, |samples|)
        invariant Walk(View(), samples, metric, result, left, right) == Walk(View(), samples, metric, acc, from, to)
        decreases right
      {
        WalkUnfold(View(), samples, metric, result, left, right);
        if left % 2 != 0 {
          result := Merge(result, nodes[left][metric], samples, metric);
          left := left + 1;
        }
        if right % 2 != 0 {
          right := right - 1;
          result := Merge(result, nodes[right][metric], samples, metric);
        }
        left, right := left / 2, right / 2;
      }
      WalkUnfold(View(), samples, metric, result, left, right);
    }

    /** Whether a metric has a missing value in the clamped range; leaves as soon as one is seen. */
    method Missing(samples: seq<FlightSample>, metric: int, begin: int, end: int) returns (r: bool)
      requires Usable(View(), samples)
      ensures r == HasMissing(View(), samples, metric, begin, end)
    {
      hide Built;
      UsableShaped(View(), samples);
      if metric < 0 || metric >= METRIC_COUNT {
        return true;
      }
      var b: nat := Clamp(begin, 0, BoundedSize(samples));
      var e: nat := Clamp(end, b, BoundedSize(samples));
      if nodes == [] {
        ghost var b0 := b;
        while b < e
          invariant b0 <= b <= e
          invariant ScanMissing(samples, metric, b, e) == ScanMissing(samples, metric, b0, e)
        {
          if SampleValue(samples[b], metric).NotFinite? {
            return true;
          }
          b := b + 1;
        }
        return false;
      }
      r := TreeHasMissing(samples, metric, b, e);
    }

    method TreeHasMissing(samples: seq<FlightSample>, metric: nat, begin: nat, end: nat) returns (r: bool)
      requires Shaped(View(), |samples|) && metric < METRIC_COUNT
      requires begin <= end <= |samples| && end <= leafCount * BLOCK_SIZE
      ensures r == TreeMissing(View(), samples, metric, begin, end)
    {
      hide SampleValue, WalkMissing;
      var b: nat := begin;
      var e: nat := end;
      while b < e && b % BLOCK_SIZE != 0
        invariant begin <= b <= e
        invariant SkipFront(samples, metric, b, e) == SkipFront(samples, metric, begin, end)
      {
        if SampleValue(samples[b], metric).NotFinite? {
          return true;
        }
        b := b + 1;
      }
      while b < e && e % BLOCK_SIZE != 0
        invariant b <= e <= end
        invariant SkipBack(samples, metric, b, e) == SkipBack(samples, metric, b, end)
      {
        e := e - 1;
        if SampleValue(samples[e], metric).NotFinite? {
          return true;
        }
      }
      r := WalkHasMissing(metric, b / BLOCK_SIZE + leafCount, e / BLOCK_SIZE + leafCount);
    }

    method WalkHasMissing(metric: nat, from: nat, to: nat) returns (r: bool)
      requires |nodes| == 2 * leafCount && metric < METRIC_COUNT
      requires forall k :: 0 <= k < |nodes| ==> |nodes[k]| == METRIC_COUNT
      requires from <= to <= |nodes|
      ensures r == WalkMissing(View(), metric, from, to)
    {
      var left: nat := from;
      var right: nat := to;
      while left < right
        invariant left <= right <= |nodes|
        invariant WalkMissing(View(), metric, left, right) == WalkMissing(View(), metric, from, to)
        decreases right
      {
        if left % 2 != 0 {
          if nodes[left][metric].firstMissing >= 0 {
            return true;
          }
          left := left + 1;
        }
        if right % 2 != 0 {
          right := right - 1;
          if nodes[right][metric].firstMissing >= 0 {
            return true;
          }
        }
        left, right := left / 2, right / 2;
      }
      r := false;
    }

    /** The budgeted selection, bucket by bucket and metric by metric. */
    method Choose(samples: seq<FlightSample>, begin: int, end: int, budget: int, enabled: seq<bool>) returns (r: seq<int>)
      requires Usable(View(), samples) && |enabled| == METRIC_COUNT
      ensures r == Select(View(), samples, begin, end, budget, enabled)
    {
      hide Usable, CanQuery, SelectBuckets;
      var b: nat := Clamp(begin, 0, BoundedSize(samples));
      var e: nat := Clamp(end, b, BoundedSize(samples));
      if budget <= 0 || b == e {
        return [];
      }
      var count := e - b;
      if count <= budget {
        return seq(count, i => b + i);
      }
      if budget == 1 {
        return [b];
      }
      UsableCanQuery(View(), samples, b + count);
      r := ChooseBuckets(samples, b, count, budget, enabled);
    }

    method ChooseBuckets(samples: seq<FlightSample>, begin: nat, count: nat, budget: nat, enabled: seq<bool>) returns (r: seq<int>)
      requires CanQuery(View(), samples, begin + count) && |enabled| == METRIC_COUNT && 2 <= budget < count
      ensures r == SelectBuckets(View(), samples, begin, count, budget, enabled)
    {
      hide CanQuery, Candidates, SortUnique, Reduced;
      var buckets := Max(1, budget / PointsPerBucket(enabled));
      var indices := CollectCandidates(samples, begin, count, buckets, enabled);
      indices := SortUnique(indices);
      if |indices| > budget {
        r := SpreadOver(indices, budget);
      } else {
        r := indices;
      }
    }

    method CollectCandidates(samples: seq<FlightSample>, begin: nat, count: nat, buckets: nat, enabled: seq<bool>) returns (indices: seq<int>)
      requires CanQuery(View(), samples, begin + count) && |enabled| == METRIC_COUNT && 0 < buckets <= count
      ensures indices == Candidates(View(), samples, enabled, begin, count, buckets, buckets)
    {
      hide CanQuery, Query, MetricPoints, Share;
      indices := [];
      for bucket := 0 to buckets
        invariant indices == Candidates(View(), samples, enabled, begin, count, buckets, bucket)
      {
        ShareStep(bucket, count, buckets);
        ShareWithin(bucket + 1, count, buckets);
        var first := begin + Share(bucket, count, buckets);
        var last := begin + Share(bucket + 1, count, buckets);
        CanQueryLess(View(), samples, begin + count, last);
        var points := CollectMetricPoints(samples, first, last, enabled);
        assert [first] + [last - 1] + points == [first, last - 1] + points;
        indices := indices + ([first] + [last - 1] + points);
      }
    }

    method CollectMetricPoints(samples: seq<FlightSample>, first: nat, last: nat, enabled: seq<bool>) returns (points: seq<int>)
      requires CanQuery(View(), samples, last) && |enabled| == METRIC_COUNT && first < last
      ensures points == MetricPoints(View(), samples, enabled, 0, first, last)
    {
      hide Usable, Query, SummaryPoints, MetricPoints;
      UsableShaped(View(), samples);
      points := [];
      for metric := 0 to METRIC_COUNT
        invariant points + MetricPoints(View(), samples, enabled, metric, first, last)
               == MetricPoints(View(), samples, enabled, 0, first, last)
      {
        ghost var before, rest := points, MetricPoints(View(), samples, enabled, metric + 1, first, last);
        MetricPointsUnfold(View(), samples, enabled, metric, first, last);
        if enabled[metric] {
          var range := RangeSummary(samples, metric, first, last);
          points := PushPoints(points, range, first, last);
          assert before + SummaryPoints(range, first, last) + rest == before + (SummaryPoints(range, first, last) + rest);
        } else {
          assert [] + rest == rest;
        }
      }
      MetricPointsUnfold(View(), samples, enabled, METRIC_COUNT, first, last);
    }
  }

  method IncludeMetrics(row: seq<Summary>, samples: seq<FlightSample>, i: nat) returns (r: seq<Summary>)
    requires |row| == METRIC_COUNT && i < |samples|
    requires forall m :: 0 <= m < METRIC_COUNT ==> Within(row[m], |samples|)
    ensures r == IncludeRow(row, samples, i)
  {
    hide Include, Within;
    r := row;
    for metric := 0 to METRIC_COUNT
      invariant |r| == METRIC_COUNT
      invariant forall m :: 0 <= m < metric ==> r[m] == Include(row[m], samples, m, i)
      invariant forall m :: metric <= m < METRIC_COUNT ==> r[m] == row[m]
    {
      r := r[metric := Include(r[metric], samples, metric, i)];
    }
  }

  method MergeMetrics(left: seq<Summary>, right: seq<Summary>, samples: seq<FlightSample>) returns (r: seq<Summary>)
    requires |left| == METRIC_COUNT && forall m :: 0 <= m < METRIC_COUNT ==> Within(left[m], |samples|)
    requires |right| == METRIC_COUNT && forall m :: 0 <= m < METRIC_COUNT ==> Within(right[m], |samples|)
    ensures r == MergeRow(left, right, samples)
  {
    hide Merge, Within;
    r := [];
    for metric := 0 to METRIC_COUNT
      invariant |r| == metric
      invariant forall m :: 0 <= m < metric ==> r[m] == Merge(left[m], right[m], samples, m)
    {
      r := r + [Merge(left[metric], right[metric], samples, metric)];
    }
  }

  /** Push the extremes and the gap borders that a summary names. */
  method PushPoints(points: seq<int>, range: Summary, first: int, last: int) returns (r: seq<int>)
    ensures r == points + SummaryPoints(range, first, last)
  {
    r := points;
    if range.low >= 0 {
      r := r + [range.low, range.high];
    }
    if range.firstMissing >= 0 {
      r := r + [Max(first, range.firstMissing - 1), range.firstMissing,
                range.lastMissing, Min(last - 1, range.lastMissing + 1)];
    }
  }

  /** Spread a tiny budget evenly over the candidates. */
  method SpreadOver(indices: seq<int>, budget: nat) returns (reduced: seq<int>)
    requires 2 <= budget <= |indices|
    ensures reduced == Reduced(indices, budget)
  {
    reduced := [];
    for i := 0 to budget
      invariant |reduced| == i
      invariant reduced == Reduced(indices, budget)[..i]
    {
      ReducedPosition(i, |indices|, budget);
      reduced := reduced + [indices[Share(i, |indices| - 1, budget - 1)]];
    }
  }
}
