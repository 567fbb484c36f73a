/**
 * The budgeted selection of chart points: bucket borders, and per bucket and enabled metric the extremes and the
 * borders of the missing values.
 */
module ChartSelection {
  import opened Domain
  import opened ChartSummaries
  import opened ChartQuery
  import opened EvenSpread

  /** The index may be asked about these samples. */
  ghost predicate Usable(index: Index, samples: seq<FlightSample>) {
    index == UNBUILT || Built(index, samples)
  }

  // ---------------------------------------------------------------------------------------------
  // Sorting without duplicates: `std::sort` followed by `std::unique`
  // ---------------------------------------------------------------------------------------------

  function Insert(sorted: seq<int>, x: int): (r: seq<int>)
    ensures forall v :: v in r <==> v == x || v in sorted
    ensures |sorted| <= |r| <= |sorted| + 1
    ensures StrictlyIncreasing(sorted) ==> StrictlyIncreasing(r)
  {
    if sorted == [] then [x]
    else if x < sorted[0] then [x] + sorted
    else if x == sorted[0] then sorted
    else
      var rest := Insert(sorted[1..], x);
      assert forall v :: v in sorted <==> v == sorted[0] || v in sorted[1..];
      assert StrictlyIncreasing(sorted) ==> StrictlyIncreasing(sorted[1..]);
      assert StrictlyIncreasing(sorted) ==> forall v :: v in sorted[1..] ==> sorted[0] < v;
      assert forall k :: 0 <= k < |rest| ==> rest[k] in rest;
      [sorted[0]] + rest
  }

  function SortUnique(s: seq<int>): (r: seq<int>)
    ensures forall v :: v in r <==> v in s
    ensures |r| <= |s| && StrictlyIncreasing(r)
  {
    if s == [] then [] else Insert(SortUnique(s[..|s| - 1]), s[|s| - 1])
  }

  // ---------------------------------------------------------------------------------------------
  // The selection
  // ---------------------------------------------------------------------------------------------

  /** How many of the flags from `metric` on are set. */
  function EnabledFrom(enabled: seq<bool>, metric: nat): (r: nat)
    requires metric <= |enabled|
    decreases |enabled| - metric
  {
    if metric == |enabled| then 0
    else (if enabled[metric] then 1 else 0) + EnabledFrom(enabled, metric + 1)
  }

  function PointsPerBucket(enabled: seq<bool>): nat {
    2 + 6 * EnabledFrom(enabled, 0)
  }

  /** The points that one summary of `[first, last)` contributes. */
  function SummaryPoints(s: Summary, first: int, last: int): (r: seq<int>)
    ensures |r| <= 6
  {
    (if s.low >= 0 then [s.low, s.high] else []) +
    (if s.firstMissing >= 0
     then [Max(first, s.firstMissing - 1), s.firstMissing, s.lastMissing, Min(last - 1, s.lastMissing + 1)]
     else [])
  }

  ghost predicate CanQuery(index: Index, samples: seq<FlightSample>, end: nat) {
    Usable(index, samples) && end <= BoundedSize(samples)
  }

  function MetricPoints(index: Index, samples: seq<FlightSample>, enabled: seq<bool>, metric: nat, first: nat, last: nat): (r: seq<int>)
    requires CanQuery(index, samples, last) && |enabled| == METRIC_COUNT
    requires metric <= METRIC_COUNT && first <= last
    ensures |r| <= 6 * EnabledFrom(enabled, metric)
    decreases METRIC_COUNT - metric
  {
    if metric == METRIC_COUNT then []
    else
      (if enabled[metric] then SummaryPoints(Query(index, samples, metric, first, last), first, last) else [])
      + MetricPoints(index, samples, enabled, metric + 1, first, last)
  }

  lemma MetricPointsUnfold(index: Index, samples: seq<FlightSample>, enabled: seq<bool>, metric: nat, first: nat, last: nat)
    requires CanQuery(index, samples, last) && |enabled| == METRIC_COUNT
    requires metric <= METRIC_COUNT && first <= last
    ensures metric == METRIC_COUNT ==> MetricPoints(index, samples, enabled, metric, first, last) == []
    ensures metric < METRIC_COUNT ==>
              MetricPoints(index, samples, enabled, metric, first, last) ==
              (if enabled[metric] then SummaryPoints(Query(index, samples, metric, first, last), first, last) else [])
              + MetricPoints(index, samples, enabled, metric + 1, first, last)
  {
    hide Query;
  }

  function BucketPoints(index: Index, samples: seq<FlightSample>, enabled: seq<bool>, first: nat, last: nat): (r: seq<int>)
    requires CanQuery(index, samples, last) && |enabled| == METRIC_COUNT && first < last
    ensures |r| <= PointsPerBucket(enabled)
  {
    [first, last - 1] + MetricPoints(index, samples, enabled, 0, first, last)
  }

  /** All candidate points of buckets `0..bucket`. */
  function Candidates(index: Index, samples: seq<FlightSample>, enabled: seq<bool>, begin: nat, count: nat, buckets: nat, bucket: nat): (r: seq<int>)
    requires CanQuery(index, samples, begin + count) && |enabled| == METRIC_COUNT
    requires 0 < buckets <= count && bucket <= buckets
    decreases bucket
  {
    if bucket == 0 then []
    else
      ShareStep(bucket - 1, count, buckets);
      ShareWithin(bucket, count, buckets);
      Candidates(index, samples, enabled, begin, count, buckets, bucket - 1)
      + BucketPoints(index, samples, enabled, begin + Share(bucket - 1, count, buckets), begin + Share(bucket, count, buckets))
  }

  lemma ShareWithin(bucket: nat, count: nat, buckets: nat)
    requires 0 < buckets <= count && bucket <= buckets
    ensures Share(bucket, count, buckets) <= count
  {
    ShareEnds(count, buckets);
    if bucket < buckets {
      ShareIncreasing(bucket, buckets, count, buckets);
    }
  }

  lemma UsableShaped(index: Index, samples: seq<FlightSample>)
    requires Usable(index, samples)
    ensures Shaped(index, |samples|)
    ensures index.nodes == [] || BoundedSize(samples) <= index.leafCount * BLOCK_SIZE
  {
  }

  /** Spread the budget evenly over the candidates. */
  function Reduced(indices: seq<int>, budget: nat): (r: seq<int>)
    requires 2 <= budget <= |indices|
    ensures |r| == budget
  {
    seq(budget, i requires 0 <= i < budget =>
      ReducedPosition(i, |indices|, budget);
      indices[Share(i, |indices| - 1, budget - 1)])
  }

  lemma ReducedPosition(i: nat, size: nat, budget: nat)
    requires 2 <= budget <= size && i < budget
    ensures Share(i, size - 1, budget - 1) < size
  {
    ShareWithin(i, size - 1, budget - 1);
  }

  /** The buckets that fit a budget; a tiny budget still has one. */
  function BucketCount(budget: nat, enabled: seq<bool>): (r: nat)
    ensures 0 < r && (budget >= 1 ==> r <= budget)
  {
    Max(1, budget / PointsPerBucket(enabled))
  }

  /** The case of more rows than budget. */
  function SelectBuckets(index: Index, samples: seq<FlightSample>, begin: nat, count: nat, budget: nat, enabled: seq<bool>): (r: seq<int>)
    requires CanQuery(index, samples, begin + count) && |enabled| == METRIC_COUNT && 2 <= budget < count
  {
    var buckets := BucketCount(budget, enabled);
    var indices := SortUnique(Candidates(index, samples, enabled, begin, count, buckets, buckets));
    if |indices| > budget then Reduced(indices, budget) else indices
  }

  function Select(index: Index, samples: seq<FlightSample>, begin: int, end: int, budget: int, enabled: seq<bool>): (r: seq<int>)
    requires Usable(index, samples) && |enabled| == METRIC_COUNT
  {
    var b: nat := Clamp(begin, 0, BoundedSize(samples));
    var e: nat := Clamp(end, b, BoundedSize(samples));
    if budget <= 0 || b == e then []
    else if e - b <= budget then seq(e - b, i => b + i)
    else if budget == 1 then [b]
    else SelectBuckets(index, samples, b, e - b, budget, enabled)
  }

  // ---------------------------------------------------------------------------------------------
  // Shape: inside the range, in order, within the budget, with both ends
  // ---------------------------------------------------------------------------------------------

  ghost predicate AllIn(s: seq<int>, lo: int, hi: int) {
    forall v :: v in s ==> lo <= v < hi
  }

  lemma {:induction false} MetricPointsWithin(index: Index, samples: seq<FlightSample>, enabled: seq<bool>, metric: nat, first: nat, last: nat)
    requires CanQuery(index, samples, last) && |enabled| == METRIC_COUNT
    requires metric <= METRIC_COUNT && first < last
    ensures AllIn(MetricPoints(index, samples, enabled, metric, first, last), first, last)
    decreases METRIC_COUNT - metric
  {
    hide Query;
    if metric < METRIC_COUNT {
      MetricPointsWithin(index, samples, enabled, metric + 1, first, last);
      SummaryPointsWithin(index, samples, metric, first, last);
    }
  }

  lemma SummaryPointsWithin(index: Index, samples: seq<FlightSample>, metric: nat, first: nat, last: nat)
    requires CanQuery(index, samples, last) && metric < METRIC_COUNT && first < last
    ensures AllIn(SummaryPoints(Query(index, samples, metric, first, last), first, last), first, last)
  {
    hide Query, Built;
    UsableShaped(index, samples);
    var s := Query(index, samples, metric, first, last);
    QuerySound(index, samples, metric, first, last);
    assert s.low >= 0 ==> s.low in Rows(first, last) && s.high in Rows(first, last);
    assert s.firstMissing >= 0 ==> s.firstMissing in Rows(first, last) && s.lastMissing in Rows(first, last);
  }

  lemma {:induction false} CandidatesShape(index: Index, samples: seq<FlightSample>, enabled: seq<bool>, begin: nat, count: nat, buckets: nat, bucket: nat)
    requires CanQuery(index, samples, begin + count) && |enabled| == METRIC_COUNT
    requires 0 < buckets <= count && bucket <= buckets
    ensures Share(bucket, count, buckets) <= count
    ensures var c := Candidates(index, samples, enabled, begin, count, buckets, bucket);
            && AllIn(c, begin, begin + Share(bucket, count, buckets))
            && |c| <= bucket * PointsPerBucket(enabled)
            && (bucket > 0 ==> begin in c && begin + Share(bucket, count, buckets) - 1 in c)
    decreases bucket
  {
    hide Query, BucketPoints, Share, CanQuery, PointsPerBucket;
    ShareWithin(bucket, count, buckets);
    ShareEnds(count, buckets);
    if bucket > 0 {
      CandidatesShape(index, samples, enabled, begin, count, buckets, bucket - 1);
      ShareStep(bucket - 1, count, buckets);
      var first, last := begin + Share(bucket - 1, count, buckets), begin + Share(bucket, count, buckets);
      CanQueryLess(index, samples, begin + count, last);
      BucketShape(index, samples, enabled, first, last);
      OneMore(bucket - 1, PointsPerBucket(enabled));
    }
  }

  lemma BucketShape(index: Index, samples: seq<FlightSample>, enabled: seq<bool>, first: nat, last: nat)
    requires CanQuery(index, samples, last) && |enabled| == METRIC_COUNT && first < last
    ensures var p := BucketPoints(index, samples, enabled, first, last);
            AllIn(p, first, last) && first in p && last - 1 in p
  {
    hide Query, MetricPoints, CanQuery;
    MetricPointsWithin(index, samples, enabled, 0, first, last);
    var p := BucketPoints(index, samples, enabled, first, last);
    assert p[0] == first && p[1] == last - 1;
  }

  lemma OneMore(a: nat, b: nat)
    ensures (a + 1) * b == a * b + b
  {
  }

  lemma CanQueryLess(index: Index, samples: seq<FlightSample>, end: nat, less: nat)
    requires CanQuery(index, samples, end) && less <= end
    ensures CanQuery(index, samples, less)
  {
  }

  lemma ReducedShape(indices: seq<int>, budget: nat)
    requires 2 <= budget <= |indices| && StrictlyIncreasing(indices)
    ensures var r := Reduced(indices, budget);
            && StrictlyIncreasing(r) && (forall v :: v in r ==> v in indices)
            && r[0] == indices[0] && r[budget - 1] == indices[|indices| - 1]
  {
    var r, n := Reduced(indices, budget), |indices|;
    forall i {:trigger Share(i, n - 1, budget - 1)} | 0 <= i < budget ensures Share(i, n - 1, budget - 1) < n {
      ReducedPosition(i, n, budget);
    }
    hide Share;
    ShareEnds(n - 1, budget - 1);
    forall i, j | 0 <= i < j < budget ensures r[i] < r[j] {
      ShareIncreasing(i, j, n - 1, budget - 1);
    }
  }

  /** The picked candidates are spread evenly: each stands where its share of the way falls, rounded down. */
  lemma ReducedEven(indices: seq<int>, budget: nat, i: nat) returns (p: nat)
    requires 2 <= budget <= |indices| && i < budget
    ensures p < |indices| && Reduced(indices, budget)[i] == indices[p]
    ensures p * (budget - 1) <= i * (|indices| - 1) < (p + 1) * (budget - 1)
  {
    ReducedPosition(i, |indices|, budget);
    p := Share(i, |indices| - 1, budget - 1);
    ShareIsFloor(i, |indices| - 1, budget - 1);
  }

  /** The first and the last element of a strictly increasing sequence are its bounds. */
  lemma EndsAre(s: seq<int>, lo: int, hi: int)
    requires StrictlyIncreasing(s) && AllIn(s, lo, hi) && lo in s && hi - 1 in s
    ensures s[0] == lo && s[|s| - 1] == hi - 1
  {
    assert s[0] in s && s[|s| - 1] in s;
  }

  lemma SelectBucketsShape(index: Index, samples: seq<FlightSample>, begin: nat, count: nat, budget: nat, enabled: seq<bool>)
    requires CanQuery(index, samples, begin + count) && |enabled| == METRIC_COUNT && 2 <= budget < count
    ensures var r := SelectBuckets(index, samples, begin, count, budget, enabled);
            && 2 <= |r| <= budget && StrictlyIncreasing(r) && AllIn(r, begin, begin + count)
            && r[0] == begin && r[|r| - 1] == begin + count - 1
  {
    hide Candidates, Reduced, SortUnique, Share, CanQuery;
    var buckets := BucketCount(budget, enabled);
    var c := Candidates(index, samples, enabled, begin, count, buckets, buckets);
    CandidatesShape(index, samples, enabled, begin, count, buckets, buckets);
    ShareEnds(count, buckets);
    EndsAre(SortUnique(c), begin, begin + count);
    if |SortUnique(c)| > budget {
      ReducedShape(SortUnique(c), budget);
    }
  }

  /** Whatever the budget and the flags: an ordered selection of the clamped range, within the budget, both ends kept. */
  lemma SelectShape(index: Index, samples: seq<FlightSample>, begin: int, end: int, budget: int, enabled: seq<bool>)
    requires Usable(index, samples) && |enabled| == METRIC_COUNT
    ensures var r := Select(index, samples, begin, end, budget, enabled);
            var b := Clamp(begin, 0, BoundedSize(samples));
            var e := Clamp(end, b, BoundedSize(samples));
            && StrictlyIncreasing(r) && AllIn(r, b, e) && |r| <= Max(0, budget)
            && (r == [] <==> budget <= 0 || b == e)
            && (budget >= 1 && b < e ==> r[0] == b) && (budget >= 2 && b < e ==> r[|r| - 1] == e - 1)
            && (e - b <= budget ==> forall i :: b <= i < e ==> i in r)
  {
    hide SelectBuckets, Usable;
    var r := Select(index, samples, begin, end, budget, enabled);
    var b: nat := Clamp(begin, 0, BoundedSize(samples));
    var e: nat := Clamp(end, b, BoundedSize(samples));
    if 0 < e - b <= budget {
      forall i | b <= i < e ensures i in r {
        assert r[i - b] == i;
      }
    } else if 2 <= budget < e - b {
      SelectBucketsShape(index, samples, b, e - b, budget, enabled);
    }
  }

  // ---------------------------------------------------------------------------------------------
  // Content: extremes and gap borders survive
  // ---------------------------------------------------------------------------------------------

  ghost predicate FirstMissing(samples: seq<FlightSample>, metric: int, first: int, last: int, i: int) {
    && 0 <= first <= i < last <= |samples| && SampleValue(samples[i], metric).NotFinite?
    && forall j :: first <= j < i ==> SampleValue(samples[j], metric).Finite?
  }

  ghost predicate LastMissing(samples: seq<FlightSample>, metric: int, first: int, last: int, i: int) {
    && 0 <= first <= i < last <= |samples| && SampleValue(samples[i], metric).NotFinite?
    && forall j :: i < j < last ==> SampleValue(samples[j], metric).Finite?
  }

  /** Some point of `r` in `[first, last)` is as low as row `i`. */
  ghost predicate AsLow(r: seq<int>, samples: seq<FlightSample>, metric: int, first: int, last: int, i: int)
    requires 0 <= i < |samples| && SampleValue(samples[i], metric).Finite?
  {
    exists p :: p in r && first <= p < last && 0 <= p < |samples| && SampleValue(samples[p], metric).Finite?
      && SampleValue(samples[p], metric).value <= SampleValue(samples[i], metric).value
  }

  ghost predicate AsHigh(r: seq<int>, samples: seq<FlightSample>, metric: int, first: int, last: int, i: int)
    requires 0 <= i < |samples| && SampleValue(samples[i], metric).Finite?
  {
    exists p :: p in r && first <= p < last && 0 <= p < |samples| && SampleValue(samples[p], metric).Finite?
      && SampleValue(samples[i], metric).value <= SampleValue(samples[p], metric).value
  }

  /**
   * `r` has an original minimum and an original maximum of the rows `[first, last)`, their first and last missing
   * row, and the rows next to those.
   */
  ghost predicate Keeps(r: seq<int>, samples: seq<FlightSample>, metric: int, first: int, last: int) {
    && 0 <= first <= last <= |samples|
    && (forall i {:trigger AsLow(r, samples, metric, first, last, i)} {:trigger AsHigh(r, samples, metric, first, last, i)} ::
          first <= i < last && SampleValue(samples[i], metric).Finite? ==>
            AsLow(r, samples, metric, first, last, i) && AsHigh(r, samples, metric, first, last, i))
    && (forall i :: FirstMissing(samples, metric, first, last, i) ==> i in r && Max(first, i - 1) in r)
    && (forall i :: LastMissing(samples, metric, first, last, i) ==> i in r && Min(last - 1, i + 1) in r)
  }

  lemma SummaryPointsKeep(index: Index, samples: seq<FlightSample>, metric: nat, first: nat, last: nat)
    requires CanQuery(index, samples, last) && metric < METRIC_COUNT && first < last
    ensures Keeps(SummaryPoints(Query(index, samples, metric, first, last), first, last), samples, metric, first, last)
  {
    hide Query, Built;
    UsableShaped(index, samples);
    var s := Query(index, samples, metric, first, last);
    QuerySound(index, samples, metric, first, last);
    SoundSummaryKeeps(s, samples, metric, first, last);
  }

  lemma SummaryPointsHave(s: Summary, first: int, last: int)
    ensures var r := SummaryPoints(s, first, last);
            && (s.low >= 0 ==> s.low in r && s.high in r)
            && (s.firstMissing >= 0 ==>
                  && Max(first, s.firstMissing - 1) in r && s.firstMissing in r
                  && s.lastMissing in r && Min(last - 1, s.lastMissing + 1) in r)
  {
    hide Max, Min;
    var r := SummaryPoints(s, first, last);
    var k := if s.low >= 0 then 2 else 0;
    assert s.low >= 0 ==> r[0] == s.low && r[1] == s.high;
    assert s.firstMissing >= 0 ==>
      r[k] == Max(first, s.firstMissing - 1) && r[k + 1] == s.firstMissing
      && r[k + 2] == s.lastMissing && r[k + 3] == Min(last - 1, s.lastMissing + 1);
  }

  /** A sound summary names the first and the last missing row. */
  lemma SoundSummaryMissing(s: Summary, samples: seq<FlightSample>, metric: nat, first: nat, last: nat, i: int)
    requires first < last <= |samples| && Within(s, |samples|)
    requires IsSummary(s, samples, metric, Rows(first, last))
    ensures FirstMissing(samples, metric, first, last, i) ==> s.firstMissing == i
    ensures LastMissing(samples, metric, first, last, i) ==> s.lastMissing == i && s.firstMissing >= 0
  {
    hide SampleValue;
    assert first <= i < last ==> i in Rows(first, last);
    assert s.firstMissing >= 0 ==> s.firstMissing in Rows(first, last) && s.lastMissing in Rows(first, last);
  }

  lemma SoundSummaryKeeps(s: Summary, samples: seq<FlightSample>, metric: nat, first: nat, last: nat)
    requires first < last <= |samples| && Within(s, |samples|)
    requires IsSummary(s, samples, metric, Rows(first, last))
    ensures Keeps(SummaryPoints(s, first, last), samples, metric, first, last)
  {
    hide SampleValue, SummaryPoints, FirstMissing, LastMissing, Max, Min, IsSummary;
    var r := SummaryPoints(s, first, last);
    SummaryPointsHave(s, first, last);
    forall i | first <= i < last && SampleValue(samples[i], metric).Finite?
      ensures AsLow(r, samples, metric, first, last, i) && AsHigh(r, samples, metric, first, last, i)
    {
      SoundSummaryValues(s, samples, metric, first, last, i);
    }
    forall i | FirstMissing(samples, metric, first, last, i) ensures i in r && Max(first, i - 1) in r {
      SoundSummaryMissing(s, samples, metric, first, last, i);
      FirstMissingPlace(samples, metric, first, last, i);
    }
    forall i | LastMissing(samples, metric, first, last, i) ensures i in r && Min(last - 1, i + 1) in r {
      SoundSummaryMissing(s, samples, metric, first, last, i);
    }
  }

  lemma FirstMissingPlace(samples: seq<FlightSample>, metric: int, first: int, last: int, i: int)
    requires FirstMissing(samples, metric, first, last, i)
    ensures 0 <= first <= i < last
  {
  }

  lemma SoundSummaryValues(s: Summary, samples: seq<FlightSample>, metric: nat, first: nat, last: nat, i: nat)
    requires first <= i < last <= |samples| && Within(s, |samples|)
    requires IsSummary(s, samples, metric, Rows(first, last))
    requires SampleValue(samples[i], metric).Finite?
    ensures s.low >= 0 && s.high >= 0 && first <= s.low < last && first <= s.high < last
    ensures SampleValue(samples[s.low], metric).Finite? && SampleValue(samples[s.high], metric).Finite?
    ensures SampleValue(samples[s.low], metric).value <= SampleValue(samples[i], metric).value
    ensures SampleValue(samples[i], metric).value <= SampleValue(samples[s.high], metric).value
  {
    hide SampleValue;
    assert i in Rows(first, last);
  }

  lemma KeepsMore(r: seq<int>, more: seq<int>, samples: seq<FlightSample>, metric: int, first: int, last: int)
    requires Keeps(r, samples, metric, first, last) && forall v :: v in r ==> v in more
    ensures Keeps(more, samples, metric, first, last)
  {
    hide FirstMissing, LastMissing, SampleValue, Max, Min;
    forall i | first <= i < last && SampleValue(samples[i], metric).Finite?
      ensures AsLow(more, samples, metric, first, last, i) && AsHigh(more, samples, metric, first, last, i)
    {
      assert AsLow(r, samples, metric, first, last, i) && AsHigh(r, samples, metric, first, last, i);
    }
  }

  lemma {:induction false} MetricPointsKeep(index: Index, samples: seq<FlightSample>, enabled: seq<bool>, metric: nat,
                                            from: nat, first: nat, last: nat)
    requires CanQuery(index, samples, last) && |enabled| == METRIC_COUNT && first < last
    requires from <= metric < METRIC_COUNT && enabled[metric]
    ensures Keeps(MetricPoints(index, samples, enabled, from, first, last), samples, metric, first, last)
    decreases metric - from
  {
    hide Query, Keeps, SummaryPoints;
    var all := MetricPoints(index, samples, enabled, from, first, last);
    if from == metric {
      SummaryPointsKeep(index, samples, metric, first, last);
      UsableShaped(index, samples);
      KeepsMore(SummaryPoints(Query(index, samples, metric, first, last), first, last), all, samples, metric, first, last);
    } else {
      MetricPointsKeep(index, samples, enabled, metric, from + 1, first, last);
      KeepsMore(MetricPoints(index, samples, enabled, from + 1, first, last), all, samples, metric, first, last);
    }
  }

  /** What a selection does for one bucket: both border rows, and extremes and gap borders of one metric. */
  ghost predicate KeepsBucket(r: seq<int>, samples: seq<FlightSample>, metric: int, begin: nat, count: nat, buckets: nat, bucket: nat)
    requires buckets > 0
  {
    var first, last := begin + Share(bucket, count, buckets), begin + Share(bucket + 1, count, buckets);
    first in r && last - 1 in r && Keeps(r, samples, metric, first, last)
  }

  lemma {:induction false} CandidatesKeep(index: Index, samples: seq<FlightSample>, enabled: seq<bool>, metric: nat,
                                          begin: nat, count: nat, buckets: nat, upTo: nat, bucket: nat)
    requires CanQuery(index, samples, begin + count) && |enabled| == METRIC_COUNT
    requires 0 < buckets <= count && bucket < upTo <= buckets
    requires metric < METRIC_COUNT && enabled[metric]
    ensures KeepsBucket(Candidates(index, samples, enabled, begin, count, buckets, upTo), samples, metric, begin, count, buckets, bucket)
    decreases upTo
  {
    hide Query, Keeps, Share, CanQuery, MetricPoints;
    var all := Candidates(index, samples, enabled, begin, count, buckets, upTo);
    var first, last := begin + Share(bucket, count, buckets), begin + Share(bucket + 1, count, buckets);
    if bucket + 1 < upTo {
      CandidatesKeep(index, samples, enabled, metric, begin, count, buckets, upTo - 1, bucket);
      KeepsMore(Candidates(index, samples, enabled, begin, count, buckets, upTo - 1), all, samples, metric, first, last);
    } else {
      ShareStep(bucket, count, buckets);
      ShareWithin(upTo, count, buckets);
      CanQueryLess(index, samples, begin + count, last);
      MetricPointsKeep(index, samples, enabled, metric, 0, first, last);
      var p := BucketPoints(index, samples, enabled, first, last);
      assert p[0] == first && p[1] == last - 1;
      KeepsMore(MetricPoints(index, samples, enabled, 0, first, last), all, samples, metric, first, last);
    }
  }

  /**
   * With room for `buckets` full buckets, and not for one more, the range is divided into that many: each of them
   * keeps its border rows and the extremes and gap borders of every enabled metric.
   */
  lemma SelectKeepsBuckets(index: Index, samples: seq<FlightSample>, begin: int, end: int, budget: int, enabled: seq<bool>,
                           metric: nat, buckets: nat, bucket: nat)
    requires Usable(index, samples) && |enabled| == METRIC_COUNT && metric < METRIC_COUNT && enabled[metric]
    requires buckets * (2 + 6 * EnabledFrom(enabled, 0)) <= budget < (buckets + 1) * (2 + 6 * EnabledFrom(enabled, 0))
    requires bucket < buckets
    ensures var b := Clamp(begin, 0, BoundedSize(samples));
            var e := Clamp(end, b, BoundedSize(samples));
            budget < e - b ==>
              KeepsBucket(Select(index, samples, begin, end, budget, enabled), samples, metric, b, e - b, buckets, bucket)
  {
    hide SelectBuckets, Usable, KeepsBucket, EnabledFrom;
    var points := PointsPerBucket(enabled);
    assert (buckets + 1) * points == buckets * points + points;
    QuotientIs(budget, points, buckets);
    MulLeq(1, buckets, points);
    var b: nat := Clamp(begin, 0, BoundedSize(samples));
    var e: nat := Clamp(end, b, BoundedSize(samples));
    if budget < e - b {
      UsableCanQuery(index, samples, e);
      KeepsFullBuckets(index, samples, b, e - b, budget, enabled, metric, bucket);
    }
  }

  /** A budget with room for one full bucket keeps every bucket of every enabled metric. */
  lemma KeepsFullBuckets(index: Index, samples: seq<FlightSample>, begin: nat, count: nat, budget: nat, enabled: seq<bool>,
                           metric: nat, bucket: nat)
    requires CanQuery(index, samples, begin + count) && |enabled| == METRIC_COUNT
    requires PointsPerBucket(enabled) <= budget < count
    requires metric < METRIC_COUNT && enabled[metric] && bucket < BucketCount(budget, enabled)
    ensures KeepsBucket(SelectBuckets(index, samples, begin, count, budget, enabled), samples, metric, begin, count,
                        BucketCount(budget, enabled), bucket)
  {
    hide Query, Keeps, Share, CanQuery, Candidates, SortUnique;
    var buckets := BucketCount(budget, enabled);
    var c := Candidates(index, samples, enabled, begin, count, buckets, buckets);
    CandidatesShape(index, samples, enabled, begin, count, buckets, buckets);
    FullBucketsFit(budget, PointsPerBucket(enabled));
    CandidatesKeep(index, samples, enabled, metric, begin, count, buckets, buckets, bucket);
    KeepsMore(c, SortUnique(c), samples, metric, begin + Share(bucket, count, buckets), begin + Share(bucket + 1, count, buckets));
  }

  lemma FullBucketsFit(budget: nat, points: nat)
    requires 0 < points <= budget
    ensures 1 <= budget / points && (budget / points) * points <= budget
  {
    assert budget == (budget / points) * points + budget % points;
  }

  /**
   * Extremes and gap borders of the whole clamped range survive whenever the budget has room for one full bucket.
   */
  lemma SelectKeepsExtremes(index: Index, samples: seq<FlightSample>, begin: int, end: int, budget: int, enabled: seq<bool>, metric: nat)
    requires Usable(index, samples) && |enabled| == METRIC_COUNT
    requires metric < METRIC_COUNT && enabled[metric] && PointsPerBucket(enabled) <= budget
    ensures var b := Clamp(begin, 0, BoundedSize(samples));
            var e := Clamp(end, b, BoundedSize(samples));
            Keeps(Select(index, samples, begin, end, budget, enabled), samples, metric, b, e)
  {
    hide SelectBuckets, Usable, Keeps, KeepsBucket;
    var b: nat := Clamp(begin, 0, BoundedSize(samples));
    var e: nat := Clamp(end, b, BoundedSize(samples));
    var r := Select(index, samples, begin, end, budget, enabled);
    if e - b <= budget {
      SelectShape(index, samples, begin, end, budget, enabled);
      AllRowsKeep(r, samples, metric, b, e);
    } else {
      var buckets := BucketCount(budget, enabled);
      UsableCanQuery(index, samples, e);
      forall k {:trigger KeepsBucket(r, samples, metric, b, e - b, buckets, k)} | 0 <= k < buckets
        ensures KeepsBucket(r, samples, metric, b, e - b, buckets, k) {
        KeepsFullBuckets(index, samples, b, e - b, budget, enabled, metric, k);
      }
      BucketsKeepRange(r, samples, metric, b, e - b, buckets);
    }
  }

  lemma UsableCanQuery(index: Index, samples: seq<FlightSample>, end: nat)
    requires Usable(index, samples) && end <= BoundedSize(samples)
    ensures CanQuery(index, samples, end)
  {
  }

  lemma AllRowsKeep(r: seq<int>, samples: seq<FlightSample>, metric: int, first: int, last: int)
    requires 0 <= first <= last <= |samples| && forall i :: first <= i < last ==> i in r
    ensures Keeps(r, samples, metric, first, last)
  {
  }

  /** The bucket of a row, with what the selection keeps of it. */
  lemma BucketOf(r: seq<int>, samples: seq<FlightSample>, metric: int, begin: nat, count: nat, buckets: nat, i: nat) returns (k: nat)
    requires 0 < buckets <= count && begin + count <= |samples| && begin <= i < begin + count
    requires forall k :: 0 <= k < buckets ==> KeepsBucket(r, samples, metric, begin, count, buckets, k)
    ensures k < buckets && KeepsBucket(r, samples, metric, begin, count, buckets, k)
    ensures 0 <= Share(k, count, buckets) <= i - begin < Share(k + 1, count, buckets) <= count
    ensures k > 0 ==> begin + Share(k, count, buckets) - 1 in r
    ensures k + 1 < buckets ==> begin + Share(k + 1, count, buckets) in r
    ensures k == 0 ==> Share(k, count, buckets) == 0
    ensures k + 1 == buckets ==> Share(k + 1, count, buckets) == count
  {
    hide Share, Keeps;
    ShareEnds(count, buckets);
    k := ShareTiles(i - begin, count, buckets, buckets);
    BucketInside(k, count, buckets);
    assert k > 0 ==> KeepsBucket(r, samples, metric, begin, count, buckets, k - 1);
    assert k + 1 < buckets ==> KeepsBucket(r, samples, metric, begin, count, buckets, k + 1);
  }

  lemma RangeValues(r: seq<int>, samples: seq<FlightSample>, metric: int, begin: nat, count: nat, buckets: nat, i: nat)
    requires 0 < buckets <= count && begin + count <= |samples| && begin <= i < begin + count
    requires forall k :: 0 <= k < buckets ==> KeepsBucket(r, samples, metric, begin, count, buckets, k)
    requires SampleValue(samples[i], metric).Finite?
    ensures AsLow(r, samples, metric, begin, begin + count, i) && AsHigh(r, samples, metric, begin, begin + count, i)
  {
    hide Share, SampleValue, FirstMissing, LastMissing;
    var k := BucketOf(r, samples, metric, begin, count, buckets, i);
    var first, last := begin + Share(k, count, buckets), begin + Share(k + 1, count, buckets);
    assert AsLow(r, samples, metric, first, last, i) && AsHigh(r, samples, metric, first, last, i);
  }

  lemma RangeFirstMissing(r: seq<int>, samples: seq<FlightSample>, metric: int, begin: nat, count: nat, buckets: nat, i: nat)
    requires 0 < buckets <= count && begin + count <= |samples| && begin <= i < begin + count
    requires forall k :: 0 <= k < buckets ==> KeepsBucket(r, samples, metric, begin, count, buckets, k)
    requires FirstMissing(samples, metric, begin, begin + count, i)
    ensures i in r && Max(begin, i - 1) in r
  {
    hide Share, SampleValue, AsLow, AsHigh, LastMissing;
    var k := BucketOf(r, samples, metric, begin, count, buckets, i);
    assert FirstMissing(samples, metric, begin + Share(k, count, buckets), begin + Share(k + 1, count, buckets), i);
  }

  lemma RangeLastMissing(r: seq<int>, samples: seq<FlightSample>, metric: int, begin: nat, count: nat, buckets: nat, i: nat)
    requires 0 < buckets <= count && begin + count <= |samples| && begin <= i < begin + count
    requires forall k :: 0 <= k < buckets ==> KeepsBucket(r, samples, metric, begin, count, buckets, k)
    requires LastMissing(samples, metric, begin, begin + count, i)
    ensures i in r && Min(begin + count - 1, i + 1) in r
  {
    hide Share, SampleValue, AsLow, AsHigh, FirstMissing;
    var k := BucketOf(r, samples, metric, begin, count, buckets, i);
    assert LastMissing(samples, metric, begin + Share(k, count, buckets), begin + Share(k + 1, count, buckets), i);
  }

  lemma BucketsKeepRange(r: seq<int>, samples: seq<FlightSample>, metric: int, begin: nat, count: nat, buckets: nat)
    requires 0 < buckets <= count && begin + count <= |samples|
    requires forall k :: 0 <= k < buckets ==> KeepsBucket(r, samples, metric, begin, count, buckets, k)
    ensures Keeps(r, samples, metric, begin, begin + count)
  {
    hide Share, SampleValue, AsLow, AsHigh, KeepsBucket, Max, Min;
    var end := begin + count;
    forall i | begin <= i < end && SampleValue(samples[i], metric).Finite?
      ensures AsLow(r, samples, metric, begin, end, i) && AsHigh(r, samples, metric, begin, end, i)
    {
      RangeValues(r, samples, metric, begin, count, buckets, i);
    }
    forall i | FirstMissing(samples, metric, begin, end, i) ensures i in r && Max(begin, i - 1) in r {
      RangeFirstMissing(r, samples, metric, begin, count, buckets, i);
    }
    forall i | LastMissing(samples, metric, begin, end, i) ensures i in r && Min(end - 1, i + 1) in r {
      RangeLastMissing(r, samples, metric, begin, count, buckets, i);
    }
  }

  lemma BucketInside(k: nat, count: nat, buckets: nat)
    requires 0 < buckets <= count && k < buckets
    ensures Share(k, count, buckets) < Share(k + 1, count, buckets) <= count
  {
    ShareStep(k, count, buckets);
    ShareWithin(k + 1, count, buckets);
  }
}
