/** The missing-value query, which leaves as soon as it has seen one. */
module ChartMissing {
  import opened Domain
  import opened ChartSummaries
  import opened ChartQuery

  function ScanMissing(samples: seq<FlightSample>, metric: int, begin: nat, end: nat): bool
    requires begin <= end <= |samples|
    decreases end - begin
  {
    begin < end && (SampleValue(samples[begin], metric).NotFinite? || ScanMissing(samples, metric, begin + 1, end))
  }

  /** The first block boundary, or nothing when a missing value comes first. */
  function SkipFront(samples: seq<FlightSample>, metric: int, begin: nat, end: nat): (r: Option<nat>)
    requires begin <= end <= |samples|
    ensures r.Some? ==> begin <= r.value <= end
    decreases end - begin
  {
    if begin < end && begin % BLOCK_SIZE != 0 then
      if SampleValue(samples[begin], metric).NotFinite? then None else SkipFront(samples, metric, begin + 1, end)
    else Some(begin)
  }

  function SkipBack(samples: seq<FlightSample>, metric: int, begin: nat, end: nat): (r: Option<nat>)
    requires begin <= end <= |samples|
    ensures r.Some? ==> begin <= r.value <= end
    decreases end
  {
    if begin < end && end % BLOCK_SIZE != 0 then
      if SampleValue(samples[end - 1], metric).NotFinite? then None else SkipBack(samples, metric, begin, end - 1)
    else Some(end)
  }

  function WalkMissing(index: Index, metric: nat, left: nat, right: nat): bool
    requires |index.nodes| == 2 * index.leafCount && metric < METRIC_COUNT
    requires forall k :: 0 <= k < |index.nodes| ==> |index.nodes[k]| == METRIC_COUNT
    requires left <= right <= |index.nodes|
    decreases right
  {
    if left == right then false
    else if left % 2 != 0 && index.nodes[left][metric].firstMissing >= 0 then true
    else if right % 2 != 0 && index.nodes[right - 1][metric].firstMissing >= 0 then true
    else
      var left1 := if left % 2 != 0 then left + 1 else left;
      var right1 := if right % 2 != 0 then right - 1 else right;
      WalkMissing(index, metric, left1 / 2, right1 / 2)
  }

  function HasMissing(index: Index, samples: seq<FlightSample>, metric: int, begin: int, end: int): bool
    requires Shaped(index, |samples|)
    requires index.nodes == [] || BoundedSize(samples) <= index.leafCount * BLOCK_SIZE
  {
    if metric < 0 || metric >= METRIC_COUNT then true
    else
      var b: nat := Clamp(begin, 0, BoundedSize(samples));
      var e: nat := Clamp(end, b, BoundedSize(samples));
      if index.nodes == [] then ScanMissing(samples, metric, b, e) else TreeMissing(index, samples, metric, b, e)
  }

  function TreeMissing(index: Index, samples: seq<FlightSample>, metric: nat, begin: nat, end: nat): bool
    requires Shaped(index, |samples|) && metric < METRIC_COUNT
    requires begin <= end <= |samples| && end <= index.leafCount * BLOCK_SIZE
  {
    var front := SkipFront(samples, metric, begin, end);
    if front.None? then true
    else
      var back := SkipBack(samples, metric, front.value, end);
      if back.None? then true
      else WalkMissing(index, metric, front.value / BLOCK_SIZE + index.leafCount, back.value / BLOCK_SIZE + index.leafCount)
  }

  lemma {:induction false} ScanMissingExact(samples: seq<FlightSample>, metric: int, begin: nat, end: nat)
    requires begin <= end <= |samples|
    ensures ScanMissing(samples, metric, begin, end)
       <==> exists i :: begin <= i < end && SampleValue(samples[i], metric).NotFinite?
    decreases end - begin
  {
    if begin < end {
      ScanMissingExact(samples, metric, begin + 1, end);
      assert begin < end && SampleValue(samples[begin], metric).NotFinite? ==>
        exists i :: begin <= i < end && SampleValue(samples[i], metric).NotFinite?;
    }
  }

  /** The early exits of the border loops agree with the summaries that `Front` and `Back` would have collected. */
  lemma {:induction false} SkipFrontAgrees(samples: seq<FlightSample>, metric: int, acc: Summary, begin: nat, end: nat)
    requires begin <= end <= |samples| && Within(acc, |samples|) && acc.firstMissing < 0
    ensures var (s, b) := Front(samples, metric, acc, begin, end);
            var skip := SkipFront(samples, metric, begin, end);
            (skip.None? <==> s.firstMissing >= 0) && (skip.Some? ==> skip.value == b)
    decreases end - begin
  {
    if begin < end && begin % BLOCK_SIZE != 0 {
      if SampleValue(samples[begin], metric).NotFinite? {
        FrontKeepsMissing(samples, metric, Include(acc, samples, metric, begin), begin + 1, end);
      } else {
        SkipFrontAgrees(samples, metric, Include(acc, samples, metric, begin), begin + 1, end);
      }
    }
  }

  lemma {:induction false} FrontKeepsMissing(samples: seq<FlightSample>, metric: int, acc: Summary, begin: nat, end: nat)
    requires begin <= end <= |samples| && Within(acc, |samples|) && acc.firstMissing >= 0
    ensures Front(samples, metric, acc, begin, end).0.firstMissing >= 0
    decreases end - begin
  {
    if begin < end && begin % BLOCK_SIZE != 0 {
      FrontKeepsMissing(samples, metric, Include(acc, samples, metric, begin), begin + 1, end);
    }
  }

  lemma {:induction false} SkipBackAgrees(samples: seq<FlightSample>, metric: int, acc: Summary, begin: nat, end: nat)
    requires begin <= end <= |samples| && Within(acc, |samples|)
    ensures var (s, e) := Back(samples, metric, acc, begin, end);
            var skip := SkipBack(samples, metric, begin, end);
            && (acc.firstMissing >= 0 ==> s.firstMissing >= 0)
            && (acc.firstMissing < 0 ==> (skip.None? <==> s.firstMissing >= 0))
            && (skip.Some? ==> skip.value == e)
    decreases end
  {
    if begin < end && end % BLOCK_SIZE != 0 {
      var tail := Include(EMPTY, samples, metric, end - 1);
      SkipBackAgrees(samples, metric, Merge(acc, tail, samples, metric), begin, end - 1);
    }
  }

  lemma {:induction false} WalkMissingAgrees(index: Index, samples: seq<FlightSample>, metric: nat, acc: Summary, left: nat, right: nat)
    requires Shaped(index, |samples|) && metric < METRIC_COUNT && Within(acc, |samples|)
    requires left <= right <= |index.nodes|
    ensures Walk(index, samples, metric, acc, left, right).firstMissing >= 0
       <==> acc.firstMissing >= 0 || WalkMissing(index, metric, left, right)
    decreases right
  {
    if left != right {
      var (acc1, left1) := TakeLeft(index, samples, metric, acc, left);
      var (acc2, right1) := TakeRight(index, samples, metric, acc1, right);
      WalkMissingAgrees(index, samples, metric, acc2, left1 / 2, right1 / 2);
    }
  }

  /**
   * On any index that queries use, `hasMissing` answers what a scan of the clamped range answers; a metric that does not
   * exist counts as missing.
   */
  lemma HasMissingExact(index: Index, samples: seq<FlightSample>, metric: int, begin: int, end: int)
    requires index == UNBUILT || Built(index, samples)
    ensures !(0 <= metric < 9) ==> HasMissing(index, samples, metric, begin, end)
    ensures 0 <= metric < 9 ==>
            var b := Clamp(begin, 0, BoundedSize(samples));
            var e := Clamp(end, b, BoundedSize(samples));
            HasMissing(index, samples, metric, begin, end) ==
              exists i :: b <= i < e && SampleValue(samples[i], metric).NotFinite?
  {
    var b: nat := Clamp(begin, 0, BoundedSize(samples));
    var e: nat := Clamp(end, b, BoundedSize(samples));
    if index == UNBUILT {
      ScanMissingExact(samples, metric, b, e);
    } else if 0 <= metric < METRIC_COUNT {
      hide Query, TreeMissing;
      QueryMissing(index, samples, metric, b, e);
      TreeMissingIsQuery(index, samples, metric, b, e);
    }
  }

  lemma TreeMissingIsQuery(index: Index, samples: seq<FlightSample>, metric: nat, begin: nat, end: nat)
    requires Shaped(index, |samples|) && metric < METRIC_COUNT && index.nodes != []
    requires begin <= end <= |samples| && end <= index.leafCount * BLOCK_SIZE
    ensures TreeMissing(index, samples, metric, begin, end) <==> Query(index, samples, metric, begin, end).firstMissing >= 0
  {
    hide Front, Back, Walk, SkipFront, SkipBack, WalkMissing;
    var (front, b) := Front(samples, metric, EMPTY, begin, end);
    var (both, e) := Back(samples, metric, front, b, end);
    SkipFrontAgrees(samples, metric, EMPTY, begin, end);
    SkipBackAgrees(samples, metric, front, b, end);
    WalkMissingAgrees(index, samples, metric, both, b / BLOCK_SIZE + index.leafCount, e / BLOCK_SIZE + index.leafCount);
  }

  lemma QueryMissing(index: Index, samples: seq<FlightSample>, metric: nat, b: nat, e: nat)
    requires Built(index, samples) && metric < METRIC_COUNT && b <= e <= BoundedSize(samples)
    ensures Query(index, samples, metric, b, e).firstMissing >= 0
       <==> exists i :: b <= i < e && SampleValue(samples[i], metric).NotFinite?
  {
    QuerySound(index, samples, metric, b, e);
    var s := Query(index, samples, metric, b, e);
    assert IsSummary(s, samples, metric, Rows(b, e));
    assert forall i :: i in Rows(b, e) <==> b <= i < e;
    if s.firstMissing >= 0 {
      assert s.firstMissing in Rows(b, e);
    }
  }
}
