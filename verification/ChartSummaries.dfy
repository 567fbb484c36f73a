/** Range summaries over nine chart metrics, with blocks of 64 samples at the leaves of an implicit binary heap. */
module ChartSummaries {
  import opened Domain

  const METRIC_COUNT: nat := 9
  const BLOCK_SIZE: nat := 64

  /** Positions of the extremes and of the first and last missing value of a range; -1 when there is none. */
  datatype Summary = Summary(low: int, high: int, firstMissing: int, lastMissing: int)

  const EMPTY: Summary := Summary(-1, -1, -1, -1)

  /** The stored tree. No nodes at all means that nothing was built and queries scan. */
  datatype Index = Index(leafCount: nat, nodes: seq<seq<Summary>>)

  const UNBUILT: Index := Index(0, [])

  function SampleValue(sample: FlightSample, metric: int): Reading {
    match metric
    case 0 => sample.altitude
    case 1 => sample.temperature
    case 2 => sample.pressure
    case 3 => sample.acceleration
    case 4 => sample.batteryVoltage
    case 5 => sample.rssi
    case 6 => sample.angularRate
    case 7 => sample.coordinates.latitude
    case 8 => sample.coordinates.longitude
    case _ => NotFinite
  }

  function BoundedSize(samples: seq<FlightSample>): nat {
    Min(|samples|, INT_MAX)
  }

  /** `a < b` on doubles: false as soon as one of them is not a number. */
  predicate Less(a: Reading, b: Reading) {
    a.Finite? && b.Finite? && a.value < b.value
  }

  // ---------------------------------------------------------------------------------------------
  // What a summary means
  // ---------------------------------------------------------------------------------------------

  /** Every stored position may be read. */
  predicate Within(s: Summary, n: nat) {
    -1 <= s.low < n && -1 <= s.high < n && -1 <= s.firstMissing < n && -1 <= s.lastMissing < n
  }

  ghost predicate IsSummary(s: Summary, samples: seq<FlightSample>, metric: int, ids: set<int>)
    requires Within(s, |samples|)
    requires forall i :: i in ids ==> 0 <= i < |samples|
  {
    && (s.low < 0 <==> forall i :: i in ids ==> SampleValue(samples[i], metric).NotFinite?)
    && (s.high < 0 <==> s.low < 0)
    && (s.low >= 0 ==>
          && s.low in ids && s.high in ids
          && SampleValue(samples[s.low], metric).Finite? && SampleValue(samples[s.high], metric).Finite?
          && forall i :: i in ids && SampleValue(samples[i], metric).Finite? ==>
               && SampleValue(samples[s.low], metric).value <= SampleValue(samples[i], metric).value
               && SampleValue(samples[i], metric).value <= SampleValue(samples[s.high], metric).value)
    && (s.firstMissing < 0 <==> forall i :: i in ids ==> SampleValue(samples[i], metric).Finite?)
    && (s.lastMissing < 0 <==> s.firstMissing < 0)
    && (s.firstMissing >= 0 ==>
          && s.firstMissing in ids && s.lastMissing in ids
          && SampleValue(samples[s.firstMissing], metric).NotFinite?
          && SampleValue(samples[s.lastMissing], metric).NotFinite?
          && forall i :: i in ids && SampleValue(samples[i], metric).NotFinite? ==>
               s.firstMissing <= i <= s.lastMissing)
  }

  /** The half-open range of rows. */
  ghost function Rows(begin: int, end: int): (r: set<int>)
    ensures forall i :: i in r <==> begin <= i < end
    decreases end - begin
  {
    if end <= begin then {} else Rows(begin, end - 1) + {end - 1}
  }

  // ---------------------------------------------------------------------------------------------
  // Growing and merging summaries
  // ---------------------------------------------------------------------------------------------

  function Include(s: Summary, samples: seq<FlightSample>, metric: int, index: nat): (r: Summary)
    requires index < |samples| && Within(s, |samples|)
    ensures Within(r, |samples|)
  {
    var value := SampleValue(samples[index], metric);
    if value.NotFinite? then
      s.(firstMissing := if s.firstMissing < 0 then index else s.firstMissing, lastMissing := index)
    else
      s.(low := if s.low < 0 || Less(value, SampleValue(samples[s.low], metric)) then index else s.low,
         high := if s.high < 0 || Less(SampleValue(samples[s.high], metric), value) then index else s.high)
  }

  function Merge(left: Summary, right: Summary, samples: seq<FlightSample>, metric: int): (r: Summary)
    requires Within(left, |samples|) && Within(right, |samples|)
    ensures Within(r, |samples|)
  {
    var low :=
      if right.low >= 0 && (left.low < 0 ||
           Less(SampleValue(samples[right.low], metric), SampleValue(samples[left.low], metric)))
      then right.low else left.low;
    var high :=
      if right.high >= 0 && (left.high < 0 ||
           Less(SampleValue(samples[left.high], metric), SampleValue(samples[right.high], metric)))
      then right.high else left.high;
    if right.firstMissing >= 0 then
      Summary(low, high,
              if left.firstMissing < 0 || right.firstMissing < left.firstMissing
              then right.firstMissing else left.firstMissing,
              Max(left.lastMissing, right.lastMissing))
    else
      Summary(low, high, left.firstMissing, left.lastMissing)
  }

  lemma EmptySummary(samples: seq<FlightSample>, metric: int)
    ensures IsSummary(EMPTY, samples, metric, {})
  {
  }

  /** `include` adds one row, provided the rows already there come before it. */
  lemma IncludeSound(s: Summary, samples: seq<FlightSample>, metric: int, ids: set<int>, index: nat)
    requires index < |samples|
    requires forall i :: i in ids ==> 0 <= i < index
    requires Within(s, |samples|) && IsSummary(s, samples, metric, ids)
    ensures IsSummary(Include(s, samples, metric, index), samples, metric, ids + {index})
  {
    var r := Include(s, samples, metric, index);
    assert index in ids + {index};
  }

  /** `merge` is the summary of the union, whatever the order in which the parts come. */
  lemma MergeSound(left: Summary, right: Summary, samples: seq<FlightSample>, metric: int, a: set<int>, b: set<int>)
    requires forall i :: i in a || i in b ==> 0 <= i < |samples|
    requires Within(left, |samples|) && Within(right, |samples|)
    requires IsSummary(left, samples, metric, a) && IsSummary(right, samples, metric, b)
    ensures IsSummary(Merge(left, right, samples, metric), samples, metric, a + b)
  {
    var r := Merge(left, right, samples, metric);
    assert forall i :: i in a ==> i in a + b;
    assert forall i :: i in b ==> i in a + b;
  }

  // ---------------------------------------------------------------------------------------------
  // The heap
  // ---------------------------------------------------------------------------------------------

  ghost predicate PowerOfTwo(n: nat) {
    n == 1 || (n > 1 && n % 2 == 0 && PowerOfTwo(n / 2))
  }

  /** Rows of the 64-row blocks `[first, last)`, cut at `count`. */
  ghost function BlockRows(first: int, last: int, count: nat): set<int> {
    Rows(first * BLOCK_SIZE, Min(last * BLOCK_SIZE, count))
  }

  /** The rows below a node, read off the heap: a leaf has one block, an inner node what its children have. */
  ghost function Span(node: nat, leafCount: nat, count: nat): set<int>
    requires node > 0
    decreases 2 * leafCount - node
  {
    if node >= leafCount then BlockRows(node - leafCount, node - leafCount + 1, count)
    else Span(2 * node, leafCount, count) + Span(2 * node + 1, leafCount, count)
  }

  predicate Shaped(index: Index, n: nat) {
    && |index.nodes| == 2 * index.leafCount
    && (forall k :: 0 <= k < |index.nodes| ==> |index.nodes[k]| == METRIC_COUNT)
    && (forall k, m :: 0 <= k < |index.nodes| && 0 <= m < METRIC_COUNT ==> Within(index.nodes[k][m], n))
  }

  /** One node: the nine summaries of the same rows. */
  ghost predicate RowHolds(row: seq<Summary>, samples: seq<FlightSample>, ids: set<int>) {
    && |row| == METRIC_COUNT
    && (forall i :: i in ids ==> 0 <= i < |samples|)
    && (forall m :: 0 <= m < METRIC_COUNT ==> Within(row[m], |samples|) && IsSummary(row[m], samples, m, ids))
  }

  /** Node 1 is the root; each node summarises exactly the rows below it. */
  ghost predicate Built(index: Index, samples: seq<FlightSample>) {
    && Shaped(index, |samples|)
    && PowerOfTwo(index.leafCount)
    && BoundedSize(samples) <= index.leafCount * BLOCK_SIZE
    && NodesHold(index, samples, 1, BoundedSize(samples))
  }

  /** The nodes from `from` on summarise the first `count` rows. */
  ghost predicate NodesHold(index: Index, samples: seq<FlightSample>, from: nat, count: nat)
    requires |index.nodes| == 2 * index.leafCount && from > 0
  {
    forall k :: from <= k < 2 * index.leafCount ==> RowHolds(index.nodes[k], samples, Span(k, index.leafCount, count))
  }

  function IncludeRow(row: seq<Summary>, samples: seq<FlightSample>, i: nat): (r: seq<Summary>)
    requires |row| == METRIC_COUNT && i < |samples|
    requires forall m :: 0 <= m < METRIC_COUNT ==> Within(row[m], |samples|)
    ensures |r| == METRIC_COUNT && forall m :: 0 <= m < METRIC_COUNT ==> Within(r[m], |samples|)
  {
    seq(METRIC_COUNT, m requires 0 <= m < METRIC_COUNT => Include(row[m], samples, m, i))
  }

  function MergeRow(left: seq<Summary>, right: seq<Summary>, samples: seq<FlightSample>): (r: seq<Summary>)
    requires |left| == METRIC_COUNT && forall m :: 0 <= m < METRIC_COUNT ==> Within(left[m], |samples|)
    requires |right| == METRIC_COUNT && forall m :: 0 <= m < METRIC_COUNT ==> Within(right[m], |samples|)
    ensures |r| == METRIC_COUNT && forall m :: 0 <= m < METRIC_COUNT ==> Within(r[m], |samples|)
  {
    seq(METRIC_COUNT, m requires 0 <= m < METRIC_COUNT => Merge(left[m], right[m], samples, m))
  }

  lemma IncludeRowSound(row: seq<Summary>, samples: seq<FlightSample>, ids: set<int>, i: nat)
    requires RowHolds(row, samples, ids) && i < |samples| && forall k :: k in ids ==> k < i
    ensures RowHolds(IncludeRow(row, samples, i), samples, ids + {i})
  {
    hide IsSummary, Include;
    var r := IncludeRow(row, samples, i);
    forall m | 0 <= m < METRIC_COUNT ensures IsSummary(r[m], samples, m, ids + {i}) {
      IncludeSound(row[m], samples, m, ids, i);
    }
  }

  lemma MergeRowSound(left: seq<Summary>, right: seq<Summary>, samples: seq<FlightSample>, a: set<int>, b: set<int>)
    requires RowHolds(left, samples, a) && RowHolds(right, samples, b)
    ensures RowHolds(MergeRow(left, right, samples), samples, a + b)
  {
    hide IsSummary, Merge;
    var r := MergeRow(left, right, samples);
    forall m | 0 <= m < METRIC_COUNT ensures IsSummary(r[m], samples, m, a + b) {
      MergeSound(left[m], right[m], samples, m, a, b);
    }
  }

  /** An empty tree holds no rows yet. */
  lemma NothingHeld(index: Index, samples: seq<FlightSample>)
    requires |index.nodes| == 2 * index.leafCount && index.leafCount > 0
    requires Shaped(index, |samples|)
    requires forall k, m :: 0 <= k < |index.nodes| && 0 <= m < METRIC_COUNT ==> index.nodes[k][m] == EMPTY
    ensures NodesHold(index, samples, index.leafCount, 0)
  {
    hide IsSummary;
    forall k | index.leafCount <= k < 2 * index.leafCount
      ensures RowHolds(index.nodes[k], samples, Span(k, index.leafCount, 0))
    {
      assert Span(k, index.leafCount, 0) == {};
      forall m | 0 <= m < METRIC_COUNT ensures IsSummary(index.nodes[k][m], samples, m, {}) {
        assert index.nodes[k][m] == EMPTY;
        EmptySummary(samples, m);
      }
    }
  }

  /** Row `count` belongs to exactly one leaf. */
  lemma LeafStep(index: Index, next: Index, samples: seq<FlightSample>, count: nat)
    requires Shaped(index, |samples|) && index.leafCount > 0
    requires count < |samples| && count < index.leafCount * BLOCK_SIZE
    requires NodesHold(index, samples, index.leafCount, count)
    requires var k := index.leafCount + count / BLOCK_SIZE;
             next == index.(nodes := index.nodes[k := IncludeRow(index.nodes[k], samples, count)])
    ensures NodesHold(next, samples, index.leafCount, count + 1)
  {
    hide IsSummary;
    var leaf := index.leafCount + count / BLOCK_SIZE;
    forall k | index.leafCount <= k < 2 * index.leafCount
      ensures RowHolds(next.nodes[k], samples, Span(k, index.leafCount, count + 1))
    {
      assert RowHolds(index.nodes[k], samples, Span(k, index.leafCount, count));
      if k == leaf {
        IncludeRowSound(index.nodes[k], samples, Span(k, index.leafCount, count), count);
        assert Span(k, index.leafCount, count) + {count} == Span(k, index.leafCount, count + 1);
      } else {
        assert Span(k, index.leafCount, count) == Span(k, index.leafCount, count + 1);
      }
    }
  }

  /** An inner node holds what its children hold. */
  lemma InnerStep(index: Index, next: Index, samples: seq<FlightSample>, node: nat, count: nat)
    requires Shaped(index, |samples|) && 0 < node < index.leafCount
    requires NodesHold(index, samples, node + 1, count)
    requires next == index.(nodes := index.nodes[node := MergeRow(index.nodes[2 * node], index.nodes[2 * node + 1], samples)])
    ensures NodesHold(next, samples, node, count)
  {
    hide RowHolds, MergeRow;
    assert RowHolds(index.nodes[2 * node], samples, Span(2 * node, index.leafCount, count));
    assert RowHolds(index.nodes[2 * node + 1], samples, Span(2 * node + 1, index.leafCount, count));
    MergeRowSound(index.nodes[2 * node], index.nodes[2 * node + 1], samples,
                  Span(2 * node, index.leafCount, count), Span(2 * node + 1, index.leafCount, count));
  }

  lemma BlockRowsJoin(a: nat, b: nat, c: nat, count: nat)
    requires a <= b <= c
    ensures BlockRows(a, b, count) + BlockRows(b, c, count) == BlockRows(a, c, count)
  {
  }

  /** Halving the width doubles the level: the children of a node split its blocks in the middle. */
  lemma HalfWidths(node: nat, level: nat, half: nat)
    requires half > 0 && 0 < level <= node < 2 * level
    ensures node < 2 * level <= level * (2 * half) == (2 * level) * half
    ensures (2 * node - 2 * level) * half == (node - level) * (2 * half)
    ensures (2 * node + 1 - 2 * level) * half == (node - level) * (2 * half) + half
  {
    var k := node - level;
    assert (2 * k) * half == k * (2 * half);
    assert (2 * k + 1) * half == (2 * k) * half + half;
    assert level * (2 * half) >= level * 2;
  }

  /**
   * At the level that starts at node `level`, every node covers `width` whole blocks, in order from left to right.
   */
  lemma {:induction false} SpanIsInterval(node: nat, level: nat, width: nat, first: nat, leafCount: nat, count: nat)
    requires PowerOfTwo(width) && level * width == leafCount && 0 < level <= node < 2 * level
    requires first == (node - level) * width
    ensures Span(node, leafCount, count) == BlockRows(first, first + width, count)
    decreases width
  {
    hide BlockRows;
    if width == 1 {
    } else {
      var half := width / 2;
      assert node < leafCount && (2 * level) * half == leafCount
        && (2 * node - 2 * level) * half == first && (2 * node + 1 - 2 * level) * half == first + half by {
        HalfWidths(node, level, half);
      }
      SpanIsInterval(2 * node, 2 * level, half, first, leafCount, count);
      SpanIsInterval(2 * node + 1, 2 * level, half, first + half, leafCount, count);
      BlockRowsJoin(first, first + half, first + width, count);
    }
  }
}
