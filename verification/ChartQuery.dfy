/** The range query of the chart overview: border rows, then a bottom-up walk over whole blocks. */
module ChartQuery {
  import opened Domain
  import opened EvenSpread
  import opened ChartSummaries

  /** The plain scan, row by row from the left. */
  function Scan(samples: seq<FlightSample>, metric: int, acc: Summary, begin: nat, end: nat): (r: Summary)
    requires begin <= end <= |samples| && Within(acc, |samples|)
    ensures Within(r, |samples|)
    decreases end - begin
  {
    if begin == end then acc
    else Scan(samples, metric, Include(acc, samples, metric, begin), begin + 1, end)
  }

  /** Rows in front of the first block boundary. */
  function Front(samples: seq<FlightSample>, metric: int, acc: Summary, begin: nat, end: nat): (r: (Summary, nat))
    requires begin <= end <= |samples| && Within(acc, |samples|)
    ensures Within(r.0, |samples|) && begin <= r.1 <= end
    decreases end - begin
  {
    if begin < end && begin % BLOCK_SIZE != 0
    then Front(samples, metric, Include(acc, samples, metric, begin), begin + 1, end)
    else (acc, begin)
  }

  /** Rows behind the last block boundary, from the right. */
  function Back(samples: seq<FlightSample>, metric: int, acc: Summary, begin: nat, end: nat): (r: (Summary, nat))
    requires begin <= end <= |samples| && Within(acc, |samples|)
    ensures Within(r.0, |samples|) && begin <= r.1 <= end
    decreases end
  {
    if begin < end && end % BLOCK_SIZE != 0
    then
      var tail := Include(EMPTY, samples, metric, end - 1);
      Back(samples, metric, Merge(acc, tail, samples, metric), begin, end - 1)
    else (acc, end)
  }

  /** An odd left border is a right child: it is taken alone and the border moves past it. */
  function TakeLeft(index: Index, samples: seq<FlightSample>, metric: nat, acc: Summary, left: nat): (r: (Summary, nat))
    requires Shaped(index, |samples|) && metric < METRIC_COUNT && Within(acc, |samples|) && left < |index.nodes|
    ensures Within(r.0, |samples|) && r.1 == left + left % 2
  {
    if left % 2 != 0 then (Merge(acc, index.nodes[left][metric], samples, metric), left + 1) else (acc, left)
  }

  /** An odd right border has a left child before it, which is taken alone. */
  function TakeRight(index: Index, samples: seq<FlightSample>, metric: nat, acc: Summary, right: nat): (r: (Summary, nat))
    requires Shaped(index, |samples|) && metric < METRIC_COUNT && Within(acc, |samples|) && right <= |index.nodes|
    ensures Within(r.0, |samples|) && r.1 == right - right % 2
  {
    if right % 2 != 0 then (Merge(acc, index.nodes[right - 1][metric], samples, metric), right - 1) else (acc, right)
  }

  /** Whole blocks, bottom-up. */
  function Walk(index: Index, samples: seq<FlightSample>, metric: nat, acc: Summary, left: nat, right: nat): (r: Summary)
    requires Shaped(index, |samples|) && metric < METRIC_COUNT && Within(acc, |samples|)
    requires left <= right <= |index.nodes|
    ensures Within(r, |samples|)
    decreases right
  {
    if left == right then acc
    else
      var (acc1, left1) := TakeLeft(index, samples, metric, acc, left);
      var (acc2, right1) := TakeRight(index, samples, metric, acc1, right);
      Walk(index, samples, metric, acc2, left1 / 2, right1 / 2)
  }

  lemma WalkUnfold(index: Index, samples: seq<FlightSample>, metric: nat, acc: Summary, left: nat, right: nat)
    requires Shaped(index, |samples|) && metric < METRIC_COUNT && Within(acc, |samples|)
    requires left <= right <= |index.nodes|
    ensures left == right ==> Walk(index, samples, metric, acc, left, right) == acc
    ensures left < right ==>
              var (acc1, left1) := TakeLeft(index, samples, metric, acc, left);
              var (acc2, right1) := TakeRight(index, samples, metric, acc1, right);
              Walk(index, samples, metric, acc, left, right) == Walk(index, samples, metric, acc2, left1 / 2, right1 / 2)
  {
    hide TakeLeft, TakeRight, Shaped, Within;
  }

  function Query(index: Index, samples: seq<FlightSample>, metric: nat, begin: nat, end: nat): (r: Summary)
    requires Shaped(index, |samples|) && metric < METRIC_COUNT
    requires begin <= end <= |samples|
    requires index.nodes == [] || end <= index.leafCount * BLOCK_SIZE
    ensures Within(r, |samples|)
  {
    if index.nodes == [] then Scan(samples, metric, EMPTY, begin, end)
    else
      var (front, b) := Front(samples, metric, EMPTY, begin, end);
      var (both, e) := Back(samples, metric, front, b, end);
      Walk(index, samples, metric, both, b / BLOCK_SIZE + index.leafCount, e / BLOCK_SIZE + index.leafCount)
  }

  lemma {:induction false} ScanSound(samples: seq<FlightSample>, metric: int, acc: Summary, from: nat, begin: nat, end: nat)
    requires from <= begin <= end <= |samples|
    requires Within(acc, |samples|) && IsSummary(acc, samples, metric, Rows(from, begin))
    ensures IsSummary(Scan(samples, metric, acc, begin, end), samples, metric, Rows(from, end))
    decreases end - begin
  {
    hide IsSummary;
    if begin < end {
      IncludeSound(acc, samples, metric, Rows(from, begin), begin);
      assert Rows(from, begin) + {begin} == Rows(from, begin + 1);
      ScanSound(samples, metric, Include(acc, samples, metric, begin), from, begin + 1, end);
    }
  }

  lemma {:induction false} FrontSound(samples: seq<FlightSample>, metric: int, acc: Summary, from: nat, begin: nat, end: nat)
    requires from <= begin <= end <= |samples|
    requires Within(acc, |samples|) && IsSummary(acc, samples, metric, Rows(from, begin))
    ensures var (s, b) := Front(samples, metric, acc, begin, end);
            (b == end || b % BLOCK_SIZE == 0) && IsSummary(s, samples, metric, Rows(from, b))
    decreases end - begin
  {
    hide IsSummary;
    if begin < end && begin % BLOCK_SIZE != 0 {
      IncludeSound(acc, samples, metric, Rows(from, begin), begin);
      assert Rows(from, begin) + {begin} == Rows(from, begin + 1);
      FrontSound(samples, metric, Include(acc, samples, metric, begin), from, begin + 1, end);
    }
  }

  lemma EmptyIsWithin(n: nat)
    ensures Within(EMPTY, n)
  {
  }

  lemma {:induction false} BackSound(samples: seq<FlightSample>, metric: int, acc: Summary,
                                     from: nat, begin: nat, end: nat, to: nat)
    requires from <= begin <= end <= to <= |samples|
    requires Within(acc, |samples|) && IsSummary(acc, samples, metric, Rows(from, begin) + Rows(end, to))
    ensures var (s, e) := Back(samples, metric, acc, begin, end);
            (e == begin || e % BLOCK_SIZE == 0) && IsSummary(s, samples, metric, Rows(from, begin) + Rows(e, to))
    decreases end
  {
    hide IsSummary, Include, Merge, Within;
    EmptyIsWithin(|samples|);
    if begin < end && end % BLOCK_SIZE != 0 {
      var tail := Include(EMPTY, samples, metric, end - 1);
      EmptySummary(samples, metric);
      IncludeSound(EMPTY, samples, metric, {}, end - 1);
      MergeSound(acc, tail, samples, metric, Rows(from, begin) + Rows(end, to), {} + {end - 1});
      assert Rows(from, begin) + Rows(end, to) + ({} + {end - 1}) == Rows(from, begin) + Rows(end - 1, to);
      BackSound(samples, metric, Merge(acc, tail, samples, metric), from, begin, end - 1, to);
    }
  }

  /** The level that starts at node `level` has nodes of `width` blocks each. */
  ghost predicate IsLevel(level: nat, width: nat, leafCount: nat) {
    PowerOfTwo(level) && PowerOfTwo(width) && level * width == leafCount
  }

  /** Position `node` of a level, which may be one past its last node, begins at block `first`. */
  ghost predicate Stands(node: nat, level: nat, width: nat, first: nat) {
    0 < level <= node <= 2 * level && first == (node - level) * width
  }

  /** A node that stands at block `first` of its level has the rows of `width` blocks from there. */
  lemma NodeHolds(index: Index, samples: seq<FlightSample>, metric: nat, node: nat, level: nat, width: nat, first: nat)
    requires Built(index, samples) && metric < METRIC_COUNT
    requires IsLevel(level, width, index.leafCount) && Stands(node, level, width, first) && node < 2 * level
    requires (first + width) * BLOCK_SIZE <= BoundedSize(samples)
    requires node < |index.nodes|
    ensures IsSummary(index.nodes[node][metric], samples, metric, Rows(first * BLOCK_SIZE, (first + width) * BLOCK_SIZE))
  {
    hide IsSummary;
    SpanIsInterval(node, level, width, first, index.leafCount, BoundedSize(samples));
    assert RowHolds(index.nodes[node], samples, Span(node, index.leafCount, BoundedSize(samples)));
  }

  /** The rows `[from, first)` and `[last, to)`, with borders in blocks. */
  ghost function Outside(from: nat, first: nat, last: nat, to: nat): set<int> {
    Rows(from, first * BLOCK_SIZE) + Rows(last * BLOCK_SIZE, to)
  }

  lemma BuiltIsShaped(index: Index, samples: seq<FlightSample>)
    requires Built(index, samples)
    ensures Shaped(index, |samples|)
  {
  }

  lemma NothingBetween(from: nat, border: nat, to: nat)
    requires from <= border * BLOCK_SIZE <= to
    ensures Outside(from, border, border, to) == Rows(from, to)
  {
  }

  /** Taking an odd left border adds the rows of its node, which begins at block `first`. */
  lemma TakeLeftSound(index: Index, samples: seq<FlightSample>, metric: nat, acc: Summary, left: nat,
                      first: nat, width: nat, last: nat, from: nat, to: nat)
    requires Shaped(index, |samples|) && metric < METRIC_COUNT && left < |index.nodes|
    requires from <= first * BLOCK_SIZE && first + width <= last && last * BLOCK_SIZE <= to <= BoundedSize(samples)
    requires IsSummary(index.nodes[left][metric], samples, metric, Rows(first * BLOCK_SIZE, (first + width) * BLOCK_SIZE))
    requires Within(acc, |samples|) && IsSummary(acc, samples, metric, Outside(from, first, last, to))
    ensures IsSummary(TakeLeft(index, samples, metric, acc, left).0, samples, metric,
                      Outside(from, LeftBorder(left, first, width), last, to))
  {
    hide IsSummary;
    if left % 2 != 0 {
      var node := Rows(first * BLOCK_SIZE, (first + width) * BLOCK_SIZE);
      MergeSound(acc, index.nodes[left][metric], samples, metric, Outside(from, first, last, to), node);
      assert Outside(from, first, last, to) + node == Outside(from, first + width, last, to);
    }
  }

  /** Taking the node before an odd right border adds its rows, which end at block `last`. */
  lemma TakeRightSound(index: Index, samples: seq<FlightSample>, metric: nat, acc: Summary, right: nat,
                       first: nat, width: nat, last: nat, from: nat, to: nat)
    requires Shaped(index, |samples|) && metric < METRIC_COUNT && 0 < right <= |index.nodes|
    requires from <= first * BLOCK_SIZE && width <= last && last * BLOCK_SIZE <= to <= BoundedSize(samples)
    requires first <= RightBorder(right, last, width)
    requires IsSummary(index.nodes[right - 1][metric], samples, metric, Rows((last - width) * BLOCK_SIZE, last * BLOCK_SIZE))
    requires Within(acc, |samples|) && IsSummary(acc, samples, metric, Outside(from, first, last, to))
    ensures IsSummary(TakeRight(index, samples, metric, acc, right).0, samples, metric,
                      Outside(from, first, RightBorder(right, last, width), to))
  {
    hide IsSummary;
    if right % 2 != 0 {
      var node := Rows((last - width) * BLOCK_SIZE, last * BLOCK_SIZE);
      MergeSound(acc, index.nodes[right - 1][metric], samples, metric, Outside(from, first, last, to), node);
      assert Outside(from, first, last, to) + node == Outside(from, first, last - width, to);
    }
  }

  /** Both borders of a walk: nodes `left` and `right` of one level stand at blocks `first` and `last`. */
  ghost predicate Standing(index: Index, left: nat, right: nat, level: nat, width: nat, first: nat, last: nat) {
    IsLevel(level, width, index.leafCount) && Stands(left, level, width, first) && Stands(right, level, width, last)
  }

  function LeftBorder(left: nat, first: nat, width: nat): nat {
    if left % 2 == 0 then first else first + width
  }

  function RightBorder(right: nat, last: nat, width: nat): int {
    if right % 2 == 0 then last else last - width
  }

  /** The two border nodes of a walk that is not over have the rows inside the borders. */
  lemma BordersHold(index: Index, samples: seq<FlightSample>, metric: nat, left: nat, right: nat,
                    level: nat, width: nat, first: nat, last: nat)
    requires Built(index, samples) && metric < METRIC_COUNT && last * BLOCK_SIZE <= BoundedSize(samples)
    requires left < right <= |index.nodes| && Standing(index, left, right, level, width, first, last)
    ensures first + width <= last
    ensures IsSummary(index.nodes[left][metric], samples, metric, Rows(first * BLOCK_SIZE, (first + width) * BLOCK_SIZE))
    ensures IsSummary(index.nodes[right - 1][metric], samples, metric, Rows((last - width) * BLOCK_SIZE, last * BLOCK_SIZE))
  {
    hide IsSummary, Built, Rows, IsLevel, Stands;
    Borders(left, right, level, width, index.leafCount, first, last);
    NodeHolds(index, samples, metric, left, level, width, first);
    NodeHolds(index, samples, metric, right - 1, level, width, last - width);
  }

  /** Where the walk goes on, one level up. */
  lemma StandingUp(index: Index, left: nat, right: nat, level: nat, width: nat, first: nat, last: nat)
    requires left < right && Standing(index, left, right, level, width, first, last)
    ensures var left1, right1 := left + left % 2, right - right % 2;
            var first1, last1 := LeftBorder(left, first, width), RightBorder(right, last, width);
            && left1 / 2 <= right1 / 2 && 0 <= first1 <= last1 && first <= first1 && last1 <= last
            && (left1 / 2 == right1 / 2 ==> first1 == last1)
            && (left1 / 2 < right1 / 2 ==> Standing(index, left1 / 2, right1 / 2, level / 2, 2 * width, first1, last1))
  {
    hide IsLevel, Stands;
    Borders(left, right, level, width, index.leafCount, first, last);
    var left1, right1 := left + left % 2, right - right % 2;
    if left1 < right1 {
      LevelUp(left1, right1, level, width, index.leafCount,
              LeftBorder(left, first, width), RightBorder(right, last, width));
    }
  }

  /**
   * The walk covers the blocks `[first, last)` between what was covered on the left of them and on the right.
   * `left` and `right` stand at `first` and `last` of one level; both borders move inwards until they meet.
   */
  lemma {:induction false} WalkSound(index: Index, samples: seq<FlightSample>, metric: nat, acc: Summary,
                                     left: nat, right: nat, level: nat, width: nat, first: nat, last: nat,
                                     from: nat, to: nat)
    requires Built(index, samples) && metric < METRIC_COUNT
    requires left <= right <= |index.nodes|
    requires from <= first * BLOCK_SIZE <= last * BLOCK_SIZE <= to <= BoundedSize(samples)
    requires left == right ==> first == last
    requires left < right ==> Standing(index, left, right, level, width, first, last)
    requires Within(acc, |samples|) && IsSummary(acc, samples, metric, Outside(from, first, last, to))
    ensures IsSummary(Walk(index, samples, metric, acc, left, right), samples, metric, Rows(from, to))
    decreases right
  {
    hide IsSummary, Built, Shaped, Within, Outside, Rows, Standing, TakeLeft, TakeRight, LeftBorder, RightBorder;
    BuiltIsShaped(index, samples);
    if left == right {
      NothingBetween(from, first, to);
    } else {
      StandingUp(index, left, right, level, width, first, last);
      BordersHold(index, samples, metric, left, right, level, width, first, last);
      var first1, last1 := LeftBorder(left, first, width), RightBorder(right, last, width);
      var (acc1, left1) := TakeLeft(index, samples, metric, acc, left);
      TakeLeftSound(index, samples, metric, acc, left, first, width, last, from, to);
      var (acc2, right1) := TakeRight(index, samples, metric, acc1, right);
      TakeRightSound(index, samples, metric, acc1, right, first1, width, last, from, to);
      WalkSound(index, samples, metric, acc2, left1 / 2, right1 / 2, level / 2, 2 * width, first1, last1, from, to);
    }
  }

  /** Moving a border by one node moves its block by one width. */
  lemma Borders(left: nat, right: nat, level: nat, width: nat, leafCount: nat, first: nat, last: nat)
    requires IsLevel(level, width, leafCount) && left < right
    requires Stands(left, level, width, first) && Stands(right, level, width, last)
    ensures right <= 2 * level && first + width <= last
    ensures Stands(left + 1, level, width, first + width) && Stands(right - 1, level, width, last - width)
    ensures left + 1 < right ==> first + width <= last - width
    ensures left + 1 == right ==> first + width == last
    ensures left + 2 == right ==> first + width == last - width
  {
    var a, b := left - level, right - level;
    assert (a + 1) * width == a * width + width;
    assert (b - 1) * width == b * width - width;
    MulLeq(a + 1, b, width);
    if a + 1 < b {
      MulLeq(a + 1, b - 1, width);
    }
  }

  /** Borders that are both left children are borders of the level above. */
  lemma LevelUp(left: nat, right: nat, level: nat, width: nat, leafCount: nat, first: nat, last: nat)
    requires IsLevel(level, width, leafCount) && left < right && left % 2 == 0 && right % 2 == 0
    requires Stands(left, level, width, first) && Stands(right, level, width, last)
    ensures IsLevel(level / 2, 2 * width, leafCount)
    ensures Stands(left / 2, level / 2, 2 * width, first) && Stands(right / 2, level / 2, 2 * width, last)
  {
    hide PowerOfTwo;
    PowersHalve(level, width);
    Halve(level, width);
    StandsUp(left, level, width, first);
    StandsUp(right, level, width, last);
  }

  lemma PowersHalve(level: nat, width: nat)
    requires PowerOfTwo(level) && PowerOfTwo(width)
    ensures level > 1 ==> level % 2 == 0 && PowerOfTwo(level / 2)
    ensures PowerOfTwo(2 * width)
  {
  }

  lemma StandsUp(node: nat, level: nat, width: nat, first: nat)
    requires Stands(node, level, width, first) && node % 2 == 0 && level % 2 == 0
    ensures Stands(node / 2, level / 2, 2 * width, first)
  {
    Halve(node - level, width);
    assert (node - level) / 2 == node / 2 - level / 2;
  }

  lemma Halve(a: nat, width: nat)
    requires a % 2 == 0
    ensures (a / 2) * (2 * width) == a * width
  {
    var h := a / 2;
    assert a == h + h;
    assert h * (2 * width) == h * width + h * width == (h + h) * width;
  }

  /**
   * A query on a built tree is the summary of exactly the rows asked for, and so is the plain scan. The two agree on
   * the missing positions; the extreme positions may differ between equal values, the extreme values may not.
   */
  lemma QueryAgreesWithScan(index: Index, samples: seq<FlightSample>, metric: nat, begin: nat, end: nat)
    requires index == UNBUILT || Built(index, samples)
    requires metric < METRIC_COUNT && begin <= end <= BoundedSize(samples)
    ensures IsSummary(Query(index, samples, metric, begin, end), samples, metric, Rows(begin, end))
    ensures var tree, scan := Query(index, samples, metric, begin, end), Scan(samples, metric, EMPTY, begin, end);
            && tree.firstMissing == scan.firstMissing && tree.lastMissing == scan.lastMissing
            && (tree.low < 0 <==> scan.low < 0) && (tree.high < 0 <==> scan.high < 0)
            && (tree.low >= 0 ==> SampleValue(samples[tree.low], metric) == SampleValue(samples[scan.low], metric))
            && (tree.high >= 0 ==> SampleValue(samples[tree.high], metric) == SampleValue(samples[scan.high], metric))
  {
    var tree, scan := Query(index, samples, metric, begin, end), Scan(samples, metric, EMPTY, begin, end);
    QuerySound(index, samples, metric, begin, end);
    ScanSoundFromEmpty(samples, metric, begin, end);
    SummaryUnique(tree, scan, samples, metric, Rows(begin, end));
  }

  lemma ScanSoundFromEmpty(samples: seq<FlightSample>, metric: int, begin: nat, end: nat)
    requires begin <= end <= |samples|
    ensures IsSummary(Scan(samples, metric, EMPTY, begin, end), samples, metric, Rows(begin, end))
  {
    EmptySummary(samples, metric);
    assert Rows(begin, begin) == {};
    ScanSound(samples, metric, EMPTY, begin, begin, end);
  }

  lemma QuerySound(index: Index, samples: seq<FlightSample>, metric: nat, begin: nat, end: nat)
    requires index == UNBUILT || Built(index, samples)
    requires metric < METRIC_COUNT && begin <= end <= BoundedSize(samples)
    ensures IsSummary(Query(index, samples, metric, begin, end), samples, metric, Rows(begin, end))
  {
    hide IsSummary, Front, Back, Walk, Scan;
    if index == UNBUILT {
      ScanSoundFromEmpty(samples, metric, begin, end);
    } else {
      EmptySummary(samples, metric);
      assert Rows(begin, begin) == {};
      var (front, b) := Front(samples, metric, EMPTY, begin, end);
      FrontSound(samples, metric, EMPTY, begin, begin, end);
      assert Rows(begin, b) + Rows(end, end) == Rows(begin, b);
      var (both, e) := Back(samples, metric, front, b, end);
      BackSound(samples, metric, front, begin, b, end, end);
      BlocksSound(index, samples, metric, both, b, e, begin, end);
    }
  }

  /** The leaves of whole blocks stand at those blocks. */
  lemma LeavesStand(index: Index, samples: seq<FlightSample>, first: nat, last: nat)
    requires Built(index, samples) && first <= last && last * BLOCK_SIZE <= BoundedSize(samples)
    ensures last + index.leafCount <= |index.nodes|
    ensures Standing(index, first + index.leafCount, last + index.leafCount, index.leafCount, 1, first, last)
  {
    hide NodesHold;
  }

  lemma BlocksSound(index: Index, samples: seq<FlightSample>, metric: nat, acc: Summary, b: nat, e: nat, from: nat, to: nat)
    requires Built(index, samples) && metric < METRIC_COUNT
    requires from <= b <= e <= to <= BoundedSize(samples)
    requires b == e || (b % BLOCK_SIZE == 0 && e % BLOCK_SIZE == 0)
    requires Within(acc, |samples|) && IsSummary(acc, samples, metric, Rows(from, b) + Rows(e, to))
    ensures e / BLOCK_SIZE + index.leafCount <= |index.nodes|
    ensures IsSummary(Walk(index, samples, metric, acc, b / BLOCK_SIZE + index.leafCount, e / BLOCK_SIZE + index.leafCount),
                      samples, metric, Rows(from, to))
  {
    hide IsSummary, Built, Shaped, Within, Standing, Walk, Rows;
    BuiltIsShaped(index, samples);
    var first, last := b / BLOCK_SIZE, e / BLOCK_SIZE;
    LeavesStand(index, samples, first, last);
    if b == e {
      WalkUnfold(index, samples, metric, acc, first + index.leafCount, first + index.leafCount);
      assert Rows(from, b) + Rows(e, to) == Rows(from, to);
    } else {
      WalkSound(index, samples, metric, acc, first + index.leafCount, last + index.leafCount,
                index.leafCount, 1, first, last, from, to);
    }
  }

  lemma SummaryUnique(a: Summary, b: Summary, samples: seq<FlightSample>, metric: int, ids: set<int>)
    requires forall i :: i in ids ==> 0 <= i < |samples|
    requires Within(a, |samples|) && IsSummary(a, samples, metric, ids)
    requires Within(b, |samples|) && IsSummary(b, samples, metric, ids)
    ensures (a.low < 0 <==> b.low < 0) && (a.high < 0 <==> b.high < 0)
    ensures a.firstMissing == b.firstMissing && a.lastMissing == b.lastMissing
    ensures a.low >= 0 ==> SampleValue(samples[a.low], metric) == SampleValue(samples[b.low], metric)
    ensures a.high >= 0 ==> SampleValue(samples[a.high], metric) == SampleValue(samples[b.high], metric)
  {
  }
}
