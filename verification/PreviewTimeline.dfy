/**
 * The corrected display timeline in whole milliseconds: bad timestamp steps are replaced by the median good step.
 * Lookups by time work on this timeline.
 */
module PreviewTimeline {
  import opened Domain
  import opened EvenSpread

  const LONG_MAX: int := 0x7fff_ffff_ffff_ffff

  predicate GoodStep(delta: int) {
    0 < delta <= LONG_MAX
  }

  // ---------------------------------------------------------------------------------------------
  // The median good step
  // ---------------------------------------------------------------------------------------------

  function InsertAscending(s: seq<int>, x: int): (r: seq<int>)
    ensures multiset(r) == multiset(s) + multiset{x} && |r| == |s| + 1
  {
    if s == [] || x <= s[0] then [x] + s
    else
      assert s == [s[0]] + s[1..];
      [s[0]] + InsertAscending(s[1..], x)
  }

  lemma {:induction false} InsertKeepsAscending(s: seq<int>, x: int)
    requires Nondecreasing(s)
    ensures Nondecreasing(InsertAscending(s, x))
  {
    if s != [] && x > s[0] {
      InsertKeepsAscending(s[1..], x);
      var rest := InsertAscending(s[1..], x);
      forall k | 0 <= k < |rest| ensures s[0] <= rest[k] {
        assert rest[k] in multiset(rest);
        assert rest[k] == x || rest[k] in s[1..];
      }
    }
  }

  /** The order that `std::nth_element` establishes around its position, here for all positions. */
  function SortAscending(s: seq<int>): (r: seq<int>)
    ensures multiset(r) == multiset(s) && |r| == |s|
  {
    if s == [] then []
    else
      assert s == s[..|s| - 1] + [s[|s| - 1]];
      InsertAscending(SortAscending(s[..|s| - 1]), s[|s| - 1])
  }

  lemma {:induction false} SortIsAscending(s: seq<int>)
    ensures Nondecreasing(SortAscending(s))
  {
    if s != [] {
      SortIsAscending(s[..|s| - 1]);
      InsertKeepsAscending(SortAscending(s[..|s| - 1]), s[|s| - 1]);
    }
  }

  /** The good steps between the first `end` timestamps. */
  function GoodSteps(ts: seq<int>, end: nat): (r: seq<int>)
    requires end <= |ts|
    ensures forall v :: v in r ==> GoodStep(v)
  {
    if end <= 1 then []
    else
      var delta := ts[end - 1] - ts[end - 2];
      GoodSteps(ts, end - 1) + (if GoodStep(delta) then [delta] else [])
  }

  function Median(ts: seq<int>): (m: int)
    ensures GoodStep(m)
  {
    var steps := GoodSteps(ts, |ts|);
    if steps == [] then 1
    else
      var sorted := SortAscending(steps);
      assert sorted[|steps| / 2] in multiset(sorted);
      Max(1, sorted[|steps| / 2])
  }

  // ---------------------------------------------------------------------------------------------
  // The timeline
  // ---------------------------------------------------------------------------------------------

  /** The displayed step to row `i`. */
  function DisplayStep(ts: seq<int>, i: nat): (d: int)
    requires 0 < i < |ts|
    ensures GoodStep(d)
  {
    if GoodStep(ts[i] - ts[i - 1]) then ts[i] - ts[i - 1] else Median(ts)
  }

  function TimeOf(ts: seq<int>, i: nat): (t: nat)
    requires i < |ts|
  {
    if i == 0 then 0 else TimeOf(ts, i - 1) + DisplayStep(ts, i)
  }

  function Timeline(ts: seq<int>): (t: seq<int>)
    ensures |t| == |ts| && forall i :: 0 <= i < |t| ==> t[i] == TimeOf(ts, i)
  {
    seq(|ts|, i requires 0 <= i < |ts| => TimeOf(ts, i))
  }

  /** How many of the first `end` rows have a bad step before them. */
  function BadSteps(ts: seq<int>, end: nat): nat
    requires end <= |ts|
  {
    if end <= 1 then 0
    else BadSteps(ts, end - 1) + (if GoodStep(ts[end - 1] - ts[end - 2]) then 0 else 1)
  }

  lemma {:induction false} TimeIncreases(ts: seq<int>, i: nat, j: nat)
    requires i < j < |ts|
    ensures TimeOf(ts, i) < TimeOf(ts, j)
    decreases j
  {
    hide DisplayStep;
    if i < j - 1 {
      TimeIncreases(ts, i, j - 1);
    }
  }

  lemma {:induction false} NoBadStepsBelow(ts: seq<int>, i: nat, end: nat)
    requires 0 < i < end <= |ts| && BadSteps(ts, end) == 0
    ensures GoodStep(ts[i] - ts[i - 1])
    decreases end
  {
    if i < end - 1 {
      NoBadStepsBelow(ts, i, end - 1);
    }
  }

  ghost predicate IsRaw(ts: seq<int>, i: nat)
    requires i < |ts|
  {
    TimeOf(ts, i) == ts[i] - ts[0]
  }

  lemma {:induction false} RawUntilBad(ts: seq<int>, end: nat)
    requires 0 < end <= |ts|
    ensures BadSteps(ts, end) == 0 <==> forall i :: 0 <= i < end ==> IsRaw(ts, i)
    decreases end
  {
    hide Median;
    if end > 1 {
      RawUntilBad(ts, end - 1);
      assert IsRaw(ts, end - 2) ==> (IsRaw(ts, end - 1) <==> GoodStep(ts[end - 1] - ts[end - 2]));
    }
  }

  /**
   * The timeline starts at zero and strictly increases, whatever the timestamps. Every good step is kept and every bad
   * one replaced by the median, so it is the raw elapsed time exactly when no step is bad.
   */
  lemma TimelineSound(ts: seq<int>)
    ensures var t := Timeline(ts);
            && (ts != [] ==> t[0] == 0) && StrictlyIncreasing(t)
            && (forall i :: 0 < i < |ts| ==>
                  t[i] - t[i - 1] == if 0 < ts[i] - ts[i - 1] <= LONG_MAX then ts[i] - ts[i - 1] else Median(ts))
            && (ts != [] ==> (BadSteps(ts, |ts|) == 0 <==> forall i :: 0 <= i < |ts| ==> t[i] == ts[i] - ts[0]))
  {
    hide DisplayStep, BadSteps, Median;
    var t := Timeline(ts);
    forall i | 0 < i < |ts|
      ensures t[i] - t[i - 1] == if 0 < ts[i] - ts[i - 1] <= LONG_MAX then ts[i] - ts[i - 1] else Median(ts)
    {
      NextRow(ts, i);
    }
    forall i, j | 0 <= i < j < |t| ensures t[i] < t[j] {
      TimeIncreases(ts, i, j);
    }
    if ts != [] {
      RawUntilBad(ts, |ts|);
      assert forall i :: 0 <= i < |ts| ==> (t[i] == ts[i] - ts[0] <==> IsRaw(ts, i));
    }
  }

  /** The median is one of the good steps; those in the lower half are not above it, those in the upper half not below. */
  lemma MedianInTheMiddle(ts: seq<int>)
    requires GoodSteps(ts, |ts|) != []
    ensures var sorted := SortAscending(GoodSteps(ts, |ts|));
            && Nondecreasing(sorted) && multiset(sorted) == multiset(GoodSteps(ts, |ts|))
            && Median(ts) == sorted[|sorted| / 2]
            && (forall k :: 0 <= k <= |sorted| / 2 ==> sorted[k] <= Median(ts))
            && (forall k :: |sorted| / 2 <= k < |sorted| ==> Median(ts) <= sorted[k])
  {
    hide GoodSteps, SortAscending;
    var steps := GoodSteps(ts, |ts|);
    SortIsAscending(steps);
    var sorted := SortAscending(steps);
    assert sorted[|steps| / 2] in multiset(sorted);
    assert sorted[|steps| / 2] in steps;
    MiddleSplits(sorted);
  }

  lemma MiddleSplits(sorted: seq<int>)
    requires Nondecreasing(sorted) && sorted != []
    ensures forall k :: 0 <= k <= |sorted| / 2 ==> sorted[k] <= sorted[|sorted| / 2]
    ensures forall k :: |sorted| / 2 <= k < |sorted| ==> sorted[|sorted| / 2] <= sorted[k]
  {
  }

  /** What the build keeps besides the timeline. */
  datatype Built = Built(timeline: seq<int>, median: int, discontinuities: nat, corrected: bool)

  /** Two passes over the timestamps: collect the good steps, then accumulate the displayed ones. */
  method BuildTimeline(ts: seq<int>) returns (r: Built)
    ensures r.timeline == Timeline(ts)
    ensures ts != [] ==> r.median == Median(ts)
    ensures r.discontinuities == BadSteps(ts, |ts|) && (r.corrected <==> r.discontinuities > 0)
  {
    hide Median, DisplayStep, TimeOf, BadSteps;
    NextRow(ts, 0);
    if ts == [] {
      return Built([], 1, 0, false);
    }
    var median := ComputeMedian(ts);
    var timeline, elapsed, count, corrected := [0], 0, 0, false;
    for i := 1 to |ts|
      invariant |timeline| == i && forall k :: 0 <= k < i ==> timeline[k] == TimeOf(ts, k)
      invariant elapsed == TimeOf(ts, i - 1)
      invariant count == BadSteps(ts, i) && (corrected <==> count > 0)
    {
      var display := ts[i] - ts[i - 1];
      if display <= 0 || display > LONG_MAX {
        display := median;
        count := count + 1;
        corrected := true;
      }
      NextRow(ts, i);
      elapsed := elapsed + display;
      timeline := timeline + [elapsed];
    }
    r := Built(timeline, median, count, corrected);
  }

  lemma NextRow(ts: seq<int>, i: nat)
    requires i < |ts| || i == 0
    ensures ts == [] ==> BadSteps(ts, 0) == 0
    ensures i == 0 && ts != [] ==> TimeOf(ts, 0) == 0 && BadSteps(ts, 1) == 0
    ensures 0 < i ==>
              var good := GoodStep(ts[i] - ts[i - 1]);
              && TimeOf(ts, i) == TimeOf(ts, i - 1) + (if good then ts[i] - ts[i - 1] else Median(ts))
              && BadSteps(ts, i + 1) == BadSteps(ts, i) + (if good then 0 else 1)
  {
    hide Median;
  }

  method ComputeMedian(ts: seq<int>) returns (median: int)
    requires ts != []
    ensures median == Median(ts)
  {
    hide SortAscending;
    var positive := [];
    for i := 1 to |ts|
      invariant positive == GoodSteps(ts, i)
    {
      var raw := ts[i] - ts[i - 1];
      if GoodStep(raw) {
        positive := positive + [raw];
      }
    }
    median := 1;
    if positive != [] {
      median := Max(1, SortAscending(positive)[|positive| / 2]);
    }
  }

  // ---------------------------------------------------------------------------------------------
  // Lookups
  // ---------------------------------------------------------------------------------------------

  /** The number of the first `end` entries before `x`: `std::lower_bound` on a sorted timeline. */
  function CountBefore(t: seq<int>, end: nat, x: real): (r: nat)
    requires end <= |t|
    ensures r <= end
  {
    if end == 0 then 0
    else if (t[end - 1] as real) < x then end else CountBefore(t, end - 1, x)
  }

  /** The number of the first `end` entries at or before `x`: `std::upper_bound`. */
  function CountUpTo(t: seq<int>, end: nat, x: real): (r: nat)
    requires end <= |t|
    ensures r <= end
  {
    if end == 0 then 0
    else if t[end - 1] as real <= x then end else CountUpTo(t, end - 1, x)
  }

  lemma {:induction false} CountBeforeExact(t: seq<int>, end: nat, x: real)
    requires end <= |t| && StrictlyIncreasing(t)
    ensures forall i :: 0 <= i < end ==> (i < CountBefore(t, end, x) <==> (t[i] as real) < x)
    decreases end
  {
    if end > 0 && !((t[end - 1] as real) < x) {
      CountBeforeExact(t, end - 1, x);
    }
  }

  lemma {:induction false} CountUpToExact(t: seq<int>, end: nat, x: real)
    requires end <= |t| && StrictlyIncreasing(t)
    ensures forall i :: 0 <= i < end ==> (i < CountUpTo(t, end, x) <==> t[i] as real <= x)
    decreases end
  {
    if end > 0 && !(t[end - 1] as real <= x) {
      CountUpToExact(t, end - 1, x);
    }
  }

  ghost predicate InWindow(t: seq<int>, i: int, lo: real, hi: real)
    requires 0 <= i < |t|
  {
    lo <= t[i] as real <= hi
  }

  /**
   * The rows of a visible time window within the first `endLimit` rows: exactly those, when there are any; otherwise
   * the last row before the window, or row 0 when all rows are behind it.
   */
  method VisibleRange(t: seq<int>, lo: Reading, hi: Reading, endLimit: int) returns (begin: nat, end: nat)
    requires StrictlyIncreasing(t)
    ensures var capped := Clamp(endLimit, 0, |t|);
            && begin <= end <= capped
            && (capped == 0 ==> end == 0)
            && (capped > 0 ==> begin < end)
            && (lo.NotFinite? || hi.NotFinite? || lo.value > hi.value ==> begin == 0 && end == capped)
            && (lo.Finite? && hi.Finite? && lo.value <= hi.value ==>
                  && ((exists i :: 0 <= i < capped && InWindow(t, i, lo.value, hi.value)) ==>
                        forall i :: 0 <= i < capped ==> (begin <= i < end <==> InWindow(t, i, lo.value, hi.value)))
                  && (capped > 0 && (forall i :: 0 <= i < capped ==> !InWindow(t, i, lo.value, hi.value)) ==>
                        && end == begin + 1
                        && (forall i :: begin < i < capped ==> hi.value < t[i] as real)
                        && (begin == 0 || (t[begin] as real) < lo.value)))
  {
    var capped := Clamp(endLimit, 0, |t|);
    if capped <= 0 {
      return 0, 0;
    }
    if lo.NotFinite? || hi.NotFinite? || lo.value > hi.value {
      return 0, capped;
    }
    CountBeforeExact(t, capped, lo.value);
    CountUpToExact(t, capped, hi.value);
    var b, e := CountBefore(t, capped, lo.value), CountUpTo(t, capped, hi.value);
    begin := Clamp(b, 0, capped);
    end := Clamp(e, begin, capped);
    if begin == end {
      assert forall i :: 0 <= i < capped ==> !InWindow(t, i, lo.value, hi.value);
      begin := Clamp(begin - 1, 0, capped - 1);
      end := begin + 1;
    } else {
      assert InWindow(t, begin, lo.value, hi.value);
    }
  }

  function Distance(a: int, x: real): real {
    if (a as real) < x then x - a as real else a as real - x
  }

  /** A display time as a `double`: a number, or one of the values that are none. */
  datatype DisplayTime = Number(x: real) | NotANumber | MinusInfinity | PlusInfinity

  /**
   * The row nearest to a time; the earlier one on a tie. Nothing comes before a time that is no number, so it leads to
   * row 0, and everything comes before positive infinity.
   */
  method NearestRow(t: seq<int>, time: DisplayTime) returns (r: nat)
    requires StrictlyIncreasing(t)
    ensures t == [] ==> r == 0
    ensures time.NotANumber? || time.MinusInfinity? ==> r == 0
    ensures t != [] && time.PlusInfinity? ==> r == |t| - 1
    ensures t != [] && time.Number? ==> r < |t| && forall i :: 0 <= i < |t| ==>
              if i < r then Distance(t[r], time.x) < Distance(t[i], time.x) else Distance(t[r], time.x) <= Distance(t[i], time.x)
  {
    if t == [] {
      return 0;
    }
    var hi: nat;
    match time {
      case Number(x) =>
        CountBeforeExact(t, |t|, x);
        hi := CountBefore(t, |t|, x);
      case PlusInfinity => hi := |t|;
      case _ => hi := 0;
    }
    if hi == 0 {
      return 0;
    }
    if hi == |t| {
      return |t| - 1;
    }
    r := NearerOf(t, hi, time.x);
  }

  /** Of the rows on both sides of a time, the nearer one is nearest of all. */
  method NearerOf(t: seq<int>, hi: nat, x: real) returns (r: nat)
    requires StrictlyIncreasing(t) && 0 < hi < |t| && (t[hi - 1] as real) < x <= t[hi] as real
    ensures r < |t| && forall i :: 0 <= i < |t| ==>
              if i < r then Distance(t[r], x) < Distance(t[i], x) else Distance(t[r], x) <= Distance(t[i], x)
  {
    var lo := hi - 1;
    r := if Distance(t[lo], x) <= Distance(t[hi], x) then lo else hi;
    forall i | 0 <= i < |t|
      ensures if i < r then Distance(t[r], x) < Distance(t[i], x) else Distance(t[r], x) <= Distance(t[i], x)
    {
      assert i < lo ==> t[i] < t[lo];
      assert hi < i ==> t[hi] < t[i];
    }
  }

  /**
   * Evenly spread entries of a list that is too long, first and last included; `unique` finds nothing to remove. A
   * negative budget counts as unlimited. A budget of one would divide by zero once there is something to leave out.
   */
  method CappedIndices(source: seq<int>, maxPoints: int) returns (out: seq<int>)
    requires StrictlyIncreasing(source) && (maxPoints == 1 ==> |source| <= 1)
    ensures maxPoints < 0 || |source| <= maxPoints ==> out == source
    ensures maxPoints == 0 ==> out == []
    ensures 0 < maxPoints < |source| ==>
              |out| == maxPoints && out[0] == source[0] && out[maxPoints - 1] == source[|source| - 1]
    ensures 0 < maxPoints < |source| ==> forall k :: 0 <= k < maxPoints ==>
              Share(k, |source| - 1, maxPoints - 1) < |source| && out[k] == source[Share(k, |source| - 1, maxPoints - 1)]
    ensures StrictlyIncreasing(out) && forall v :: v in out ==> v in source
  {
    if maxPoints < 0 || |source| <= maxPoints {
      return source;
    }
    if maxPoints == 0 {
      return [];
    }
    hide Share;
    var last, denom := |source| - 1, maxPoints - 1;
    ShareEnds(last, denom);
    out := [];
    for i := 0 to maxPoints
      invariant |out| == i
      invariant forall k :: 0 <= k < i ==> Share(k, last, denom) <= last && out[k] == source[Share(k, last, denom)]
      invariant StrictlyIncreasing(out)
    {
      forall k | 0 <= k < i ensures Share(k, last, denom) < Share(i, last, denom) {
        ShareIncreasing(k, i, last, denom);
      }
      if i < denom {
        ShareIncreasing(i, denom, last, denom);
      }
      out := out + [source[Share(i, last, denom)]];
    }
  }
}
