/** The steps of the display timeline, counted over the rows of the recording. */
module PreviewSteps {
  import opened Domain
  import opened PreviewTimeline

  function StepTo(ts: seq<int>, i: nat): int
    requires 0 < i < |ts|
  {
    ts[i] - ts[i - 1]
  }

  /** The rows before `end` with a good step before them, and the step inside some limits. */
  ghost function GoodRows(ts: seq<int>, end: nat, inside: int -> bool): (r: set<nat>)
    requires end <= |ts|
    ensures forall i :: i in r <==> 0 < i < end && GoodStep(StepTo(ts, i)) && inside(StepTo(ts, i))
  {
    set i: nat | 0 < i < end && GoodStep(StepTo(ts, i)) && inside(StepTo(ts, i))
  }

  ghost function BadRows(ts: seq<int>, end: nat): (r: set<nat>)
    requires end <= |ts|
    ensures forall i :: i in r <==> 0 < i < end && !GoodStep(StepTo(ts, i))
  {
    set i: nat | 0 < i < end && !GoodStep(StepTo(ts, i))
  }

  function Count(s: seq<int>, inside: int -> bool): nat {
    if s == [] then 0 else Count(s[..|s| - 1], inside) + (if inside(s[|s| - 1]) then 1 else 0)
  }

  lemma CountSnoc(s: seq<int>, x: int, inside: int -> bool)
    ensures Count(s + [x], inside) == Count(s, inside) + (if inside(x) then 1 else 0)
  {
    assert (s + [x])[..|s|] == s;
  }

  lemma {:induction false} CountCons(s: seq<int>, x: int, inside: int -> bool)
    ensures Count([x] + s, inside) == Count(s, inside) + (if inside(x) then 1 else 0)
    decreases |s|
  {
    if s == [] {
      CountSnoc([], x, inside);
      assert [] + [x] == [x] + s;
    } else {
      var init, last := s[..|s| - 1], s[|s| - 1];
      CountCons(init, x, inside);
      CountSnoc([x] + init, last, inside);
      assert [x] + s == [x] + init + [last];
    }
  }

  /** Sorting does not change how many there are. */
  lemma {:induction false} InsertCounts(s: seq<int>, x: int, inside: int -> bool)
    ensures Count(InsertAscending(s, x), inside) == Count(s, inside) + (if inside(x) then 1 else 0)
  {
    CountCons(s, x, inside);
    if s != [] && x > s[0] {
      InsertCounts(s[1..], x, inside);
      CountCons(s[1..], s[0], inside);
      CountCons(InsertAscending(s[1..], x), s[0], inside);
      assert s == [s[0]] + s[1..];
    }
  }

  lemma {:induction false} SortCounts(s: seq<int>, inside: int -> bool)
    ensures Count(SortAscending(s), inside) == Count(s, inside)
  {
    if s != [] {
      SortCounts(s[..|s| - 1], inside);
      InsertCounts(SortAscending(s[..|s| - 1]), s[|s| - 1], inside);
    }
  }

  /** The collected steps are those of the rows. */
  lemma {:induction false} StepsAreRows(ts: seq<int>, end: nat, inside: int -> bool)
    requires end <= |ts|
    ensures Count(GoodSteps(ts, end), inside) == |GoodRows(ts, end, inside)|
    decreases end
  {
    hide GoodRows, GoodStep, Count;
    if end <= 1 {
      assert GoodRows(ts, end, inside) == {};
      NothingCounted(inside);
    } else {
      StepsAreRows(ts, end - 1, inside);
      OneMoreRow(ts, end - 1, inside);
      if GoodStep(StepTo(ts, end - 1)) {
        CountSnoc(GoodSteps(ts, end - 1), StepTo(ts, end - 1), inside);
      } else {
        assert GoodSteps(ts, end - 1) + [] == GoodSteps(ts, end - 1);
      }
    }
  }

  lemma NothingCounted(inside: int -> bool)
    ensures Count([], inside) == 0
  {
  }

  lemma OneMoreRow(ts: seq<int>, i: nat, inside: int -> bool)
    requires 0 < i < |ts|
    ensures var step := StepTo(ts, i);
            |GoodRows(ts, i + 1, inside)| == |GoodRows(ts, i, inside)| + (if GoodStep(step) && inside(step) then 1 else 0)
  {
    hide GoodStep, GoodRows;
    var step, before := StepTo(ts, i), GoodRows(ts, i, inside);
    assert GoodRows(ts, i + 1, inside) == if GoodStep(step) && inside(step) then before + {i} else before;
  }

  lemma {:induction false} CountAll(s: seq<int>)
    ensures Count(s, _ => true) == |s|
  {
    if s != [] {
      CountAll(s[..|s| - 1]);
    }
  }

  /** Only entries at some positions are inside. */
  lemma {:induction false} CountWithin(s: seq<int>, inside: int -> bool, from: nat, to: nat)
    requires from <= to <= |s| && forall k :: 0 <= k < |s| && inside(s[k]) ==> from <= k < to
    ensures Count(s, inside) <= to - from
    decreases |s|
  {
    if s != [] {
      var last := |s| - 1;
      if inside(s[last]) {
        CountWithin(s[..last], inside, from, last);
      } else {
        CountWithin(s[..last], inside, Min(from, last), Min(to, last));
      }
    }
  }

  lemma {:induction false} StepOfSomeRow(ts: seq<int>, end: nat, k: nat) returns (i: nat)
    requires end <= |ts| && k < |GoodSteps(ts, end)|
    ensures 0 < i < end && GoodStep(StepTo(ts, i)) && StepTo(ts, i) == GoodSteps(ts, end)[k]
    decreases end
  {
    if k < |GoodSteps(ts, end - 1)| {
      i := StepOfSomeRow(ts, end - 1, k);
    } else {
      i := end - 1;
    }
  }

  /**
   * The replacement step is the upper median of the recording: a good step of some row, with at most half of the good
   * rows below it and fewer than the rest above it; a millisecond when no step is good.
   */
  lemma MedianOfRows(ts: seq<int>) returns (i: nat)
    ensures var m, good := Median(ts), |GoodRows(ts, |ts|, _ => true)|;
            && (good == 0 ==> m == 1)
            && (good > 0 ==>
                  && 0 < i < |ts| && GoodStep(StepTo(ts, i)) && StepTo(ts, i) == m
                  && |GoodRows(ts, |ts|, step => step < m)| <= good / 2
                  && |GoodRows(ts, |ts|, step => step > m)| < good - good / 2)
  {
    hide GoodSteps, SortAscending, Median;
    var m, steps := Median(ts), GoodSteps(ts, |ts|);
    StepsAreRows(ts, |ts|, _ => true);
    CountAll(steps);
    if steps == [] {
      NoGoodStep(ts);
      i := 0;
    } else {
      MedianInTheMiddle(ts);
      var sorted := SortAscending(steps);
      MedianAmong(sorted, steps);
      var k :| 0 <= k < |steps| && steps[k] == m;
      i := StepOfSomeRow(ts, |ts|, k);
      SideCounts(ts, sorted, step => step < m, 0, |steps| / 2);
      SideCounts(ts, sorted, step => step > m, |steps| / 2 + 1, |steps|);
    }
  }

  lemma NoGoodStep(ts: seq<int>)
    requires GoodSteps(ts, |ts|) == []
    ensures Median(ts) == 1
  {
  }

  lemma MedianAmong(sorted: seq<int>, steps: seq<int>)
    requires multiset(sorted) == multiset(steps) && sorted != []
    ensures |sorted| == |steps| && sorted[|sorted| / 2] in steps
  {
    assert |multiset(sorted)| == |sorted|;
    assert sorted[|sorted| / 2] in multiset(sorted);
  }

  lemma SideCounts(ts: seq<int>, sorted: seq<int>, inside: int -> bool, from: nat, to: nat)
    requires sorted == SortAscending(GoodSteps(ts, |ts|)) && from <= to <= |sorted|
    requires forall k :: 0 <= k < |sorted| && inside(sorted[k]) ==> from <= k < to
    ensures |GoodRows(ts, |ts|, inside)| <= to - from
  {
    SortCounts(GoodSteps(ts, |ts|), inside);
    StepsAreRows(ts, |ts|, inside);
    CountWithin(sorted, inside, from, to);
  }

  /** The number of discontinuities is the number of rows with a bad step before them. */
  lemma {:induction false} BadStepsAreRows(ts: seq<int>, end: nat)
    requires end <= |ts|
    ensures BadSteps(ts, end) == |BadRows(ts, end)|
    decreases end
  {
    if end <= 1 {
      assert BadRows(ts, end) == {};
    } else {
      BadStepsAreRows(ts, end - 1);
      var before := BadRows(ts, end - 1);
      assert BadRows(ts, end) == if GoodStep(StepTo(ts, end - 1)) then before else before + {end - 1};
    }
  }
}
