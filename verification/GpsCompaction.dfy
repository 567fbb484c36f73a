/** Compaction of the live trajectory does not move anything on the display. */
module GpsCompaction {
  import opened Domain
  import opened GpsTrajectory
  import opened RealArithmetic

  // ---------------------------------------------------------------------------------------------
  // Everything the display knows about a row is the bracket of anchors around it
  // ---------------------------------------------------------------------------------------------

  datatype Bracket = Bracket(previous: Option<Anchor>, next: Option<Anchor>, exact: bool)

  function BracketAt(fixes: seq<Fix>, index: int): Bracket {
    var next := LowerBound(fixes, index as real);
    Bracket(if next == 0 then None else Some(fixes[next - 1].anchor),
            if next == |fixes| then None else Some(fixes[next].anchor),
            next < |fixes| && fixes[next].index == index as real)
  }

  /** What is drawn for a sample whose row has this bracket. */
  function Show(b: Bracket, sample: FlightSample): Coordinates {
    if !ValidSample(sample) then sample.coordinates
    else if b.exact && b.next.Some? then Coordinates(Finite(b.next.value.latitude), Finite(b.next.value.longitude))
    else if b.previous.None? || b.next.None? || !Bridges(b.previous.value, b.next.value, sample) then sample.coordinates
    else
      var p, n := b.previous.value, b.next.value;
      Interpolate(p, n, (sample.timestamp - p.timestamp) as real / (n.timestamp - p.timestamp) as real)
  }

  function SegmentOf(b: Bracket): int {
    if b.exact && b.next.Some? then b.next.value.segment
    else if b.previous.Some? then b.previous.value.segment else 0
  }

  lemma LowerBoundIs(fixes: seq<Fix>, x: real, k: nat)
    requires Sorted(fixes) && k <= |fixes|
    requires k > 0 ==> fixes[k - 1].index < x
    requires k < |fixes| ==> x <= fixes[k].index
    ensures LowerBound(fixes, x) == k
  {
    assert forall i :: 0 <= i < k ==> fixes[i].index <= fixes[k - 1].index;
  }

  lemma UpperBoundIs(fixes: seq<Fix>, x: real, k: nat)
    requires Sorted(fixes) && k <= |fixes|
    requires k > 0 ==> fixes[k - 1].index <= x
    requires k < |fixes| ==> x < fixes[k].index
    ensures UpperBound(fixes, x) == k
  {
    assert forall i :: 0 <= i < k ==> fixes[i].index <= fixes[k - 1].index;
  }

  /** Position and segment of a row are functions of its bracket. */
  lemma BracketShows(t: Trajectory, index: int, sample: FlightSample)
    requires Sorted(t.fixes)
    ensures CoordinateAt(t, index, sample) == Show(BracketAt(t.fixes, index), sample)
    ensures SegmentAt(t, index) == SegmentOf(BracketAt(t.fixes, index))
  {
    hide Interpolate, ValidSample;
    var next := LowerBound(t.fixes, index as real);
    if next < |t.fixes| && t.fixes[next].index == index as real {
      UpperBoundIs(t.fixes, index as real, next + 1);
    } else {
      UpperBoundIs(t.fixes, index as real, next);
    }
  }

  // ---------------------------------------------------------------------------------------------
  // Dropping fixes
  // ---------------------------------------------------------------------------------------------

  ghost predicate Positions(pos: seq<int>, n: nat) {
    StrictlyIncreasing(pos) && forall k :: 0 <= k < |pos| ==> 0 <= pos[k] < n
  }

  ghost function Pick(fixes: seq<Fix>, pos: seq<int>): (r: seq<Fix>)
    requires Positions(pos, |fixes|)
    ensures |r| == |pos| && forall k :: 0 <= k < |r| ==> r[k] == fixes[pos[k]]
  {
    seq(|pos|, k requires 0 <= k < |pos| => fixes[pos[k]])
  }

  /** Both anchors of row `index` are picked. */
  ghost predicate HasAnchors(fixes: seq<Fix>, pos: seq<int>, index: int) {
    var next := LowerBound(fixes, index as real);
    (next > 0 ==> next - 1 in pos) && (next < |fixes| ==> next in pos)
  }

  lemma Adjacent(pos: seq<int>, j: nat, k: nat)
    requires StrictlyIncreasing(pos) && j < |pos| && k < |pos| && pos[j] + 1 == pos[k]
    ensures j + 1 == k
  {
    assert forall i :: 0 <= i < j ==> pos[i] < pos[j];
    assert forall i :: j + 1 < i < |pos| ==> pos[j] < pos[j + 1] < pos[i];
  }

  /** A pick that has both anchors of a row has the same bracket there: nothing can lie between the two. */
  lemma PickBracket(fixes: seq<Fix>, pos: seq<int>, index: int)
    requires Sorted(fixes) && Positions(pos, |fixes|) && HasAnchors(fixes, pos, index)
    ensures Sorted(Pick(fixes, pos))
    ensures BracketAt(Pick(fixes, pos), index) == BracketAt(fixes, index)
  {
    var next := LowerBound(fixes, index as real);
    var k := PickedBound(fixes, pos, index);
    LowerBoundIs(Pick(fixes, pos), index as real, k);
  }

  /** Where the lower bound of a row lands among the picked fixes. */
  lemma PickedBound(fixes: seq<Fix>, pos: seq<int>, index: int) returns (k: nat)
    requires Sorted(fixes) && Positions(pos, |fixes|) && HasAnchors(fixes, pos, index)
    ensures var next := LowerBound(fixes, index as real);
            && k <= |pos| && (k == 0 <==> next == 0) && (k == |pos| <==> next == |fixes|)
            && (next > 0 ==> pos[k - 1] == next - 1) && (next < |fixes| ==> pos[k] == next)
  {
    hide Sorted, LowerBound;
    var next := LowerBound(fixes, index as real);
    assert pos != [] ==> 0 <= pos[0] < |fixes|;
    if next < |fixes| {
      k :| 0 <= k < |pos| && pos[k] == next;
      if next > 0 {
        var j :| 0 <= j < |pos| && pos[j] == next - 1;
        Adjacent(pos, j, k);
      } else {
        assert forall i :: 0 < i < |pos| ==> pos[0] < pos[i];
      }
    } else {
      k := |pos|;
      if next > 0 {
        var j :| 0 <= j < |pos| && pos[j] == next - 1;
        assert forall i :: 0 <= i < |pos| - 1 ==> pos[i] < pos[|pos| - 1];
      }
    }
  }

  lemma PositionsExtend(pos: seq<int>, p: int, n: nat)
    requires Positions(pos, n) && 0 <= p < n && (pos == [] || pos[|pos| - 1] < p)
    ensures Positions(pos + [p], n)
  {
  }

  /** `keep` on positions. */
  lemma KeepPicks(fixes: seq<Fix>, pos: seq<int>, p: int) returns (r: seq<int>)
    requires Sorted(fixes) && Positions(pos, |fixes|) && 0 <= p < |fixes|
    ensures Positions(r, |fixes|) && Keep(Pick(fixes, pos), fixes[p]) == Pick(fixes, r)
    ensures r == if pos == [] || pos[|pos| - 1] < p then pos + [p] else pos
    ensures (forall v :: v in pos ==> v in r) && (p in r || (pos != [] && p < pos[|pos| - 1]))
  {
    var picked := Pick(fixes, pos);
    if pos == [] || pos[|pos| - 1] < p {
      r := pos + [p];
      PositionsExtend(pos, p, |fixes|);
      assert Pick(fixes, r) == picked + [fixes[p]];
      assert pos != [] ==> picked[|picked| - 1] == fixes[pos[|pos| - 1]];
    } else {
      r := pos;
      assert picked[|picked| - 1] == fixes[pos[|pos| - 1]];
      assert p == pos[|pos| - 1] || fixes[p].index < fixes[pos[|pos| - 1]].index;
    }
  }

  lemma LowerBoundMonotone(fixes: seq<Fix>, x: real, y: real)
    requires Sorted(fixes) && x <= y
    ensures LowerBound(fixes, x) <= LowerBound(fixes, y)
  {
  }

  /** The fix before the row, which may be there already, but not behind a later one. */
  lemma KeepBeforePicks(fixes: seq<Fix>, before: seq<int>, next: nat) returns (pos: seq<int>)
    requires Sorted(fixes) && Positions(before, |fixes|) && 0 < next <= |fixes|
    requires before != [] ==> before[|before| - 1] <= next && (before[|before| - 1] == next ==> next - 1 in before)
    ensures Positions(pos, |fixes|) && Keep(Pick(fixes, before), fixes[next - 1]) == Pick(fixes, pos)
    ensures next - 1 in pos && pos[|pos| - 1] <= next && forall v :: v in before ==> v in pos
  {
    hide Positions, Sorted, Pick, Keep;
    pos := KeepPicks(fixes, before, next - 1);
  }

  lemma KeepAroundPicks(fixes: seq<Fix>, before: seq<int>, index: int) returns (pos: seq<int>)
    requires Sorted(fixes) && Positions(before, |fixes|)
    requires var next := LowerBound(fixes, index as real);
             before != [] ==> before[|before| - 1] <= next && (before[|before| - 1] == next > 0 ==> next - 1 in before)
    ensures Positions(pos, |fixes|) && KeepAround(fixes, Pick(fixes, before), index) == Pick(fixes, pos)
    ensures HasAnchors(fixes, pos, index) && forall v :: v in before ==> v in pos
    ensures pos != [] ==> pos[|pos| - 1] <= LowerBound(fixes, index as real)
  {
    hide Positions, Sorted, Pick, Keep, LowerBound;
    var next := LowerBound(fixes, index as real);
    pos := before;
    if next != 0 {
      pos := KeepBeforePicks(fixes, before, next);
    }
    if next != |fixes| {
      var middle := pos;
      pos := KeepPicks(fixes, middle, next);
    }
  }

  lemma PickNothing(fixes: seq<Fix>)
    ensures Positions([], |fixes|) && Pick(fixes, []) == []
  {
  }

  lemma AnchorBefore(fixes: seq<Fix>, pos: seq<int>, index: int)
    requires HasAnchors(fixes, pos, index)
    ensures LowerBound(fixes, index as real) > 0 ==> LowerBound(fixes, index as real) - 1 in pos
  {
  }

  lemma AnchorsMore(fixes: seq<Fix>, pos: seq<int>, more: seq<int>, index: int)
    requires HasAnchors(fixes, pos, index) && forall v :: v in pos ==> v in more
    ensures HasAnchors(fixes, more, index)
  {
  }

  /** Walking over sorted rows never skips an anchor that is still needed. */
  lemma {:induction false} KeepAllPicks(fixes: seq<Fix>, indices: seq<int>) returns (pos: seq<int>)
    requires Sorted(fixes) && Nondecreasing(indices)
    ensures Positions(pos, |fixes|) && KeepAll(fixes, indices) == Pick(fixes, pos)
    ensures forall m :: 0 <= m < |indices| ==> HasAnchors(fixes, pos, indices[m])
    ensures pos != [] ==> indices != [] && pos[|pos| - 1] <= LowerBound(fixes, indices[|indices| - 1] as real)
    decreases |indices|
  {
    hide Positions, Sorted, Pick, KeepAround, HasAnchors, LowerBound;
    if indices == [] {
      pos := [];
      PickNothing(fixes);
    } else {
      var init, index := indices[..|indices| - 1], indices[|indices| - 1];
      var before := KeepAllPicks(fixes, init);
      if before != [] {
        LowerBoundMonotone(fixes, init[|init| - 1] as real, index as real);
        AnchorBefore(fixes, before, init[|init| - 1]);
      }
      pos := KeepAroundPicks(fixes, before, index);
      forall m | 0 <= m < |indices| ensures HasAnchors(fixes, pos, indices[m]) {
        if m < |init| {
          assert HasAnchors(fixes, before, init[m]);
          AnchorsMore(fixes, before, pos, init[m]);
        }
      }
    }
  }

  /**
   * Dropping fixes is invisible on the retained rows: same position for any sample, same segment, same bracket for
   * whatever is appended later.
   */
  lemma RetainInvisible(t: Trajectory, indices: seq<int>, m: nat, sample: FlightSample)
    requires Sorted(t.fixes) && Nondecreasing(indices) && m < |indices|
    ensures var r := RetainSamples(t, indices);
            && Sorted(r.fixes)
            && BracketAt(r.fixes, indices[m]) == BracketAt(t.fixes, indices[m])
            && CoordinateAt(r, indices[m], sample) == CoordinateAt(t, indices[m], sample)
            && SegmentAt(r, indices[m]) == SegmentAt(t, indices[m])
  {
    hide CoordinateAt, SegmentAt, Show, SegmentOf, BracketAt;
    var pos := RetainPicks(t, indices);
    var r := RetainSamples(t, indices);
    PickBracket(t.fixes, pos, indices[m]);
    BracketShows(t, indices[m], sample);
    BracketShows(r, indices[m], sample);
  }

  lemma NoAnchors(pos: seq<int>, index: int)
    ensures HasAnchors([], pos, index)
  {
  }

  /** Retention is a pick with all needed anchors and the newest fix. */
  lemma RetainPicks(t: Trajectory, indices: seq<int>) returns (pos: seq<int>)
    requires Sorted(t.fixes) && Nondecreasing(indices)
    ensures Positions(pos, |t.fixes|) && RetainSamples(t, indices) == t.(fixes := Pick(t.fixes, pos))
    ensures forall m :: 0 <= m < |indices| ==> HasAnchors(t.fixes, pos, indices[m])
    ensures t.fixes != [] ==> pos != [] && pos[|pos| - 1] == |t.fixes| - 1
  {
    hide HasAnchors, Pick, KeepAll;
    if t.fixes == [] {
      pos := [];
      PickNothing(t.fixes);
      forall m | 0 <= m < |indices| ensures HasAnchors(t.fixes, pos, indices[m]) {
        NoAnchors(pos, indices[m]);
      }
    } else {
      var before := KeepAllPicks(t.fixes, indices);
      pos := KeepPicks(t.fixes, before, |t.fixes| - 1);
      forall m | 0 <= m < |indices| ensures HasAnchors(t.fixes, pos, indices[m]) {
        AnchorsMore(t.fixes, before, pos, indices[m]);
      }
    }
  }

  // ---------------------------------------------------------------------------------------------
  // Renumbering
  // ---------------------------------------------------------------------------------------------

  /** Renumbering compares with row `k` exactly as the old index compares with the row that became row `k`. */
  lemma RenumberCompares(indices: seq<int>, x: real, k: nat)
    requires StrictlyIncreasing(indices) && k < |indices|
    ensures Renumber(indices, x) < k as real <==> x < indices[k] as real
    ensures Renumber(indices, x) == k as real <==> x == indices[k] as real
  {
    if |indices| > 1 {
      var upper := UpperRow(indices, x);
      var high := Clamp(upper, 1, |indices| - 1);
      var low := high - 1;
      QuotientSign(x - indices[low] as real, (indices[high] - indices[low]) as real);
      if k < low {
        assert indices[k] < indices[low];
      } else if high < k {
        assert indices[high] < indices[k];
      }
    }
  }

  /** Renumbering keeps the order of any two indices. */
  lemma RenumberIncreasing(indices: seq<int>, x: real, y: real)
    requires indices != [] && StrictlyIncreasing(indices) && x < y
    ensures Renumber(indices, x) < Renumber(indices, y)
  {
    if |indices| > 1 {
      var hx := Clamp(UpperRow(indices, x), 1, |indices| - 1);
      var hy := Clamp(UpperRow(indices, y), 1, |indices| - 1);
      if hx == hy {
        QuotientIncreasing(x - indices[hx - 1] as real, y - indices[hx - 1] as real, (indices[hx] - indices[hx - 1]) as real);
      } else {
        assert hx < hy;
        RenumberCompares(indices, x, hx);
        RenumberCompares(indices, y, hx);
      }
    }
  }

  /** Between two neighbouring rows, renumbering keeps the proportion; the outermost pairs also govern what lies outside. */
  lemma RenumberProportional(indices: seq<int>, x: real, k: nat)
    requires StrictlyIncreasing(indices) && k + 1 < |indices|
    requires (k > 0 ==> indices[k] as real <= x) && (k + 2 < |indices| ==> x <= indices[k + 1] as real)
    ensures (Renumber(indices, x) - k as real) * (indices[k + 1] - indices[k]) as real == x - indices[k] as real
  {
    hide Renumber;
    var d := (indices[k + 1] - indices[k]) as real;
    if k + 2 < |indices| && x == indices[k + 1] as real {
      RenumberCompares(indices, x, k + 1);
    } else {
      RenumberForm(indices, x, k);
      QuotientTimes(x - indices[k] as real, d);
    }
  }

  lemma RenumberForm(indices: seq<int>, x: real, k: nat)
    requires StrictlyIncreasing(indices) && k + 1 < |indices|
    requires (k > 0 ==> indices[k] as real <= x) && (k + 2 < |indices| ==> x < indices[k + 1] as real)
    ensures Renumber(indices, x) == k as real + (x - indices[k] as real) / (indices[k + 1] - indices[k]) as real
  {
    var high := Clamp(UpperRow(indices, x), 1, |indices| - 1);
    assert high == k + 1;
  }

  /** Renumbering is invisible: row `k` shows what row `indices[k]` showed. */
  lemma RebaseInvisible(t: Trajectory, indices: seq<int>, k: nat, sample: FlightSample)
    requires Sorted(t.fixes) && StrictlyIncreasing(indices) && k < |indices|
    ensures var r := RebaseIndices(t, indices);
            && Sorted(r.fixes)
            && BracketAt(r.fixes, k) == BracketAt(t.fixes, indices[k])
            && CoordinateAt(r, k, sample) == CoordinateAt(t, indices[k], sample)
            && SegmentAt(r, k) == SegmentAt(t, indices[k])
  {
    hide Renumber, CoordinateAt, SegmentAt, Show, SegmentOf;
    var r := RebaseIndices(t, indices);
    forall i, j | 0 <= i < j < |r.fixes| ensures r.fixes[i].index < r.fixes[j].index {
      RenumberIncreasing(indices, t.fixes[i].index, t.fixes[j].index);
    }
    var next := LowerBound(t.fixes, indices[k] as real);
    if next > 0 {
      RenumberCompares(indices, t.fixes[next - 1].index, k);
    }
    if next < |t.fixes| {
      RenumberCompares(indices, t.fixes[next].index, k);
    }
    LowerBoundIs(r.fixes, k as real, next);
    BracketShows(t, indices[k], sample);
    BracketShows(r, k, sample);
  }
}
