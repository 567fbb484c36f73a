/** The memo of chart selections: transparent for every caller, bounded, and safe under interleaved misses. */
module PreviewCache {
  import opened Domain
  import opened ChartSummaries
  import opened ChartSelection
  import opened ChartOverview

  const MAX_SELECTIONS: nat := 64

  datatype Key = Key(begin: int, end: int, maxPoints: int, mask: nat)

  type Memo = map<Key, seq<int>>

  // ---------------------------------------------------------------------------------------------
  // Flags and masks
  // ---------------------------------------------------------------------------------------------

  function Power2(n: nat): (r: nat)
    ensures r > 0
  {
    if n == 0 then 1 else 2 * Power2(n - 1)
  }

  /** The mask of the first `count` flags, as a number; each bit is set at most once. */
  function MetricMask(enabled: seq<bool>, count: nat): (r: nat)
    requires count <= |enabled|
    ensures r < Power2(count)
  {
    if count == 0 then 0
    else MetricMask(enabled, count - 1) + (if enabled[count - 1] then Power2(count - 1) else 0)
  }

  /** The flags that a mask stands for. */
  function Flags(mask: nat, count: nat): (r: seq<bool>)
    ensures |r| == count
  {
    if count == 0 then []
    else
      var bit := mask >= Power2(count - 1);
      Flags(if bit then mask - Power2(count - 1) else mask, count - 1) + [bit]
  }

  /** Reading the flags back from the mask: different flags never share a mask. */
  lemma {:induction false} MaskRoundTrip(enabled: seq<bool>, count: nat)
    requires count <= |enabled|
    ensures Flags(MetricMask(enabled, count), count) == enabled[..count]
    decreases count
  {
    if count > 0 {
      MaskRoundTrip(enabled, count - 1);
      assert enabled[..count] == enabled[..count - 1] + [enabled[count - 1]];
    }
  }

  // ---------------------------------------------------------------------------------------------
  // The memo under any interleaving
  // ---------------------------------------------------------------------------------------------

  /** The selection that a key stands for. */
  function Selected(index: Index, samples: seq<FlightSample>, key: Key): seq<int>
    requires Usable(index, samples)
  {
    Select(index, samples, key.begin, key.end, key.maxPoints, Flags(key.mask, METRIC_COUNT))
  }

  ghost predicate Sound(memo: Memo, index: Index, samples: seq<FlightSample>)
    requires Usable(index, samples)
  {
    |memo| <= MAX_SELECTIONS && forall key :: key in memo ==> memo[key] == Selected(index, samples, key)
  }

  /** Store under the lock: clear a full memo, and never replace an entry that another caller stored meanwhile. */
  function Store(memo: Memo, key: Key, value: seq<int>): Memo {
    var room := if |memo| >= MAX_SELECTIONS then map[] else memo;
    if key in room then room else room[key := value]
  }

  lemma StoreSound(memo: Memo, index: Index, samples: seq<FlightSample>, key: Key)
    requires Usable(index, samples) && Sound(memo, index, samples)
    ensures Sound(Store(memo, key, Selected(index, samples, key)), index, samples)
  {
    hide Selected, Usable;
    var room := if |memo| >= MAX_SELECTIONS then map[] else memo;
    if key !in room {
      assert room[key := Selected(index, samples, key)].Keys == room.Keys + {key};
    }
  }

  /** A stored key is remembered, with what was remembered before; a full memo forgets everything else. */
  lemma StoreRemembers(memo: Memo, key: Key, value: seq<int>)
    ensures var next := Store(memo, key, value);
            && key in next && next[key] == (if key in memo && |memo| < 64 then memo[key] else value)
            && (|memo| < 64 ==> forall k :: k in memo ==> k in next && next[k] == memo[k])
            && (|memo| >= 64 ==> next == map[key := value])
            && forall k :: k in next ==> k in memo || k == key
  {
  }

  /** What callers do to the shared memo, each under the lock: look a key up, or store what they selected for it. */
  datatype Access = Lookup(key: Key) | Insert(key: Key)

  function MemoAfter(memo: Memo, index: Index, samples: seq<FlightSample>, accesses: seq<Access>): Memo
    requires Usable(index, samples)
  {
    if accesses == [] then memo
    else
      var before, last := MemoAfter(memo, index, samples, accesses[..|accesses| - 1]), accesses[|accesses| - 1];
      if last.Insert? then Store(before, last.key, Selected(index, samples, last.key)) else before
  }

  /** Whatever the interleaving of lookups and inserts, every hit returns the selection and the memo stays bounded. */
  lemma {:induction false} EveryHitIsSelection(index: Index, samples: seq<FlightSample>, accesses: seq<Access>, key: Key)
    requires Usable(index, samples)
    ensures var memo := MemoAfter(map[], index, samples, accesses);
            |memo| <= 64 && (key in memo ==> memo[key] == Selected(index, samples, key))
    decreases |accesses|
  {
    hide Usable, Selected, Store;
    MemoSound(index, samples, accesses);
  }

  ghost function Inserted(accesses: seq<Access>): set<Key> {
    if accesses == [] then {}
    else Inserted(accesses[..|accesses| - 1]) + (if accesses[|accesses| - 1].Insert? then {accesses[|accesses| - 1].key} else {})
  }

  /** While fewer than 64 different selections were asked for, every one of them is remembered. */
  lemma {:induction false} NothingForgotten(index: Index, samples: seq<FlightSample>, accesses: seq<Access>)
    requires Usable(index, samples) && |Inserted(accesses)| < 64
    ensures MemoAfter(map[], index, samples, accesses).Keys == Inserted(accesses)
    decreases |accesses|
  {
    hide Usable, Selected, Store;
    if accesses != [] {
      var init, last := accesses[..|accesses| - 1], accesses[|accesses| - 1];
      FewerThan(Inserted(init), Inserted(accesses));
      NothingForgotten(index, samples, init);
      var memo := MemoAfter(map[], index, samples, init);
      assert |memo| == |memo.Keys|;
      if last.Insert? {
        StoreRemembers(memo, last.key, Selected(index, samples, last.key));
        assert Store(memo, last.key, Selected(index, samples, last.key)).Keys == memo.Keys + {last.key};
      }
    }
  }

  lemma FewerThan(a: set<Key>, b: set<Key>)
    requires a <= b
    ensures |a| <= |b|
  {
    assert b == a + (b - a);
  }

  lemma {:induction false} MemoSound(index: Index, samples: seq<FlightSample>, accesses: seq<Access>)
    requires Usable(index, samples)
    ensures Sound(MemoAfter(map[], index, samples, accesses), index, samples)
    decreases |accesses|
  {
    hide Usable, Selected, Store;
    if accesses != [] {
      var init, last := accesses[..|accesses| - 1], accesses[|accesses| - 1];
      MemoSound(index, samples, init);
      StoreSound(MemoAfter(map[], index, samples, init), index, samples, last.key);
    }
  }

  // ---------------------------------------------------------------------------------------------
  // The cache object
  // ---------------------------------------------------------------------------------------------

  /** A loaded session: its identity and its samples. */
  datatype Session = Session(identity: int, samples: seq<FlightSample>)

  class Cache {
    const session: Session
    const overview: Overview
    var memo: Memo

    ghost predicate Valid()
      reads this, overview
    {
      Built(overview.View(), session.samples) && Sound(memo, overview.View(), session.samples)
    }

    constructor (session: Session)
      ensures Valid() && this.session == session
    {
      var built := new Overview();
      built.Build(session.samples);
      this.session := session;
      overview := built;
      memo := map[];
    }

    /** Where the selection for these arguments is remembered. */
    function KeyOf(begin: int, end: int, maxPoints: int, enabled: seq<bool>): Key
      requires |enabled| == METRIC_COUNT
    {
      var b := Clamp(begin, 0, |session.samples|);
      Key(b, Clamp(end, b, |session.samples|), maxPoints, MetricMask(enabled, METRIC_COUNT))
    }

    function WasBuiltFor(other: Session): bool {
      session.identity == other.identity && |session.samples| == |other.samples|
    }

    /** The selection for a range, from the memo or computed and remembered: the same either way. */
    method ChartIndices(other: Session, begin: int, end: int, maxPoints: int, enabled: seq<bool>) returns (r: seq<int>)
      requires Valid() && |enabled| == METRIC_COUNT
      requires WasBuiltFor(other) ==> other.samples == session.samples && |other.samples| <= INT_MAX
      modifies this`memo
      ensures Valid()
      ensures other == session ==> r == Select(overview.View(), other.samples, begin, end, maxPoints, enabled)
      ensures r == if session.identity == other.identity && |session.samples| == |other.samples|
                   then Select(overview.View(), other.samples, begin, end, maxPoints, enabled) else []
      ensures WasBuiltFor(other) && maxPoints > 0 ==>
                && KeyOf(begin, end, maxPoints, enabled) in memo && memo[KeyOf(begin, end, maxPoints, enabled)] == r
                && (KeyOf(begin, end, maxPoints, enabled) in old(memo) ==> memo == old(memo))
      ensures |old(memo)| < 64 ==> forall k :: k in old(memo) ==> k in memo
    {
      hide Select, Built;
      if !WasBuiltFor(other) {
        return [];
      }
      var n := |other.samples|;
      var b := Clamp(begin, 0, n);
      var e := Clamp(end, b, n);
      SelectClamps(overview.View(), other.samples, begin, end, maxPoints, enabled);
      if maxPoints <= 0 {
        return [];
      }
      var key := Key(b, e, maxPoints, MetricMask(enabled, METRIC_COUNT));
      MaskRoundTrip(enabled, METRIC_COUNT);
      assert enabled[..METRIC_COUNT] == enabled;
      if key in memo {
        return memo[key];
      }
      r := overview.Choose(other.samples, b, e, maxPoints, enabled);
      StoreSound(memo, overview.View(), other.samples, key);
      StoreRemembers(memo, key, r);
      memo := Store(memo, key, r);
    }
  }

  /** Clamping the range first does not change a selection; without a budget there is none. */
  lemma SelectClamps(index: Index, samples: seq<FlightSample>, begin: int, end: int, budget: int, enabled: seq<bool>)
    requires Usable(index, samples) && |enabled| == METRIC_COUNT && |samples| <= INT_MAX
    ensures var b := Clamp(begin, 0, |samples|);
            var e := Clamp(end, b, |samples|);
            Select(index, samples, b, e, budget, enabled) == Select(index, samples, begin, end, budget, enabled)
    ensures budget <= 0 ==> Select(index, samples, begin, end, budget, enabled) == []
  {
    hide SelectBuckets, Usable;
  }
}
