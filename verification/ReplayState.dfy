/**
 * The replay controller as a state machine over its public calls, each with the clock reading it makes. Playback
 * time is in milliseconds on the display timeline.
 */
module ReplayState {
  import opened Domain
  import opened PreviewTimeline

  datatype State = State(
    timeline: seq<int>,
    index: int,
    speed: real,
    time: real,
    anchorTime: real,
    anchorClock: int,
    playing: bool)

  const IDLE: State := State([], 0, 1.0, 0.0, 0.0, 0, false)

  function NormalizedSpeed(multiplier: Reading): (r: real)
    ensures 0.25 <= r <= 4.0
  {
    if multiplier.NotFinite? || multiplier.value <= 0.0 then 1.0
    else MaxReal(0.25, MinReal(multiplier.value, 4.0))
  }

  function Count(s: State): nat {
    Min(|s.timeline|, INT_MAX)
  }

  function Duration(s: State): real {
    if Count(s) <= 0 then 0.0 else MaxReal(0.0, s.timeline[Count(s) - 1] as real)
  }

  function TimeForPosition(s: State, position: int): real {
    if position <= 0 || Count(s) <= 0 then 0.0
    else if position >= Count(s) then Duration(s)
    else
      var time := s.timeline[position - 1] as real;
      if time <= 0.0 then 0.0 else MinReal(time, Duration(s))
  }

  function TimeAt(s: State, clock: int): real {
    if !s.playing then s.time
    else
      var elapsed := MaxReal(0.0, (clock - s.anchorClock) as real);
      MinReal(MaxReal(s.anchorTime + elapsed * s.speed, 0.0), Duration(s))
  }

  /** The number of samples at or before a playback time. */
  function PositionForTime(s: State, time: real): nat {
    CountUpTo(s.timeline, Count(s), MaxReal(0.0, time))
  }

  function UpdatePosition(s: State, position: int): State {
    s.(index := Clamp(position, 0, Count(s)))
  }

  function Synchronize(s: State, clock: int): State {
    if !s.playing then s
    else
      var timed := s.(time := MaxReal(s.time, TimeAt(s, clock)));
      var moved := UpdatePosition(timed, Max(s.index, PositionForTime(timed, timed.time)));
      if moved.time >= Duration(moved)
      then UpdatePosition(moved, Count(moved)).(playing := false, anchorTime := moved.time, anchorClock := clock)
      else moved
  }

  function Anchor(s: State, clock: int): State {
    s.(anchorClock := clock, anchorTime := s.time)
  }

  // ---------------------------------------------------------------------------------------------
  // The public calls
  // ---------------------------------------------------------------------------------------------

  datatype Call =
    | Play(clock: int)
    | Pause(clock: int)
    | Stop
    | SetPosition(trailLength: int)
    | SetSpeed(multiplier: Reading, clock: int)
    | Tick(clock: int)
    | SetSession(timeline: seq<int>)

  function Rewound(s: State): State {
    UpdatePosition(s.(playing := false, time := 0.0, anchorTime := 0.0, anchorClock := 0), 0)
  }

  function Apply(s: State, call: Call): State {
    match call
    case Play(clock) =>
      if Count(s) <= 0 || s.playing then s
      else
        var ready := if s.index < 0 || s.index >= Count(s) then UpdatePosition(s.(time := 0.0), 0) else s;
        Synchronize(Anchor(ready.(playing := true), clock), clock)
    case Pause(clock) =>
      if !s.playing then s else Synchronize(s, clock).(playing := false)
    case Stop => Rewound(s)
    case SetPosition(trailLength) =>
      if Count(s) <= 0 then s
      else
        var position := Clamp(trailLength, 0, Count(s));
        var time := TimeForPosition(s, position);
        UpdatePosition(s.(playing := false, time := time, anchorTime := time, anchorClock := 0), position)
    case SetSpeed(multiplier, clock) =>
      var next := NormalizedSpeed(multiplier);
      if next == s.speed then s
      else if !s.playing then s.(speed := next)
      else
        var synced := Synchronize(s, clock).(speed := next);
        if synced.playing then Anchor(synced, clock) else synced
    case Tick(clock) =>
      if !s.playing || Count(s) <= 0 then s else Synchronize(s, clock)
    case SetSession(timeline) => Rewound(s.(timeline := timeline))
  }

  function ApplyAll(s: State, calls: seq<Call>): State
    decreases |calls|
  {
    if calls == [] then s else ApplyAll(Apply(s, calls[0]), calls[1..])
  }

  // ---------------------------------------------------------------------------------------------
  // What single calls do
  // ---------------------------------------------------------------------------------------------

  /** Shown from the start, resting. */
  ghost predicate AtStart(s: State) {
    s.index == 0 && s.time == 0.0 && !s.playing
  }

  /** A loaded session is shown from the start, whatever went before; the speed stays. */
  lemma LoadShowsSession(s: State, timeline: seq<int>)
    ensures var r := Apply(s, SetSession(timeline)); r.timeline == timeline && AtStart(r) && r.speed == s.speed
  {
  }

  lemma StopRewinds(s: State)
    ensures var r := Apply(s, Stop); r.timeline == s.timeline && AtStart(r) && r.speed == s.speed
  {
  }

  /** A usable speed is the nearest one from a quarter to four; what is no positive number counts as one. */
  lemma NormalizedSpeedNearest(multiplier: Reading, v: real)
    ensures multiplier.Finite? && multiplier.value > 0.0 && 0.25 <= v <= 4.0 ==>
              Abs(NormalizedSpeed(multiplier) - multiplier.value) <= Abs(v - multiplier.value)
    ensures !(multiplier.Finite? && multiplier.value > 0.0) ==> NormalizedSpeed(multiplier) == 1.0
  {
  }

  /** A speed change sets the speed; it moves nothing while playback rests. */
  lemma SpeedIsSet(s: State, multiplier: Reading, clock: int)
    ensures var r := Apply(s, SetSpeed(multiplier, clock));
            && r.speed == NormalizedSpeed(multiplier) && r.timeline == s.timeline
            && (!s.playing ==> r == s.(speed := r.speed))
  {
    hide PositionForTime;
  }

  /** Calls that find nothing to do: play while playing, pause and ticks at rest, and all of them without samples. */
  lemma CallsIgnored(s: State, call: Call)
    requires call.Play? ==> s.playing || Count(s) == 0
    requires call.Pause? || call.Tick? ==> !s.playing
    requires call.SetPosition? ==> Count(s) == 0
    requires !call.Stop? && !call.SetSpeed? && !call.SetSession?
    ensures Apply(s, call) == s
  {
  }

  // ---------------------------------------------------------------------------------------------
  // What every call keeps
  // ---------------------------------------------------------------------------------------------

  /** A timeline as the preview builds it. */
  ghost predicate GoodTimeline(timeline: seq<int>) {
    StrictlyIncreasing(timeline) && (timeline != [] ==> timeline[0] == 0)
  }

  /** Every timeline that the preview builds is good, whatever the recorded timestamps. */
  lemma BuiltTimelineIsGood(ts: seq<int>)
    ensures GoodTimeline(Timeline(ts))
  {
    TimelineSound(ts);
  }

  ghost predicate GoodCall(call: Call) {
    call.SetSession? ==> GoodTimeline(call.timeline)
  }

  /** The index is the rank of the playback time, or nothing is shown yet. */
  ghost predicate Ranked(s: State) {
    s.index == PositionForTime(s, s.time) || (s.index == 0 && s.time == 0.0)
  }

  ghost predicate Valid(s: State) {
    && GoodTimeline(s.timeline)
    && 0 <= s.index <= Count(s)
    && 0.25 <= s.speed <= 4.0
    && 0.0 <= s.time <= Duration(s)
    && Ranked(s)
    && (s.playing ==> Count(s) > 0 && s.time < Duration(s) && s.index == PositionForTime(s, s.time))
  }

  /** Ranks of the two ends of the timeline. */
  lemma RankEnds(s: State)
    requires GoodTimeline(s.timeline) && Count(s) > 0
    ensures PositionForTime(s, Duration(s)) == Count(s)
    ensures 1 <= PositionForTime(s, 0.0)
    ensures Duration(s) == s.timeline[Count(s) - 1] as real
  {
    var n := Count(s);
    assert n > 1 ==> s.timeline[0] < s.timeline[n - 1];
    CountUpToExact(s.timeline, n, 0.0);
  }

  lemma RankMonotone(s: State, a: real, b: real)
    requires GoodTimeline(s.timeline) && a <= b
    ensures PositionForTime(s, a) <= PositionForTime(s, b) <= Count(s)
  {
    var n := Count(s);
    CountUpToExact(s.timeline, n, MaxReal(0.0, a));
    CountUpToExact(s.timeline, n, MaxReal(0.0, b));
    var k := PositionForTime(s, a);
    if k > 0 {
      assert s.timeline[k - 1] as real <= MaxReal(0.0, a);
    }
  }

  lemma RankOfRow(s: State, position: int)
    requires GoodTimeline(s.timeline) && 0 < position < Count(s)
    ensures TimeForPosition(s, position) == s.timeline[position - 1] as real
    ensures PositionForTime(s, TimeForPosition(s, position)) == position
    ensures 0.0 <= TimeForPosition(s, position) <= Duration(s)
  {
    hide CountUpTo;
    var n := Count(s);
    var t := s.timeline;
    assert t[position - 1] < t[n - 1];
    assert position > 1 ==> t[0] < t[position - 1];
    CountUpToExact(t, n, t[position - 1] as real);
    assert t[position - 1] < t[position];
    var r := CountUpTo(t, n, t[position - 1] as real);
    assert position - 1 < r;
    assert !(position < r);
  }

  /** The position for a time is the number of rows at or before it, on any good timeline. */
  lemma RankExact(s: State, time: real, i: nat)
    requires GoodTimeline(s.timeline) && i < Count(s) && time >= 0.0
    ensures i < PositionForTime(s, time) <==> s.timeline[i] as real <= time
  {
    CountUpToExact(s.timeline, Count(s), time);
  }

  /** Synchronising a playing state: time moves to the clock's candidate, the index follows, or playback ends. */
  lemma SynchronizeSound(s: State, clock: int)
    requires GoodTimeline(s.timeline) && 0.25 <= s.speed <= 4.0 && s.playing && Count(s) > 0
    requires 0.0 <= s.time <= Duration(s) && 0 <= s.index <= Count(s) && Ranked(s)
    ensures var r := Synchronize(s, clock);
            && Valid(r) && r.timeline == s.timeline && r.speed == s.speed
            && s.time <= r.time && s.index <= r.index
            && r.time == MaxReal(s.time, TimeAt(s, clock))
            && (r.playing <==> r.time < Duration(s))
            && (r.playing ==> r.anchorTime == s.anchorTime && r.anchorClock == s.anchorClock)
            && (!r.playing ==> r.time == Duration(s) && r.index == Count(s))
  {
    hide CountUpTo;
    RankEnds(s);
    var time := MaxReal(s.time, TimeAt(s, clock));
    RankMonotone(s, s.time, time);
  }

  /** No call breaks the invariant, whatever the clock reads. */
  lemma ApplyKeepsValid(s: State, call: Call)
    requires Valid(s) && GoodCall(call)
    ensures Valid(Apply(s, call))
  {
    hide PositionForTime, Synchronize, TimeForPosition;
    match call
    case Play(clock) =>
      if Count(s) > 0 && !s.playing {
        RankEnds(s);
        var ready := if s.index < 0 || s.index >= Count(s) then UpdatePosition(s.(time := 0.0), 0) else s;
        SameRank(s, Anchor(ready.(playing := true), clock));
        SynchronizeSound(Anchor(ready.(playing := true), clock), clock);
      }
    case Pause(clock) =>
      if s.playing {
        SynchronizeSound(s, clock);
        SameRank(Synchronize(s, clock), Synchronize(s, clock).(playing := false));
      }
    case Stop => RewoundValid(s);
    case SetPosition(trailLength) =>
      if Count(s) > 0 {
        SeekValid(s, trailLength);
      }
    case SetSpeed(multiplier, clock) =>
      SameRank(s, Apply(s, call));
      if s.playing {
        SynchronizeSound(s, clock);
        SameRank(Synchronize(s, clock), Apply(s, call));
      }
    case Tick(clock) =>
      if s.playing {
        SynchronizeSound(s, clock);
      }
    case SetSession(timeline) => RewoundValid(s.(timeline := timeline));
  }

  lemma SameRank(s: State, r: State)
    ensures r.timeline == s.timeline ==> PositionForTime(r, r.time) == PositionForTime(s, r.time)
  {
  }

  lemma RewoundValid(s: State)
    requires GoodTimeline(s.timeline) && 0.25 <= s.speed <= 4.0
    ensures Valid(Rewound(s))
  {
    if Count(s) > 0 {
      RankEnds(s);
    }
  }

  lemma SeekValid(s: State, trailLength: int)
    requires Valid(s) && Count(s) > 0
    ensures Valid(Apply(s, SetPosition(trailLength)))
  {
    hide CountUpTo;
    RankEnds(s);
    var position := Clamp(trailLength, 0, Count(s));
    if 0 < position < Count(s) {
      RankOfRow(s, position);
    }
  }

  /** A seek rests on the clamped position, at the time of the last row it shows; from there on that row is the rank. */
  lemma SeekLands(s: State, trailLength: int)
    requires Valid(s) && Count(s) > 0
    ensures var r, position := Apply(s, SetPosition(trailLength)), Clamp(trailLength, 0, Count(s));
            && !r.playing && r.index == position && r.timeline == s.timeline && r.speed == s.speed
            && r.time == (if position == 0 then 0.0 else s.timeline[position - 1] as real)
            && (position > 0 ==> PositionForTime(r, r.time) == position)
  {
    hide PositionForTime, TimeForPosition, GoodTimeline;
    var r, position := Apply(s, SetPosition(trailLength)), Clamp(trailLength, 0, Count(s));
    SameRank(s, r);
    RankEnds(s);
    EndPositions(s);
    if 0 < position < Count(s) {
      RankOfRow(s, position);
    }
  }

  lemma EndPositions(s: State)
    ensures TimeForPosition(s, 0) == 0.0 && (Count(s) > 0 ==> TimeForPosition(s, Count(s)) == Duration(s))
  {
  }

  lemma {:induction false} EveryRunValid(s: State, calls: seq<Call>)
    requires Valid(s) && forall k :: 0 <= k < |calls| ==> GoodCall(calls[k])
    ensures Valid(ApplyAll(s, calls))
    decreases |calls|
  {
    hide Apply, Valid, GoodCall;
    if calls != [] {
      ApplyKeepsValid(s, calls[0]);
      EveryRunValid(Apply(s, calls[0]), calls[1..]);
    }
  }

  /** In particular every sequence of calls from a new controller on. */
  lemma RunFromIdle(calls: seq<Call>)
    requires forall k :: 0 <= k < |calls| ==> GoodCall(calls[k])
    ensures Valid(ApplyAll(IDLE, calls))
  {
    EveryRunValid(IDLE, calls);
  }

  /** While playing, neither time nor index goes back, even if the clock does. */
  lemma NeverBackwards(s: State, call: Call)
    requires Valid(s) && s.playing && (call.Tick? || call.SetSpeed? || call.Pause? || call.Play?)
    ensures Apply(s, call).time >= s.time && Apply(s, call).index >= s.index
  {
    hide Synchronize, PositionForTime;
    if call.Tick? || call.SetSpeed? || call.Pause? {
      SynchronizeSound(s, call.clock);
    }
  }
}
