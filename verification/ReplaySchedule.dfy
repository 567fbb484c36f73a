/** Playback time is a matter of the clock and the speeds only: when the ticks fall makes no difference. */
module ReplaySchedule {
  import opened Domain
  import opened PreviewTimeline
  import opened ReplayState

  /** Ticks and speed changes, with a clock that does not go back. */
  ghost predicate Schedule(calls: seq<Call>, from: int) {
    && (forall k :: 0 <= k < |calls| ==> calls[k].Tick? || calls[k].SetSpeed?)
    && (forall k :: 0 <= k < |calls| ==> from <= calls[k].clock)
    && (forall j, k :: 0 <= j < k < |calls| ==> calls[j].clock <= calls[k].clock)
  }

  /** Clock time at a speed. */
  function Travel(from: int, to: int, speed: real): real {
    (to - from) as real * speed
  }

  function SpeedAfter(call: Call, speed: real): real {
    if call.SetSpeed? then NormalizedSpeed(call.multiplier) else speed
  }

  /** Where playback would be at clock `to` if the timeline did not end: the sum of speed times elapsed clock. */
  function Ideal(start: real, speed: real, from: int, calls: seq<Call>, to: int): real
    requires forall k :: 0 <= k < |calls| ==> calls[k].Tick? || calls[k].SetSpeed?
    decreases |calls|
  {
    if calls == [] then start + Travel(from, to, speed)
    else
      var call := calls[0];
      Ideal(start + Travel(from, call.clock, speed), SpeedAfter(call, speed), call.clock, calls[1..], to)
  }

  /** The speed in force after the calls. */
  function FinalSpeed(speed: real, calls: seq<Call>): real
    decreases |calls|
  {
    if calls == [] then speed else FinalSpeed(SpeedAfter(calls[0], speed), calls[1..])
  }

  /** The call looks at the clock: ticks always do, speed changes only when the speed does change. */
  predicate Synchronizes(call: Call, speed: real) {
    call.Tick? || SpeedAfter(call, speed) != speed
  }

  /** Some synchronising call finds the sum at the end of the timeline. */
  predicate Reaches(start: real, speed: real, from: int, calls: seq<Call>, duration: real)
    requires forall k :: 0 <= k < |calls| ==> calls[k].Tick? || calls[k].SetSpeed?
    decreases |calls|
  {
    calls != [] &&
    var call := calls[0];
    var there := start + Travel(from, call.clock, speed);
    (Synchronizes(call, speed) && there >= duration)
    || Reaches(there, SpeedAfter(call, speed), call.clock, calls[1..], duration)
  }

  /** A playing state whose sum stood at `start` when the clock read `from`. */
  ghost predicate Running(s: State, start: real, from: int) {
    && Valid(s) && s.playing
    && s.anchorClock <= from
    && s.anchorTime + Travel(s.anchorClock, from, s.speed) == start
    && 0.0 <= s.anchorTime && s.time <= start
  }

  lemma TravelAdds(a: int, b: int, c: int, speed: real)
    ensures Travel(a, c, speed) == Travel(a, b, speed) + Travel(b, c, speed)
    ensures a <= b && speed >= 0.0 ==> Travel(a, b, speed) >= 0.0
    ensures Travel(a, a, speed) == 0.0
  {
    assert (c - a) as real == (b - a) as real + (c - b) as real;
  }

  /** The candidate of a running state is the ideal time, capped at the duration. */
  lemma CandidateIsIdeal(s: State, start: real, from: int, clock: int)
    requires Running(s, start, from) && from <= clock
    ensures TimeAt(s, clock) == MinReal(Duration(s), start + Travel(from, clock, s.speed))
    ensures s.time <= start + Travel(from, clock, s.speed)
    ensures MaxReal(s.time, TimeAt(s, clock)) == TimeAt(s, clock)
  {
    hide PositionForTime, GoodTimeline;
    TravelAdds(s.anchorClock, from, clock, s.speed);
    TravelAdds(s.anchorClock, clock, clock, s.speed);
    TravelAdds(from, clock, clock, s.speed);
    assert (clock - s.anchorClock) as real >= 0.0;
  }

  /** One call of a running state: it keeps running on the ideal line, or playback ends at the full duration. */
  lemma RunStep(s: State, start: real, from: int, call: Call)
    requires Running(s, start, from) && (call.Tick? || call.SetSpeed?) && from <= call.clock
    ensures var there, next := start + Travel(from, call.clock, s.speed), Apply(s, call);
            && next.timeline == s.timeline && next.speed == SpeedAfter(call, s.speed)
            && (next.playing <==> !(Synchronizes(call, s.speed) && there >= Duration(s)))
            && (next.playing ==> Running(next, there, call.clock))
            && (next.playing && Synchronizes(call, s.speed) ==> next.time == there)
            && (!next.playing ==> Ended(next))
  {
    hide PositionForTime, GoodTimeline, Travel, Synchronize, TimeAt;
    CandidateIsIdeal(s, start, from, call.clock);
    TravelAdds(s.anchorClock, from, call.clock, s.speed);
    TravelAdds(call.clock, call.clock, call.clock, SpeedAfter(call, s.speed));
    SynchronizeSound(s, call.clock);
    ApplyKeepsValid(s, call);
  }

  /** Playback is over: everything is shown. */
  ghost predicate Ended(s: State) {
    Valid(s) && !s.playing && s.time == Duration(s) && s.index == Count(s)
  }

  lemma {:induction false} EndedStays(s: State, calls: seq<Call>, from: int)
    requires Ended(s) && Schedule(calls, from)
    ensures var r := ApplyAll(s, calls);
            Ended(r) && r.timeline == s.timeline && r.speed == FinalSpeed(s.speed, calls)
            && r == s.(speed := r.speed)
    decreases |calls|
  {
    hide PositionForTime, GoodTimeline, Synchronize;
    if calls != [] {
      ApplyKeepsValid(s, calls[0]);
      EndedStays(Apply(s, calls[0]), calls[1..], from);
    }
  }

  /**
   * Any schedule: playback still runs exactly when no synchronising call found the sum at the end, and then it stands
   * on the ideal line; otherwise it ended with everything shown.
   */
  lemma {:induction false} ScheduleRuns(s: State, start: real, from: int, calls: seq<Call>)
    requires Running(s, start, from) && Schedule(calls, from)
    ensures var r := ApplyAll(s, calls);
            && r.timeline == s.timeline && r.speed == FinalSpeed(s.speed, calls)
            && (r.playing <==> !Reaches(start, s.speed, from, calls, Duration(s)))
            && (r.playing ==> forall to :: LastClock(calls, from) <= to ==>
                  TimeAt(r, to) == MinReal(Duration(s), Ideal(start, s.speed, from, calls, to)))
            && (!r.playing ==> Ended(r))
    decreases |calls|
  {
    hide PositionForTime, GoodTimeline, Apply, Travel, TimeAt, Duration, Valid;
    if calls == [] {
      forall to | from <= to ensures TimeAt(s, to) == MinReal(Duration(s), start + Travel(from, to, s.speed)) {
        CandidateIsIdeal(s, start, from, to);
      }
    } else {
      var call := calls[0];
      var next, there := Apply(s, call), start + Travel(from, call.clock, s.speed);
      RunStep(s, start, from, call);
      SameDuration(s, next);
      if next.playing {
        ScheduleRuns(next, there, call.clock, calls[1..]);
      } else {
        EndedStays(next, calls[1..], from);
      }
    }
  }

  lemma SameDuration(a: State, b: State)
    requires a.timeline == b.timeline
    ensures Duration(a) == Duration(b)
  {
  }

  function LastClock(calls: seq<Call>, from: int): int
    requires forall k :: 0 <= k < |calls| ==> calls[k].Tick? || calls[k].SetSpeed?
  {
    if calls == [] then from else calls[|calls| - 1].clock
  }

  /** Pressing play on a rested controller starts a run at the current time, unless playback is already at the end. */
  lemma PlayStarts(s: State, clock: int)
    requires Valid(s) && !s.playing && Count(s) > 0
    ensures var r := Apply(s, Play(clock));
            var start := if s.index >= Count(s) then 0.0 else s.time;
            && r.speed == s.speed && r.timeline == s.timeline
            && (start < Duration(s) ==> Running(r, start, clock) && r.time == start)
            && (start >= Duration(s) ==> Ended(r))
  {
    hide PositionForTime, Synchronize, GoodTimeline, TimeAt;
    var ready := if s.index < 0 || s.index >= Count(s) then UpdatePosition(s.(time := 0.0), 0) else s;
    var anchored := Anchor(ready.(playing := true), clock);
    SameRank(s, anchored);
    RankEnds(s);
    SynchronizeSound(anchored, clock);
    TravelAdds(clock, clock, clock, s.speed);
    TimeAtAnchor(anchored, clock);
  }

  lemma TimeAtAnchor(s: State, clock: int)
    requires s.playing && s.anchorClock == clock && 0.0 <= s.anchorTime <= Duration(s)
    ensures TimeAt(s, clock) == s.anchorTime
  {
  }

  /** Before the duration, not every row has been reached. */
  lemma RankBeforeEnd(s: State, time: real)
    requires GoodTimeline(s.timeline) && Count(s) > 0 && 0.0 <= time < Duration(s)
    ensures PositionForTime(s, time) < Count(s)
  {
    RankEnds(s);
    CountUpToExact(s.timeline, Count(s), time);
  }

  /** A pause holds the place reached on the line, and the time until play is pressed again does not count. */
  lemma PauseHolds(s: State, start: real, from: int, stopAt: int, resumeAt: int)
    requires Running(s, start, from) && from <= stopAt
    ensures var there, paused := start + Travel(from, stopAt, s.speed), Apply(s, Pause(stopAt));
            && !paused.playing && paused.time == MinReal(Duration(s), there)
            && paused.index == PositionForTime(s, paused.time) && paused.speed == s.speed && paused.timeline == s.timeline
            && (there < Duration(s) ==>
                  var resumed := Apply(paused, Play(resumeAt));
                  Running(resumed, there, resumeAt) && resumed.time == there && resumed.index == paused.index)
            && (there >= Duration(s) ==> Ended(paused))
  {
    hide PositionForTime, Synchronize, GoodTimeline, TimeAt, Travel;
    CandidateIsIdeal(s, start, from, stopAt);
    SynchronizeSound(s, stopAt);
    ApplyKeepsValid(s, Pause(stopAt));
    var paused := Apply(s, Pause(stopAt));
    SameRank(s, paused);
    SameRank(s, Synchronize(s, stopAt));
    RankEnds(s);
    if paused.time < Duration(s) {
      RankBeforeEnd(s, paused.time);
      PlayStarts(paused, resumeAt);
      var resumed := Apply(paused, Play(resumeAt));
      SameRank(s, resumed);
    }
  }

  // ---------------------------------------------------------------------------------------------
  // Independence of the ticks
  // ---------------------------------------------------------------------------------------------

  /** Only the speed changes of a schedule. */
  function SpeedChanges(calls: seq<Call>): (r: seq<Call>)
    ensures forall k :: 0 <= k < |r| ==> r[k].SetSpeed?
  {
    if calls == [] then []
    else (if calls[0].SetSpeed? then [calls[0]] else []) + SpeedChanges(calls[1..])
  }

  /** The ideal line does not see ticks. */
  lemma {:induction false} IdealIgnoresTicks(start: real, speed: real, from: int, calls: seq<Call>, to: int)
    requires forall k :: 0 <= k < |calls| ==> calls[k].Tick? || calls[k].SetSpeed?
    ensures Ideal(start, speed, from, calls, to) == Ideal(start, speed, from, SpeedChanges(calls), to)
    ensures FinalSpeed(speed, calls) == FinalSpeed(speed, SpeedChanges(calls))
    decreases |calls|
  {
    hide Travel, NormalizedSpeed;
    if calls != [] {
      var call := calls[0];
      var there := start + Travel(from, call.clock, speed);
      IdealIgnoresTicks(there, SpeedAfter(call, speed), call.clock, calls[1..], to);
      if call.SetSpeed? {
        assert SpeedChanges(calls)[1..] == SpeedChanges(calls[1..]);
      } else {
        assert SpeedChanges(calls) == SpeedChanges(calls[1..]);
        LaterStart(start, speed, from, call.clock, SpeedChanges(calls[1..]), to);
      }
    }
  }

  /** Moving the reference point along the ideal line changes nothing. */
  lemma LaterStart(start: real, speed: real, from: int, mid: int, calls: seq<Call>, to: int)
    requires forall k :: 0 <= k < |calls| ==> calls[k].Tick? || calls[k].SetSpeed?
    ensures Ideal(start + Travel(from, mid, speed), speed, mid, calls, to) == Ideal(start, speed, from, calls, to)
  {
    hide Travel, NormalizedSpeed;
    if calls == [] {
      TravelAdds(from, mid, to, speed);
    } else {
      TravelAdds(from, mid, calls[0].clock, speed);
    }
  }

  /** The ideal line rises with the clock. */
  lemma {:induction false} IdealRises(start: real, speed: real, from: int, calls: seq<Call>, to: int)
    requires Schedule(calls, from) && speed >= 0.0 && LastClock(calls, from) <= to
    ensures Ideal(start, speed, from, calls, to) >= start
    decreases |calls|
  {
    hide Travel;
    if calls == [] {
      TravelAdds(from, to, to, speed);
    } else {
      TravelAdds(from, calls[0].clock, to, speed);
      IdealRises(start + Travel(from, calls[0].clock, speed), SpeedAfter(calls[0], speed), calls[0].clock, calls[1..], to);
    }
  }

  /** Once the end is reached, the ideal line stays beyond it. */
  lemma {:induction false} ReachedStays(start: real, speed: real, from: int, calls: seq<Call>, to: int, duration: real)
    requires Schedule(calls, from) && speed >= 0.0 && LastClock(calls, from) <= to
    requires Reaches(start, speed, from, calls, duration)
    ensures Ideal(start, speed, from, calls, to) >= duration
    decreases |calls|
  {
    hide Travel;
    var there := start + Travel(from, calls[0].clock, speed);
    if Synchronizes(calls[0], speed) && there >= duration {
      IdealRises(there, SpeedAfter(calls[0], speed), calls[0].clock, calls[1..], to);
    } else {
      ReachedStays(there, SpeedAfter(calls[0], speed), calls[0].clock, calls[1..], to, duration);
    }
  }

  /** What a final tick leaves after any schedule: the capped ideal time, and the end exactly when that is reached. */
  lemma FinalTick(s: State, start: real, from: int, calls: seq<Call>, to: int)
    requires Running(s, start, from) && Schedule(calls, from) && LastClock(calls, from) <= to
    ensures var r := Apply(ApplyAll(s, calls), Tick(to));
            var ideal := Ideal(start, s.speed, from, calls, to);
            && Valid(r) && r.timeline == s.timeline && r.speed == FinalSpeed(s.speed, calls)
            && r.time == MinReal(Duration(s), ideal)
            && (r.playing <==> ideal < Duration(s))
            && r.index == PositionForTime(s, r.time) && ShowsRowsUpTo(r)
  {
    hide PositionForTime, GoodTimeline, Travel, TimeAt, Synchronize, Ideal, Reaches, ShowsRowsUpTo;
    var before := ApplyAll(s, calls);
    ScheduleRuns(s, start, from, calls);
    SameDuration(s, before);
    RankEnds(s);
    if before.playing {
      EveryRunValid(s, calls);
      SynchronizeSound(before, to);
      SameRank(s, Synchronize(before, to));
      TimeNotBack(s, start, from, calls, to);
    } else {
      ReachedStays(start, s.speed, from, calls, to, Duration(s));
      SameRank(s, before);
    }
    SameRank(s, Apply(before, Tick(to)));
    RankShowsRows(Apply(before, Tick(to)));
  }

  /** Exactly the rows at or before the playback time are shown. */
  ghost predicate ShowsRowsUpTo(s: State) {
    s.index <= Count(s) && forall i :: 0 <= i < Count(s) ==> (i < s.index <==> s.timeline[i] as real <= s.time)
  }

  lemma RankShowsRows(s: State)
    requires Valid(s) && s.index == PositionForTime(s, s.time)
    ensures ShowsRowsUpTo(s)
  {
    hide PositionForTime;
    forall i | 0 <= i < Count(s) ensures i < s.index <==> s.timeline[i] as real <= s.time {
      RankExact(s, s.time, i);
    }
  }

  /**
   * A session that is loaded and played: after any ticks and speed changes, a tick shows exactly the rows of that
   * session up to the time travelled at the speeds in force, and playback ends when its last row is reached.
   */
  lemma LoadedRun(s: State, timeline: seq<int>, from: int, calls: seq<Call>, to: int)
    requires Valid(s) && GoodTimeline(timeline) && 2 <= |timeline| <= INT_MAX
    requires Schedule(calls, from) && LastClock(calls, from) <= to
    ensures var started := Apply(Apply(s, SetSession(timeline)), Play(from));
            var r, total := Apply(ApplyAll(started, calls), Tick(to)), timeline[|timeline| - 1] as real;
            var ideal := Ideal(0.0, s.speed, from, calls, to);
            && r.timeline == timeline && r.time == MinReal(total, ideal) && (r.playing <==> ideal < total)
            && 0 <= r.index <= |timeline|
            && forall i :: 0 <= i < |timeline| ==> (i < r.index <==> timeline[i] as real <= r.time)
  {
    hide PositionForTime, Apply, ApplyAll, Ideal, Running, FinalSpeed, LastClock, Schedule;
    var loaded := Apply(s, SetSession(timeline));
    LoadShowsSession(s, timeline);
    ApplyKeepsValid(s, SetSession(timeline));
    PlayStarts(loaded, from);
    RankEnds(loaded);
    assert timeline[0] < timeline[|timeline| - 1];
    FinalTick(Apply(loaded, Play(from)), 0.0, from, calls, to);
  }

  /** A run that has not ended never stands beyond the ideal line. */
  lemma {:induction false} TimeNotBack(s: State, start: real, from: int, calls: seq<Call>, to: int)
    requires Running(s, start, from) && Schedule(calls, from) && LastClock(calls, from) <= to
    requires ApplyAll(s, calls).playing
    ensures var r := ApplyAll(s, calls); MaxReal(r.time, TimeAt(r, to)) == TimeAt(r, to)
    decreases |calls|
  {
    hide PositionForTime, GoodTimeline, Apply, Travel, TimeAt, Duration, Valid;
    if calls == [] {
      CandidateIsIdeal(s, start, from, to);
    } else {
      var call := calls[0];
      RunStep(s, start, from, call);
      if Apply(s, call).playing {
        TimeNotBack(Apply(s, call), start + Travel(from, call.clock, s.speed), call.clock, calls[1..], to);
      } else {
        EndedStays(Apply(s, call), calls[1..], from);
      }
    }
  }

  /**
   * Two schedules with the same speed changes, read at the same clock, show the same: playback does not depend on
   * when, or how often, the timer fires.
   */
  lemma TicksDoNotMatter(s: State, start: real, from: int, a: seq<Call>, b: seq<Call>, to: int)
    requires Running(s, start, from) && Schedule(a, from) && Schedule(b, from)
    requires LastClock(a, from) <= to && LastClock(b, from) <= to
    requires SpeedChanges(a) == SpeedChanges(b)
    ensures var x, y := Apply(ApplyAll(s, a), Tick(to)), Apply(ApplyAll(s, b), Tick(to));
            x.time == y.time && x.index == y.index && x.playing == y.playing && x.speed == y.speed
  {
    hide Apply, ApplyAll, Running, Ideal, FinalSpeed, SpeedChanges, LastClock, PositionForTime, Duration, Valid;
    FinalTick(s, start, from, a, to);
    FinalTick(s, start, from, b, to);
    IdealIgnoresTicks(start, s.speed, from, a, to);
    IdealIgnoresTicks(start, s.speed, from, b, to);
  }
}
