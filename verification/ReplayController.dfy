/** The replay controller as the program keeps it: an object whose slots update its fields. */
module ReplayController {
  import opened Domain
  import opened ReplayState

  class Controller {
    /** The corrected timeline of the loaded session, in milliseconds; empty without a session. */
    var timeline: seq<int>
    var index: int
    var speed: real
    var time: real
    var anchorTime: real
    var anchorClock: int
    var playing: bool

    function View(): State
      reads this
    {
      State(timeline, index, speed, time, anchorTime, anchorClock, playing)
    }

    constructor ()
      ensures View() == IDLE && Valid(View())
    {
      timeline, index, speed, time, anchorTime, anchorClock, playing := [], 0, 1.0, 0.0, 0.0, 0, false;
    }

    /** Load a session, rewound; a session without a matching preview loads as no samples. */
    method LoadSession(matching: seq<int>)
      requires Valid(View()) && GoodTimeline(matching)
      modifies this
      ensures Valid(View()) && View() == Apply(old(View()), SetSession(matching))
      ensures timeline == matching && index == 0 && time == 0.0 && !playing && speed == old(speed)
    {
      ApplyKeepsValid(View(), SetSession(matching));
      playing := false;
      timeline := matching;
      time, anchorTime, anchorClock := 0.0, 0.0, 0;
      MoveTo(0);
    }

    method ChangeSpeed(multiplier: Reading, clock: int)
      requires Valid(View())
      modifies this
      ensures Valid(View()) && View() == Apply(old(View()), SetSpeed(multiplier, clock))
      ensures timeline == old(timeline) && speed == NormalizedSpeed(multiplier)
    {
      SpeedIsSet(View(), multiplier, clock);
      ApplyKeepsValid(View(), SetSpeed(multiplier, clock));
      var nextSpeed := NormalizedSpeed(multiplier);
      if nextSpeed == speed {
        return;
      }
      if !playing {
        speed := nextSpeed;
        return;
      }
      SynchronizePlayback(clock);
      speed := nextSpeed;
      if playing {
        AnchorPlayback(clock);
      }
    }

    method Start(clock: int)
      requires Valid(View())
      modifies this
      ensures Valid(View()) && View() == Apply(old(View()), Play(clock))
    {
      ApplyKeepsValid(View(), Play(clock));
      var count := Count(View());
      if count <= 0 || playing {
        return;
      }
      if index < 0 || index >= count {
        time := 0.0;
        MoveTo(0);
      }
      playing := true;
      AnchorPlayback(clock);
      SynchronizePlayback(clock);
    }

    method Suspend(clock: int)
      requires Valid(View())
      modifies this
      ensures Valid(View()) && View() == Apply(old(View()), Pause(clock))
    {
      ApplyKeepsValid(View(), Pause(clock));
      if !playing {
        return;
      }
      SynchronizePlayback(clock);
      if !playing {
        return;
      }
      playing := false;
    }

    method Reset()
      requires Valid(View())
      modifies this
      ensures Valid(View()) && View() == Apply(old(View()), Stop)
      ensures timeline == old(timeline) && index == 0 && time == 0.0 && !playing && speed == old(speed)
    {
      ApplyKeepsValid(View(), Stop);
      playing := false;
      time, anchorTime, anchorClock := 0.0, 0.0, 0;
      MoveTo(0);
    }

    method Seek(trailLength: int)
      requires Valid(View())
      modifies this
      ensures Valid(View()) && View() == Apply(old(View()), SetPosition(trailLength))
      ensures timeline == old(timeline) && speed == old(speed)
      ensures timeline != [] ==> !playing && index == Clamp(trailLength, 0, Min(|timeline|, INT_MAX))
    {
      ApplyKeepsValid(View(), SetPosition(trailLength));
      var count := Count(View());
      if count <= 0 {
        return;
      }
      playing := false;
      var position := Clamp(trailLength, 0, count);
      time := TimeForPosition(View(), position);
      anchorTime, anchorClock := time, 0;
      MoveTo(position);
    }

    method OnTimer(clock: int)
      requires Valid(View())
      modifies this
      ensures Valid(View()) && View() == Apply(old(View()), Tick(clock))
    {
      ApplyKeepsValid(View(), Tick(clock));
      if !playing || Count(View()) <= 0 {
        return;
      }
      SynchronizePlayback(clock);
    }

    /** Move time to the clock's candidate, never back; finish when the duration is reached. */
    method SynchronizePlayback(clock: int)
      modifies this
      ensures View() == Synchronize(old(View()), clock)
    {
      if !playing {
        return;
      }
      time := MaxReal(time, TimeAt(View(), clock));
      MoveTo(Max(index, PositionForTime(View(), time)));
      if time >= Duration(View()) {
        MoveTo(Count(View()));
        playing := false;
        anchorTime, anchorClock := time, clock;
      }
    }

    method AnchorPlayback(clock: int)
      modifies this
      ensures View() == Anchor(old(View()), clock)
    {
      anchorClock := clock;
      anchorTime := time;
    }

    method MoveTo(trailLength: int)
      modifies this
      ensures View() == UpdatePosition(old(View()), trailLength)
    {
      index := Clamp(trailLength, 0, Count(View()));
    }
  }
}
