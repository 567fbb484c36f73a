/** The trajectory as the program keeps it, updated in place. */
module GpsTracker {
  import opened Domain
  import opened GpsTrajectory

  class Tracker {
    var fixes: seq<Fix>
    var lastTimestamp: int
    var currentSegment: int
    var interrupted: bool

    function View(): Trajectory
      reads this
    {
      Trajectory(fixes, lastTimestamp, currentSegment, interrupted)
    }

    constructor ()
      ensures View() == START
    {
      fixes, lastTimestamp, currentSegment, interrupted := [], 0, 0, true;
    }

    /** Append a raw sample; true when a completed held interval needs redrawing. */
    method AppendSample(sample: FlightSample, index: int) returns (redraw: bool)
      modifies this
      ensures (View(), redraw) == Append(old(View()), sample, index)
    {
      var broken := interrupted || sample.timestamp <= lastTimestamp || sample.timestamp - lastTimestamp > MAX_GAP_MS;
      lastTimestamp := sample.timestamp;
      if !ValidSample(sample) {
        interrupted := true;
        return false;
      }
      interrupted := false;
      var lat, lon := sample.coordinates.latitude.value, sample.coordinates.longitude.value;
      if fixes != [] && !broken
         && lat == fixes[|fixes| - 1].anchor.latitude && lon == fixes[|fixes| - 1].anchor.longitude {
        return false;
      }
      redraw := false;
      if fixes != [] {
        if broken {
          currentSegment := currentSegment + 1;
        }
        var previous := fixes[|fixes| - 1];
        redraw := !broken && index as real > previous.index + 1.0
                  && sample.timestamp - previous.anchor.timestamp <= MAX_GAP_MS;
      }
      assert fixes == [] ==> forall f: Fix :: fixes + [f] == [f];
      fixes := fixes + [Fix(index as real, Anchor(sample.timestamp, lat, lon, currentSegment))];
    }

    /** Keep the anchors around the given rows and the newest fix. */
    method Retain(indices: seq<int>)
      modifies this
      ensures View() == RetainSamples(old(View()), indices)
    {
      hide LowerBound, Keep;
      if fixes == [] {
        return;
      }
      var retained: seq<Fix> := [];
      for m := 0 to |indices|
        invariant retained == KeepAll(fixes, indices[..m])
      {
        assert indices[..m + 1][..m] == indices[..m];
        var next := LowerBound(fixes, indices[m] as real);
        if next != 0 {
          retained := Keep(retained, fixes[next - 1]);
        }
        if next != |fixes| {
          retained := Keep(retained, fixes[next]);
        }
      }
      assert indices[..|indices|] == indices;
      fixes := Keep(retained, fixes[|fixes| - 1]);
    }

    /** Renumber every fix in place: row `indices[k]` becomes row `k`. */
    method Rebase(indices: seq<int>)
      requires StrictlyIncreasing(indices)
      modifies this
      ensures View() == RebaseIndices(old(View()), indices)
    {
      if indices == [] {
        fixes := [];
        return;
      }
      ghost var before := fixes;
      for i := 0 to |fixes|
        invariant |fixes| == |before|
        invariant forall k :: 0 <= k < i ==> fixes[k] == before[k].(index := Renumber(indices, before[k].index))
        invariant forall k :: i <= k < |before| ==> fixes[k] == before[k]
        invariant lastTimestamp == old(lastTimestamp) && currentSegment == old(currentSegment) && interrupted == old(interrupted)
      {
        fixes := fixes[i := fixes[i].(index := Renumber(indices, fixes[i].index))];
      }
    }
  }
}
