/** The live map widget as the program keeps it, with its page: fields updated in place, rows sent in loops. */
module LiveLink {
  import opened Domain
  import opened GpsTrajectory
  import opened LiveHistory
  import opened LivePublication

  lemma RowsIncrease(live: Live)
    requires RowsInOrder(live)
    ensures StrictlyIncreasing(Indices(live.rows))
  {
  }

  class MapLink {
    var live: Live
    var dirty: bool
    var lastIndex: int
    var count3d: nat
    var page: seq<Point>
    var page3d: seq<Point>

    function View(): Link
      reads this
    {
      Link(live, dirty, lastIndex, count3d, page, page3d)
    }

    constructor ()
      ensures View() == NEW_LINK
    {
      live, dirty, lastIndex, count3d, page, page3d := NOTHING, true, -1, 0, [], [];
    }

    /** One received sample: renumber, append, keep the row if it can be drawn, thin; each may ask for a snapshot. */
    method ReceiveSample(sample: FlightSample)
      requires RowsInOrder(live)
      modifies this
      ensures View() == ReceiveInto(old(View()), sample) && RowsInOrder(live)
    {
      hide Append, Renumbered, Thinned, RowsInOrder, Usable, KeptRows;
      RowsIncrease(live);
      if live.total >= MAX_SAMPLE_COUNT {
        live := Renumbered(live);
        lastIndex, count3d, dirty := -1, 0, true;
      }
      var sampleIndex := live.total;
      var (trajectory, redraw) := Append(live.trajectory, sample, sampleIndex);
      dirty := dirty || redraw;
      live := Extended(live, sample);
      if |live.rows| > POINT_BUDGET {
        live := Thinned(live, KeptRows(live));
        dirty := true;
      }
    }

    /** Send what is pending: everything, or the rows since the last time. */
    method SendPending()
      modifies this
      ensures View() == Publish(old(View()))
    {
      hide PointOf, Positions3d;
      var replace := dirty;
      if !replace {
        var pending := CountPending();
        replace := count3d + pending > BUDGET_3D;
      } else {
        assert replace;
      }
      var path2d, path3d := [], [];
      if replace {
        path2d := SnapshotRows();
        var positions := Positions3d(|live.rows|);
        for j := 0 to |positions|
          invariant path3d == PickPoints(Snapshot(live), positions)[..j]
        {
          path3d := path3d + [PointOf(live, positions[j])];
        }
        assert PickPoints(Snapshot(live), positions)[..|positions|] == PickPoints(Snapshot(live), positions);
        page, page3d, count3d := path2d, path3d, |path3d|;
      } else {
        path2d := PendingRows();
        path3d := path2d;
        page, page3d, count3d := page + path2d, page3d + path3d, count3d + |path3d|;
      }
      lastIndex := live.total - 1;
      dirty := false;
    }

    method CountPending() returns (count: nat)
      ensures count == |Pending(live, lastIndex, |live.rows|)|
    {
      hide PointOf;
      count := 0;
      for k := 0 to |live.rows|
        invariant count == |Pending(live, lastIndex, k)|
      {
        if live.rows[k].index > lastIndex {
          count := count + 1;
        }
      }
    }

    method PendingRows() returns (path: seq<Point>)
      ensures path == Pending(live, lastIndex, |live.rows|)
    {
      hide PointOf;
      path := [];
      for k := 0 to |live.rows|
        invariant path == Pending(live, lastIndex, k)
      {
        if live.rows[k].index > lastIndex {
          path := path + [PointOf(live, k)];
        }
      }
    }

    method SnapshotRows() returns (path: seq<Point>)
      ensures path == Snapshot(live)
    {
      hide PointOf;
      path := [];
      for k := 0 to |live.rows|
        invariant path == Snapshot(live)[..k]
      {
        path := path + [PointOf(live, k)];
      }
      assert Snapshot(live)[..|live.rows|] == Snapshot(live);
    }
  }
}
