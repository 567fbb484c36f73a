/**
 * What the live map sends to its page: a full snapshot when something drawn may have moved, otherwise only the rows
 * since the last time. The page always ends up with what a snapshot would have shown.
 */
module LivePublication {
  import opened Domain
  import opened GpsTrajectory
  import opened GpsCompaction
  import opened GpsDisplay
  import opened GpsHistory
  import opened GpsRecording
  import opened LiveHistory
  import opened LiveSchedule
  import opened LiveMap

  const BUDGET_3D: nat := 5_000
  const COMPACT_3D: nat := 2_500

  /** A published point: the row, where it is drawn, and its segment. */
  datatype Point = Point(row: Row, place: Coordinates, segment: int)

  function PointOf(live: Live, k: nat): Point
    requires k < |live.rows|
  {
    var row := live.rows[k];
    Point(row, CoordinateAt(live.trajectory, row.index, row.sample), SegmentAt(live.trajectory, row.index))
  }

  /** All rows as they are drawn now. */
  function Snapshot(live: Live): (r: seq<Point>)
    ensures |r| == |live.rows| && forall k :: 0 <= k < |r| ==> r[k] == PointOf(live, k)
  {
    seq(|live.rows|, k requires 0 <= k < |live.rows| => PointOf(live, k))
  }

  /** The rows that have not been sent yet. */
  function Pending(live: Live, lastIndex: int, n: nat): seq<Point>
    requires n <= |live.rows|
  {
    if n == 0 then []
    else Pending(live, lastIndex, n - 1) + (if live.rows[n - 1].index <= lastIndex then [] else [PointOf(live, n - 1)])
  }

  /** The positions of a snapshot that are drawn in space. */
  function Positions3d(size: nat): (r: seq<int>)
    ensures |r| == Min(size, COMPACT_3D) && Positions(r, size) && (size > 0 ==> r[|r| - 1] == size - 1)
  {
    if size <= COMPACT_3D then seq(size, k => k)
    else
      KeptShape(size, COMPACT_3D);
      Kept(size, COMPACT_3D)
  }

  function PickPoints(points: seq<Point>, pos: seq<int>): (r: seq<Point>)
    requires Positions(pos, |points|)
    ensures |r| == |pos| && forall k :: 0 <= k < |r| ==> r[k] == points[pos[k]]
  {
    seq(|pos|, k requires 0 <= k < |pos| => points[pos[k]])
  }

  /** The widget's fields, and what its page holds on the map and in space. */
  datatype Link = Link(live: Live, dirty: bool, lastIndex: int, count3d: nat, page: seq<Point>, page3d: seq<Point>)

  const NEW_LINK: Link := Link(NOTHING, true, -1, 0, [], [])

  function ReceiveInto(link: Link, sample: FlightSample): Link
    requires RowsInOrder(link.live)
  {
    var rebased := link.live.total >= MAX_SAMPLE_COUNT;
    var start := Readied(link.live);
    var redraw := Append(start.trajectory, sample, start.total).1;
    var longer := Extended(start, sample);
    Link(Compacted(longer), link.dirty || rebased || redraw || |longer.rows| > POINT_BUDGET,
         if rebased then -1 else link.lastIndex, if rebased then 0 else link.count3d, link.page, link.page3d)
  }

  function Publish(link: Link): Link {
    var live := link.live;
    var pending := Pending(live, link.lastIndex, |live.rows|);
    if link.dirty || link.count3d + |pending| > BUDGET_3D then
      var pos := Positions3d(|live.rows|);
      Link(live, false, live.total - 1, |pos|, Snapshot(live), PickPoints(Snapshot(live), pos))
    else
      Link(live, false, live.total - 1, link.count3d + |pending|, link.page + pending, link.page3d + pending)
  }

  // ---------------------------------------------------------------------------------------------
  // What is kept
  // ---------------------------------------------------------------------------------------------

  /** The number of leading rows that were sent. */
  function Sent(live: Live, lastIndex: int, n: nat): (k: nat)
    requires n <= |live.rows|
    ensures k <= n && (forall j :: 0 <= j < k ==> live.rows[j].index <= lastIndex)
    ensures k < n ==> live.rows[k].index > lastIndex
    decreases n
  {
    if n == 0 then 0
    else
      var k := Sent(live, lastIndex, n - 1);
      if k == n - 1 && live.rows[n - 1].index <= lastIndex then n else k
  }

  /** The page in space shows some of the first `k` rows, the last of them included. */
  ghost predicate Picked(page: seq<Point>, points: seq<Point>, k: nat, pos: seq<int>) {
    && k <= |points| && Positions(pos, k) && |page| == |pos| && (k > 0 ==> pos != [] && pos[|pos| - 1] == k - 1)
    && forall j :: 0 <= j < |pos| ==> page[j] == points[pos[j]]
  }

  /** The page shows exactly the first `k` points on the map, and some of them in space, within the budget. */
  ghost predicate Showing(page: seq<Point>, page3d: seq<Point>, count3d: nat, points: seq<Point>, k: nat) {
    && k <= |points| && page == points[..k] && count3d == |page3d| <= BUDGET_3D
    && exists pos :: Picked(page3d, points, k, pos)
  }

  /** Unless a snapshot is due, the rows sent so far are shown exactly as they would be drawn now. */
  ghost predicate UpToDate(link: Link) {
    Showing(link.page, link.page3d, link.count3d, Snapshot(link.live),
            Sent(link.live, link.lastIndex, |link.live.rows|))
  }

  ghost predicate Sound(link: Link) {
    && Ordered(link.live) && InSegment(link.live.trajectory) && link.lastIndex < link.live.total
    && (!link.dirty ==> UpToDate(link))
  }

  lemma ShowingGrows(page: seq<Point>, page3d: seq<Point>, count3d: nat, points: seq<Point>, more: seq<Point>, k: nat)
    requires Showing(page, page3d, count3d, points, k) && points <= more
    ensures Showing(page, page3d, count3d, more, k)
  {
    hide Picked;
    var pos :| Picked(page3d, points, k, pos);
    PickedGrows(page3d, points, more, k, pos);
    assert points[..k] == more[..k];
  }

  lemma PickedGrows(page: seq<Point>, points: seq<Point>, more: seq<Point>, k: nat, pos: seq<int>)
    requires Picked(page, points, k, pos) && points <= more
    ensures Picked(page, more, k, pos)
  {
  }

  /** A snapshot shows everything. */
  lemma SnapshotShows(points: seq<Point>)
    ensures var pos := Positions3d(|points|); Showing(points, PickPoints(points, pos), |pos|, points, |points|)
  {
    hide Kept;
    assert points[..|points|] == points;
    assert Picked(PickPoints(points, Positions3d(|points|)), points, |points|, Positions3d(|points|));
  }

  /** So does what was shown, followed by the rest. */
  lemma RestShows(page: seq<Point>, page3d: seq<Point>, count3d: nat, points: seq<Point>, k: nat)
    requires Showing(page, page3d, count3d, points, k) && count3d + |points| - k <= BUDGET_3D
    ensures Showing(page + points[k..], page3d + points[k..], count3d + |points| - k, points, |points|)
  {
    hide Picked;
    var pos :| Picked(page3d, points, k, pos);
    var more := PickedMore(page3d, points, k, pos);
    assert points[..k] + points[k..] == points == points[..|points|];
  }

  lemma PickedMore(page: seq<Point>, points: seq<Point>, k: nat, pos: seq<int>) returns (next: seq<int>)
    requires Picked(page, points, k, pos)
    ensures Picked(page + points[k..], points, |points|, next)
  {
    next := pos + seq(|points| - k, j requires 0 <= j => k + j);
  }

  // ---------------------------------------------------------------------------------------------
  // Receiving
  // ---------------------------------------------------------------------------------------------

  lemma ReadiedSound(live: Live)
    requires Ordered(live) && InSegment(live.trajectory) && RoomNext(live)
    ensures Ordered(Readied(live)) && InSegment(Readied(live).trajectory)
  {
    hide Renumber, Sorted, Below;
    if live.total >= MAX_SAMPLE_COUNT {
      if live.rows == [] {
        NoFixes(Renumbered(live));
      } else {
        RebaseOrdered(live);
      }
    }
  }

  lemma TakeSound(live: Live, sample: FlightSample)
    requires Ordered(live) && InSegment(live.trajectory)
    ensures Ordered(Extended(live, sample)) && InSegment(Extended(live, sample).trajectory)
  {
    hide Append, ValidSample, BracketAt, RowsInOrder, InSegment, Sorted, Below;
    AppendBracket(live.trajectory, sample, live.total, live.total);
    AppendInSegment(live.trajectory, sample, live.total);
  }

  lemma CompactedSound(live: Live)
    requires Ordered(live) && InSegment(live.trajectory)
    ensures Ordered(Compacted(live)) && InSegment(Compacted(live).trajectory) && Compacted(live).total == live.total
  {
    hide RetainSamples, Sorted, Below, KeptRows;
    if |live.rows| > POINT_BUDGET {
      ThinOrdered(live, KeptRows(live));
      NewestStays(live.trajectory, Indices(Thinned(live, KeptRows(live)).rows));
    }
  }

  /** Rows sent before are drawn as before when the new sample asks for no redraw. */
  lemma SnapshotGrows(live: Live, sample: FlightSample)
    requires Ordered(live) && InSegment(live.trajectory) && !Append(live.trajectory, sample, live.total).1
    ensures Snapshot(live) <= Snapshot(Extended(live, sample))
    ensures |Extended(live, sample).rows| > |live.rows| ==>
              Extended(live, sample).rows[|live.rows|].index == live.total
  {
    hide Append, ValidSample, CoordinateAt, SegmentAt, Sorted, Below, InSegment;
    var next := Extended(live, sample);
    forall k | 0 <= k < |live.rows| ensures Snapshot(next)[k] == Snapshot(live)[k] {
      RedrawComplete(live.trajectory, sample, live.total, live.rows[k].index, live.rows[k].sample);
    }
  }

  lemma {:induction false} SentStays(live: Live, next: Live, lastIndex: int, n: nat)
    requires n <= |live.rows| && live.rows <= next.rows
    ensures Sent(next, lastIndex, n) == Sent(live, lastIndex, n)
  {
    if n > 0 {
      SentStays(live, next, lastIndex, n - 1);
    }
  }

  /** A row that is not sent yet ends the count. */
  lemma SentBefore(live: Live, lastIndex: int, n: nat)
    requires n < |live.rows| && live.rows[n].index > lastIndex
    ensures Sent(live, lastIndex, n + 1) == Sent(live, lastIndex, n)
  {
  }

  /** Without a redraw, a new sample leaves what was shown as it is. */
  lemma QuietTake(link: Link, sample: FlightSample)
    requires Sound(link) && !link.dirty && !Append(link.live.trajectory, sample, link.live.total).1
    ensures UpToDate(link.(live := Extended(link.live, sample)))
  {
    hide Append, Extended, Snapshot, Ordered, InSegment, Showing, Sent;
    var live, next := link.live, Extended(link.live, sample);
    ExtendedRowsGrow(live, sample);
    SnapshotGrows(live, sample);
    SentStays(live, next, link.lastIndex, |live.rows|);
    if |next.rows| > |live.rows| {
      SentBefore(next, link.lastIndex, |live.rows|);
    }
    ShowingGrows(link.page, link.page3d, link.count3d, Snapshot(live), Snapshot(next), Sent(live, link.lastIndex, |live.rows|));
  }

  lemma ExtendedRowsGrow(live: Live, sample: FlightSample)
    ensures live.rows <= Extended(live, sample).rows && |Extended(live, sample).rows| <= |live.rows| + 1
    ensures Extended(live, sample).total == live.total + 1
  {
    hide Append;
  }

  lemma ReceiveSound(link: Link, sample: FlightSample)
    requires Sound(link) && RoomNext(link.live)
    ensures Sound(ReceiveInto(link, sample))
  {
    hide Append, Extended, Renumbered, Thinned, Ordered, InSegment, Showing, KeptRows, HasRoom, Snapshot, Sent;
    OrderedRows(link.live);
    var start := Readied(link.live);
    ReadiedSound(link.live);
    TakeSound(start, sample);
    ExtendedRowsGrow(start, sample);
    var longer := Extended(start, sample);
    CompactedSound(longer);
    var next := ReceiveInto(link, sample);
    if !next.dirty {
      QuietTake(link, sample);
    }
  }

  // ---------------------------------------------------------------------------------------------
  // Publishing
  // ---------------------------------------------------------------------------------------------

  /** Since rows are in order, the rows not sent yet are those behind the rows that were. */
  lemma {:induction false} PendingIsRest(live: Live, lastIndex: int, n: nat)
    requires RowsInOrder(live) && n <= |live.rows|
    ensures Pending(live, lastIndex, n) == Snapshot(live)[Sent(live, lastIndex, n)..n]
    decreases n
  {
    hide PointOf, RowsInOrder;
    if n > 0 {
      PendingIsRest(live, lastIndex, n - 1);
      var k := Sent(live, lastIndex, n - 1);
      if k < n - 1 {
        RowsRise(live, k, n - 1);
      }
    }
  }

  lemma RowsRise(live: Live, j: nat, k: nat)
    requires RowsInOrder(live) && j < k < |live.rows|
    ensures live.rows[j].index < live.rows[k].index
  {
    assert Indices(live.rows)[j] < Indices(live.rows)[k];
  }

  lemma {:induction false} AllSent(live: Live, n: nat)
    requires RowsInOrder(live) && n <= |live.rows|
    ensures Sent(live, live.total - 1, n) == n
  {
    if n > 0 {
      AllSent(live, n - 1);
    }
  }

  /**
   * After a publication the page holds exactly what a full snapshot shows now; in space it holds at most 5,000 of its
   * points, in order, the newest one included.
   */
  lemma PublishSound(link: Link)
    requires Sound(link)
    ensures var next := Publish(link);
            && Sound(next) && next.live == link.live && !next.dirty
            && Showing(next.page, next.page3d, next.count3d, Snapshot(link.live), |link.live.rows|)
  {
    hide Snapshot, Pending, Ordered, InSegment, Showing, Sent, Positions3d, PickPoints;
    var live, n := link.live, |link.live.rows|;
    var points := Snapshot(live);
    OrderedRows(live);
    AllSent(live, n);
    PendingIsRest(live, link.lastIndex, n);
    assert points[Sent(live, link.lastIndex, n)..n] == points[Sent(live, link.lastIndex, n)..];
    SnapshotShows(points);
    if !link.dirty && link.count3d + |Pending(live, link.lastIndex, n)| <= BUDGET_3D {
      RestShows(link.page, link.page3d, link.count3d, points, Sent(live, link.lastIndex, n));
    }
  }

  /**
   * An incremental publication adds exactly the rows that the page does not have yet, on the map and in space; when
   * they do not fit in space, and whenever a snapshot is due, the points in space are chosen anew.
   */
  lemma PublishSends(link: Link)
    requires Sound(link)
    ensures var points, next, k := Snapshot(link.live), Publish(link), |link.page|;
            var fits := |link.page3d| + |points| - k <= 5_000;
            && (!link.dirty ==> k <= |points| && link.page == points[..k])
            && (!link.dirty && fits ==> next.page3d == link.page3d + points[k..])
            && (link.dirty || !fits ==> ChosenAnew(next.page3d, points))
  {
    hide Snapshot, Pending, Ordered, InSegment, Sent, Positions3d, PickPoints, Picked, ChosenAnew;
    var live, n := link.live, |link.live.rows|;
    var points := Snapshot(live);
    OrderedRows(live);
    PendingIsRest(live, link.lastIndex, n);
    assert points[Sent(live, link.lastIndex, n)..n] == points[Sent(live, link.lastIndex, n)..];
    PositionsEven(points);
  }

  /** Evenly spread points, 2,500 or all there are. */
  ghost predicate ChosenAnew(page: seq<Point>, points: seq<Point>) {
    && |page| == Min(|points|, 2_500)
    && forall j :: 0 <= j < |page| ==> Placed(page[j], points, j)
  }

  ghost predicate Placed(point: Point, points: seq<Point>, j: int) {
    exists p :: StandsAt(point, points, j, p)
  }

  /** Point `p` is the `j`-th of the spread. */
  ghost predicate StandsAt(point: Point, points: seq<Point>, j: int, p: int) {
    && 0 <= p < |points| && point == points[p]
    && (if |points| <= 2_500 then p == j else p * 2_499 <= j * (|points| - 1) < (p + 1) * 2_499)
  }

  lemma PositionsEven(points: seq<Point>)
    ensures ChosenAnew(PickPoints(points, Positions3d(|points|)), points)
  {
    hide Kept, Placed;
    var pos := Positions3d(|points|);
    forall j | 0 <= j < |pos| ensures Placed(PickPoints(points, pos)[j], points, j) {
      PositionEven(points, j);
    }
  }

  lemma PositionEven(points: seq<Point>, j: nat)
    requires j < |Positions3d(|points|)|
    ensures Placed(PickPoints(points, Positions3d(|points|))[j], points, j)
  {
    hide Kept;
    var pos := Positions3d(|points|);
    if |points| > COMPACT_3D {
      KeptEven(|points|, COMPACT_3D, j);
    }
    assert StandsAt(PickPoints(points, pos)[j], points, j, pos[j]);
  }

  /** A sample that moves nothing, with room for its row, asks for no snapshot. */
  lemma QuietStays(link: Link, sample: FlightSample)
    requires RowsInOrder(link.live) && link.live.total < 10_000_000 && |link.live.rows| < 10_000
    requires !link.dirty && !Append(link.live.trajectory, sample, link.live.total).1
    ensures var next := ReceiveInto(link, sample);
            !next.dirty && next.lastIndex == link.lastIndex && next.page == link.page && next.page3d == link.page3d
  {
    hide Append;
  }

  // ---------------------------------------------------------------------------------------------
  // Every run
  // ---------------------------------------------------------------------------------------------

  /** Samples arrive, and at any moments what is pending is published. */
  datatype Event = Arrive(sample: FlightSample) | Send

  function Arrived(events: seq<Event>): seq<FlightSample> {
    if events == [] then []
    else
      var last := events[|events| - 1];
      Arrived(events[..|events| - 1]) + (if last.Arrive? then [last.sample] else [])
  }

  /** The link after a run; publications do not touch the history. */
  function LinkAfter(events: seq<Event>): (r: Link)
    ensures RowsInOrder(r.live)
  {
    if events == [] then NEW_LINK
    else
      var before, last := LinkAfter(events[..|events| - 1]), events[|events| - 1];
      if last.Arrive? then ReceiveInto(before, last.sample) else Publish(before)
  }

  lemma {:induction false} LinkFollows(events: seq<Event>)
    ensures LinkAfter(events).live == LiveAfter(Arrived(events))
    decreases |events|
  {
    hide Receive, Extended, Readied, Compacted;
    if events != [] {
      var init, last := events[..|events| - 1], events[|events| - 1];
      LinkFollows(init);
      assert Arrived(init) + [] == Arrived(init);
      if last.Arrive? {
        assert (Arrived(init) + [last.sample])[..|Arrived(init)|] == Arrived(init);
        ReceivesAlike(LinkAfter(init), last.sample);
      }
    }
  }

  lemma ReceivesAlike(link: Link, sample: FlightSample)
    requires RowsInOrder(link.live)
    ensures ReceiveInto(link, sample).live == Receive(link.live, sample)
  {
    hide Extended, Readied, Compacted;
  }

  lemma {:induction false} RunSound(events: seq<Event>)
    requires Roomy(Arrived(events))
    ensures Sound(LinkAfter(events))
    decreases |events|
  {
    hide Sound, ReceiveInto, Publish, Roomy, RoomNext, LiveAfter;
    if events == [] {
      NewSound();
    } else {
      var init, last := events[..|events| - 1], events[|events| - 1];
      var samples := Arrived(init);
      LinkFollows(init);
      assert Arrived(events)[..|samples|] == samples;
      RoomyBefore(Arrived(events), |samples|);
      RunSound(init);
      if last.Arrive? {
        ReceiveSound(LinkAfter(init), last.sample);
      } else {
        PublishSound(LinkAfter(init));
      }
    }
  }

  lemma NewSound()
    ensures Sound(NEW_LINK)
  {
  }

  /**
   * However publications and samples interleave, each publication leaves the page with exactly one point for each row
   * of the live map: its sample, at the place and in the segment that the full recording gives it. The rows stand for
   * all usable samples, and some of their points, the newest included, are drawn in space.
   */
  lemma PageIsRecording(events: seq<Event>) returns (origin: seq<int>)
    requires Roomy(Arrived(events))
    ensures var link, live := LinkAfter(events + [Send]), LiveAfter(Arrived(events));
            && Represents(Arrived(events), origin) && PageShows(link.page, Arrived(events), origin)
            && |link.page| <= 10_000 && |link.page3d| <= 5_000
            && exists pos :: Picked(link.page3d, link.page, |link.page|, pos)
  {
    hide Sound, Publish, Roomy, LiveAfter, Snapshot, DrawnAlike, Picked, RowsInOrder, Represents, PageShows;
    LinkFollows(events);
    RunSound(events);
    assert (events + [Send])[..|events|] == events;
    PublishSound(LinkAfter(events));
    origin := LiveMapFaithful(Arrived(events));
    RunBounded(Arrived(events));
    var points := Snapshot(LiveAfter(Arrived(events)));
    assert points[..|points|] == points;
    SnapshotShowsRecording(LiveAfter(Arrived(events)), Arrived(events), origin);
  }

  /** Point `k` is sample `origin[k]`, where and in the segment in which the full recording draws it. */
  ghost predicate PageShows(page: seq<Point>, samples: seq<FlightSample>, origin: seq<int>) {
    && |page| == |origin|
    && forall k :: 0 <= k < |page| ==>
         && 0 <= origin[k] < |samples| && page[k].row.sample == samples[origin[k]]
         && page[k].place == Displayed(samples, origin[k])
         && page[k].segment == SegmentAt(Full(samples), origin[k])
  }

  lemma SnapshotShowsRecording(live: Live, samples: seq<FlightSample>, origin: seq<int>)
    requires DrawnAlike(live, samples, origin)
    ensures PageShows(Snapshot(live), samples, origin)
  {
    hide CoordinateAt, SegmentAt, Full, Displayed;
    forall k | 0 <= k < |live.rows|
      ensures CoordinateAt(live.trajectory, live.rows[k].index, live.rows[k].sample) == Displayed(samples, origin[k])
    {
      DisplayedByTrajectory(samples, origin[k]);
    }
  }
}
