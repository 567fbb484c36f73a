/** From the bytes of the serial link to the rows of the live map. */
module LiveFeed {
  import opened Domain
  import opened TelemetryCsv
  import opened TelemetryStream
  import opened GpsTrajectory
  import opened GpsHistory
  import opened GpsRecording
  import opened LiveHistory
  import opened LiveSchedule
  import opened LiveMap

  /** `std::hypot` of the three components. */
  type Magnitude = Triple -> Reading

  /** The correction for flight computers that send western longitudes without a sign. */
  function CorrectedLongitude(latitude: real, longitude: real, enabled: bool): real {
    if enabled && Abs(latitude) <= 90.0 && 0.0 < longitude <= 180.0 then -longitude else longitude
  }

  /** A decoded sample as charts and map see it; the text protocol has no battery voltage. */
  function FlightOf(magnitude: Magnitude, t: TelemetrySample, west: bool): FlightSample {
    FlightSample(t.timestamp, t.rssi, magnitude(t.angularVelocity), magnitude(t.acceleration),
                 Coordinates(Finite(t.latitude), Finite(CorrectedLongitude(t.latitude, t.longitude, west))),
                 Finite(t.altitude), Finite(t.pressure), Finite(t.temperature), Finite(0.0))
  }

  ghost predicate Reads(parse: NumberParser, cell: string, value: Reading) {
    value.Finite? && parse(cell) == Some(value.value)
  }

  /** The three numbers of three cells. */
  ghost predicate ReadsTriple(parse: NumberParser, x: string, y: string, z: string, t: Triple) {
    parse(x) == Some(t.x) && parse(y) == Some(t.y) && parse(z) == Some(t.z)
  }

  /**
   * From the cells of a line to the sample on the map: every reading is the number in its cell, or the magnitude of three,
   * and with the correction switched on the longitude is always western.
   */
  lemma FlightFields(parse: NumberParser, row: string, magnitude: Magnitude, west: bool) returns (a: Triple, w: Triple)
    requires Strict(parse) && DecodeRow(parse, row).Some?
    ensures var cells, f := SplitCells(row), FlightOf(magnitude, DecodeRow(parse, row).value, west);
            && 16 <= |cells| <= 17
            && parse(cells[0]) == Some(f.timestamp as real)
            && Reads(parse, cells[1], f.temperature) && Reads(parse, cells[2], f.pressure) && Reads(parse, cells[3], f.altitude)
            && ReadsTriple(parse, cells[4], cells[5], cells[6], a) && f.acceleration == magnitude(a)
            && ReadsTriple(parse, cells[7], cells[8], cells[9], w) && f.angularRate == magnitude(w)
            && Reads(parse, cells[13], f.coordinates.latitude)
            && parse(cells[14]).Some? && f.coordinates.longitude.Finite?
            && f.coordinates.longitude.value == (if west then -Abs(parse(cells[14]).value) else parse(cells[14]).value)
            && (if |cells| == 17 then Reads(parse, cells[16], f.rssi) else f.rssi.NotFinite?)
            && f.batteryVoltage == Finite(0.0)
  {
    hide DecodeRow, SplitCells, Strict;
    DecodedFields(parse, row);
    a, w := DecodeRow(parse, row).value.acceleration, DecodeRow(parse, row).value.angularVelocity;
  }

  /** All of them, the correction switched on or off for each. */
  function Feed(magnitude: Magnitude, samples: seq<TelemetrySample>, west: seq<bool>): (r: seq<FlightSample>)
    requires |west| == |samples|
    ensures |r| == |samples| && forall k :: 0 <= k < |r| ==> r[k] == FlightOf(magnitude, samples[k], west[k])
  {
    seq(|samples|, k requires 0 <= k < |samples| => FlightOf(magnitude, samples[k], west[k]))
  }

  /** The decoder's own bound on timestamps is far inside the map's. */
  lemma DecodedIsTimely(parse: NumberParser, row: string, magnitude: Magnitude, west: bool)
    requires DecodeRow(parse, row).Some?
    ensures var t := DecodeRow(parse, row).value;
            0 <= t.timestamp <= 1_000_000_000_000 && Timely(FlightOf(magnitude, t, west))
  {
    hide ReadCells, ReadTail, IgnoredRow;
  }

  lemma {:induction false} StreamIsTimely(parse: NumberParser, maxLineBytes: nat, events: seq<Event>, magnitude: Magnitude)
    ensures forall t, west :: t in StreamSamples(parse, maxLineBytes, events) ==> Timely(FlightOf(magnitude, t, west))
    decreases |events|
  {
    hide DecodeRow, Timely, FlightOf;
    if events != [] {
      var init := events[..|events| - 1];
      StreamIsTimely(parse, maxLineBytes, init, magnitude);
      forall west: bool | DecodeRow(parse, Text(OpenLine(init))).Some?
        ensures Timely(FlightOf(magnitude, DecodeRow(parse, Text(OpenLine(init))).value, west))
      {
        DecodedIsTimely(parse, Text(OpenLine(init)), magnitude, west);
      }
    }
  }

  /**
   * From bytes to the map: whatever arrives, in whatever chunks, with whatever gaps, every row of the live map is one
   * completed line, drawn at the place and in the segment that the lines alone determine; and the map stays small.
   */
  lemma BytesToMap(parse: NumberParser, magnitude: Magnitude, maxLineBytes: nat, events: seq<Event>, west: seq<bool>)
    returns (origin: seq<int>)
    requires maxLineBytes > 0 && |west| == |StreamSamples(parse, maxLineBytes, events)|
    ensures Run(parse, Fresh(maxLineBytes), events).1 == StreamSamples(parse, maxLineBytes, events)
    ensures var lines := Feed(magnitude, StreamSamples(parse, maxLineBytes, events), west);
            var live := LiveAfter(lines);
            && DrawnAlike(live, lines, origin) && Represents(lines, origin)
            && |live.rows| <= POINT_BUDGET && |live.trajectory.fixes| <= |live.rows| + COMPACT_TARGET + 1
            && forall k :: 0 <= k < |live.rows| ==>
                 CoordinateAt(live.trajectory, live.rows[k].index, live.rows[k].sample) == Displayed(lines, origin[k])
  {
    hide StreamSamples, LiveAfter, Timely, FlightOf, Roomy, CoordinateAt, SegmentAt, Full, Displayed, Run, UntimelyCount,
      Represents;
    var samples := StreamSamples(parse, maxLineBytes, events);
    var lines := Feed(magnitude, samples, west);
    StreamSound(parse, maxLineBytes, events);
    StreamIsTimely(parse, maxLineBytes, events, magnitude);
    assert forall k :: 0 <= k < |lines| ==> samples[k] in samples;
    TimelyIsRoomy(lines);
    origin := LiveMapFaithful(lines);
    RunBounded(lines);
    NoneUntimely(lines);
    var live := LiveAfter(lines);
    forall k | 0 <= k < |live.rows|
      ensures CoordinateAt(live.trajectory, live.rows[k].index, live.rows[k].sample) == Displayed(lines, origin[k])
    {
      DisplayedByTrajectory(lines, origin[k]);
    }
  }
}
