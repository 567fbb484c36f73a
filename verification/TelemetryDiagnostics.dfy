/** The diagnostics of the live line decoder, in terms of the whole stream. */
module TelemetryDiagnostics {
  import opened Domain
  import opened TelemetryCsv
  import opened TelemetryStream

  datatype Outcome = Outcome(masks: Masks, malformed: bool)

  /** The diagnostic of one line: nothing for headers, empty lines and lines that a gap cut before they were too long. */
  function LineOutcome(parse: NumberParser, maxLineBytes: nat, line: seq<Event>): Option<Outcome> {
    if BytesBeforeGap(line) > maxLineBytes then Some(Outcome(NO_MASKS, true))
    else if Gap in line then None
    else
      var clean := StripLineEnding(Text(line));
      if IgnoredRow(clean) then None
      else if DecodeRow(parse, clean).Some? then Some(Outcome(NO_MASKS, false))
      else Some(Outcome(MaskCells(parse, SplitCells(clean), FIELD_COUNT), true))
  }

  /** The diagnostics of all completed data rows, in order. */
  function Outcomes(parse: NumberParser, maxLineBytes: nat, events: seq<Event>): seq<Outcome> {
    if events == [] then []
    else
      var init := events[..|events| - 1];
      var outcome := LineOutcome(parse, maxLineBytes, OpenLine(init));
      Outcomes(parse, maxLineBytes, init) + (if Completes(events[|events| - 1]) && outcome.Some? then [outcome.value] else [])
  }

  function MalformedCount(outcomes: seq<Outcome>): nat {
    if outcomes == [] then 0
    else MalformedCount(outcomes[..|outcomes| - 1]) + (if outcomes[|outcomes| - 1].malformed then 1 else 0)
  }

  /** The counters and the latest diagnostic, read off the outcomes so far. */
  ghost predicate Reports(d: Decoder, outcomes: seq<Outcome>) {
    && d.last.sequence == |outcomes|
    && d.last.masks == (if outcomes == [] then NO_MASKS else outcomes[|outcomes| - 1].masks)
    && d.last.malformed == (if outcomes == [] then false else outcomes[|outcomes| - 1].malformed)
    && d.malformedLines == MalformedCount(outcomes) + (if d.oversized then 1 else 0)
  }

  lemma MalformedSnoc(outcomes: seq<Outcome>, o: Outcome)
    ensures MalformedCount(outcomes + [o]) == MalformedCount(outcomes) + (if o.malformed then 1 else 0)
  {
    assert (outcomes + [o])[..|outcomes|] == outcomes;
  }

  lemma StepReports(parse: NumberParser, d: Decoder, maxLineBytes: nat, line: seq<Event>, event: Event, outcomes: seq<Outcome>)
    requires Tracks(d, maxLineBytes, line) && forall k :: 0 <= k < |line| ==> !Completes(line[k])
    requires Reports(d, outcomes)
    ensures var o := LineOutcome(parse, maxLineBytes, line);
            Reports(Step(parse, d, event).0, outcomes + (if Completes(event) && o.Some? then [o.value] else []))
  {
    hide DecodeRow, StripLineEnding, IgnoredRow, MaskCells, SplitCells, Text, BytesBeforeGap;
    var o := LineOutcome(parse, maxLineBytes, line);
    EmptyLineIgnored();
    NoEvents(line);
    if o.Some? {
      MalformedSnoc(outcomes, o.value);
    }
    assert outcomes + [] == outcomes;
  }

  lemma EmptyLineIgnored()
    ensures IgnoredRow(StripLineEnding(""))
  {
  }

  lemma NoEvents(line: seq<Event>)
    ensures Text(line) == "" <==> line == []
    ensures Text([]) == ""
  {
  }

  /** The latest diagnostic and the malformed count are exactly those of the completed rows, plus an open oversized line. */
  lemma {:induction false} DiagnosticsSound(parse: NumberParser, maxLineBytes: nat, events: seq<Event>)
    requires maxLineBytes > 0
    ensures Reports(Run(parse, Fresh(maxLineBytes), events).0, Outcomes(parse, maxLineBytes, events))
    decreases |events|
  {
    hide Step, LineOutcome, Tracks, Reports, LineSamples;
    if events == [] {
      FreshReports(maxLineBytes);
    } else {
      var init, last := events[..|events| - 1], events[|events| - 1];
      var d := Run(parse, Fresh(maxLineBytes), init).0;
      DiagnosticsSound(parse, maxLineBytes, init);
      StreamSound(parse, maxLineBytes, init);
      StepReports(parse, d, maxLineBytes, OpenLine(init), last, Outcomes(parse, maxLineBytes, init));
    }
  }

  lemma FreshReports(maxLineBytes: nat)
    ensures Reports(Fresh(maxLineBytes), [])
  {
  }
}
