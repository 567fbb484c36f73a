/**
 * The live line decoder as a state machine over bytes, stream gaps and the end of the stream, and what it emits in
 * terms of the whole stream. Splitting the stream into chunks leaves no trace.
 */
module TelemetryStream {
  import opened Domain
  import opened TelemetryCsv

  /** Diagnostic of the latest complete data row. */
  datatype Diagnostic = Diagnostic(sequence: nat, masks: Masks, malformed: bool)

  datatype Decoder = Decoder(
    maxLineBytes: nat,
    pending: string,
    malformedLines: nat,
    last: Diagnostic,
    discarding: bool,
    oversized: bool)

  const NO_MASKS: Masks := Masks({}, {})
  const NO_DIAGNOSTIC: Diagnostic := Diagnostic(0, NO_MASKS, false)

  function Fresh(maxLineBytes: nat): Decoder {
    Decoder(Max(1, maxLineBytes), "", 0, NO_DIAGNOSTIC, false, false)
  }

  datatype Event = Byte(c: char) | Gap | Finish

  type Output = (Decoder, seq<TelemetrySample>)

  /** A complete line: nothing for headers and empty lines, a sample, or a malformed row with its diagnostic. */
  function ProcessLine(parse: NumberParser, d: Decoder, line: string): Output {
    var clean := StripLineEnding(line);
    if IgnoredRow(clean) then (d, [])
    else
      var sample := DecodeRow(parse, clean);
      var masks := if sample.None? then MaskCells(parse, SplitCells(clean), FIELD_COUNT) else NO_MASKS;
      var noted := d.(last := Diagnostic(d.last.sequence + 1, masks, sample.None?));
      if sample.Some? then (noted, [sample.value]) else (noted.(malformedLines := d.malformedLines + 1), [])
  }

  /** An oversized line has ended. */
  function CloseOversized(d: Decoder): Decoder {
    if d.oversized then d.(last := Diagnostic(d.last.sequence + 1, NO_MASKS, true), oversized := false) else d
  }

  function TakeByte(parse: NumberParser, d: Decoder, c: char): Output {
    if d.discarding then
      if c == '\n' then (CloseOversized(d).(discarding := false), []) else (d, [])
    else if c == '\n' then
      var (next, samples) := ProcessLine(parse, d, d.pending);
      (next.(pending := ""), samples)
    else if |d.pending| >= d.maxLineBytes then
      (d.(pending := "", discarding := true, malformedLines := d.malformedLines + 1, oversized := true), [])
    else (d.(pending := d.pending + [c]), [])
  }

  function TakeFinish(parse: NumberParser, d: Decoder): Output {
    var closed := CloseOversized(d);
    var (next, samples) :=
      if !closed.discarding && closed.pending != "" then ProcessLine(parse, closed, closed.pending) else (closed, []);
    (next.(pending := "", discarding := false), samples)
  }

  function Step(parse: NumberParser, d: Decoder, event: Event): Output {
    match event
    case Byte(c) => TakeByte(parse, d, c)
    case Gap => (d.(pending := "", discarding := true), [])
    case Finish => TakeFinish(parse, d)
  }

  function Run(parse: NumberParser, d: Decoder, events: seq<Event>): Output {
    if events == [] then (d, [])
    else
      var (before, samples) := Run(parse, d, events[..|events| - 1]);
      var (after, more) := Step(parse, before, events[|events| - 1]);
      (after, samples + more)
  }

  /** Running in pieces is running at once. */
  lemma {:induction false} RunAppend(parse: NumberParser, d: Decoder, a: seq<Event>, b: seq<Event>)
    ensures var (mid, first) := Run(parse, d, a);
            var (end, second) := Run(parse, mid, b);
            Run(parse, d, a + b) == (end, first + second)
    decreases |b|
  {
    hide Step;
    if b == [] {
      assert a + b == a;
      assert Run(parse, d, a).1 + [] == Run(parse, d, a).1;
    } else {
      var init, last := b[..|b| - 1], b[|b| - 1];
      assert (a + b)[..|a + b| - 1] == a + init;
      RunAppend(parse, d, a, init);
      var (mid, first) := Run(parse, d, a);
      var (before, samples) := Run(parse, mid, init);
      var (after, more) := Step(parse, before, last);
      assert first + samples + more == first + (samples + more);
    }
  }

  // ---------------------------------------------------------------------------------------------
  // The whole stream
  // ---------------------------------------------------------------------------------------------

  /** A newline or the end of the stream completes a line. */
  predicate Completes(event: Event) {
    event == Byte('\n') || event == Finish
  }

  /** What came since the last completed line. */
  function OpenLine(events: seq<Event>): (r: seq<Event>)
    ensures |r| <= |events| && forall k :: 0 <= k < |r| ==> !Completes(r[k])
  {
    if events == [] || Completes(events[|events| - 1]) then []
    else OpenLine(events[..|events| - 1]) + [events[|events| - 1]]
  }

  /** The text of a line without gaps. */
  function Text(line: seq<Event>): (r: string)
    ensures |r| == |line|
  {
    seq(|line|, k requires 0 <= k < |line| => if line[k].Byte? then line[k].c else ' ')
  }

  /** The samples of one line: its decode, if no gap fell into it and it is not too long. */
  function LineSamples(parse: NumberParser, maxLineBytes: nat, line: seq<Event>): seq<TelemetrySample> {
    if Gap in line || |line| > maxLineBytes then []
    else
      var sample := DecodeRow(parse, Text(line));
      if sample.Some? then [sample.value] else []
  }

  /** The samples of all completed lines, in order. */
  function StreamSamples(parse: NumberParser, maxLineBytes: nat, events: seq<Event>): seq<TelemetrySample> {
    if events == [] then []
    else
      var init := events[..|events| - 1];
      StreamSamples(parse, maxLineBytes, init) +
      (if Completes(events[|events| - 1]) then LineSamples(parse, maxLineBytes, OpenLine(init)) else [])
  }

  /** The number of bytes before the first gap of a line. */
  function BytesBeforeGap(line: seq<Event>): (r: nat)
    ensures r <= |line| && (Gap !in line ==> r == |line|)
  {
    if line == [] || line[0] == Gap then 0 else 1 + BytesBeforeGap(line[1..])
  }

  lemma {:induction false} BytesBeforeGapSnoc(line: seq<Event>, event: Event)
    ensures BytesBeforeGap(line + [event])
         == if event != Gap && Gap !in line then BytesBeforeGap(line) + 1 else BytesBeforeGap(line)
    decreases |line|
  {
    if line == [] {
      assert line + [event] == [event];
    } else {
      assert (line + [event])[1..] == line[1..] + [event];
      assert Gap in line <==> line[0] == Gap || Gap in line[1..];
      if line[0] != Gap {
        BytesBeforeGapSnoc(line[1..], event);
      }
    }
  }

  /** The decoder's fields, read off the open line. */
  ghost predicate Tracks(d: Decoder, maxLineBytes: nat, line: seq<Event>) {
    && d.maxLineBytes == maxLineBytes
    && (d.discarding <==> Gap in line || |line| > maxLineBytes)
    && d.pending == (if d.discarding then "" else Text(line))
    && (d.oversized <==> BytesBeforeGap(line) > maxLineBytes)
  }

  lemma TextSnoc(line: seq<Event>, c: char)
    ensures Text(line + [Byte(c)]) == Text(line) + [c]
  {
  }

  lemma {:induction false} StripIdempotent(line: string)
    ensures StripLineEnding(StripLineEnding(line)) == StripLineEnding(line)
  {
  }

  lemma DecodeStripped(parse: NumberParser, line: string)
    ensures DecodeRow(parse, StripLineEnding(line)) == DecodeRow(parse, line)
    ensures IgnoredRow(StripLineEnding(line)) ==> DecodeRow(parse, line) == None
  {
    StripIdempotent(line);
  }

  /** Processing a line emits its decode and counts a completed row once. */
  lemma ProcessSound(parse: NumberParser, d: Decoder, line: string)
    ensures var (r, samples) := ProcessLine(parse, d, line);
            && samples == (if DecodeRow(parse, line).Some? then [DecodeRow(parse, line).value] else [])
            && r == d.(last := r.last, malformedLines := r.malformedLines)
            && |samples| + r.malformedLines + d.last.sequence == d.malformedLines + r.last.sequence
  {
    hide DecodeRow, IgnoredRow, SplitCells, MaskCells;
    DecodeStripped(parse, line);
  }

  /** Headers leave no trace, with or without a carriage return. */
  lemma HeadersAreSilent(parse: NumberParser, d: Decoder, header: string)
    requires header == HEADER || header == LEGACY_HEADER
    ensures ProcessLine(parse, d, header) == (d, []) && ProcessLine(parse, d, header + "\r") == (d, [])
  {
    hide DecodeRow, MaskCells, SplitCells;
    assert (header + "\r")[..|header|] == header;
    assert header[|header| - 1] != '\n' && header[|header| - 1] != '\r';
  }

  lemma StepTracks(parse: NumberParser, d: Decoder, maxLineBytes: nat, line: seq<Event>, event: Event)
    requires Tracks(d, maxLineBytes, line) && forall k :: 0 <= k < |line| ==> !Completes(line[k])
    ensures var (r, samples) := Step(parse, d, event);
            && Tracks(r, maxLineBytes, if Completes(event) then [] else line + [event])
            && samples == (if Completes(event) then LineSamples(parse, maxLineBytes, line) else [])
  {
    hide ProcessLine, DecodeRow, StripLineEnding;
    BytesBeforeGapSnoc(line, event);
    ProcessSound(parse, d, d.pending);
    ProcessSound(parse, CloseOversized(d), d.pending);
    EmptyLineSilent(parse);
    if event.Byte? {
      TextSnoc(line, event.c);
    }
    assert forall e :: e in line + [event] <==> e in line || e == event;
  }

  lemma EmptyLineSilent(parse: NumberParser)
    ensures DecodeRow(parse, "") == None
  {
  }

  /**
   * For any bytes, gaps and stream ends: the samples emitted are exactly the decodes, in order, of the completed
   * lines that fit the limit and have no gap in them, and the buffer holds nothing but an open line that does.
   */
  lemma {:induction false} StreamSound(parse: NumberParser, maxLineBytes: nat, events: seq<Event>)
    requires maxLineBytes > 0
    ensures var (d, samples) := Run(parse, Fresh(maxLineBytes), events);
            && Tracks(d, maxLineBytes, OpenLine(events))
            && samples == StreamSamples(parse, maxLineBytes, events)
            && |d.pending| <= maxLineBytes
    decreases |events|
  {
    hide Step, LineSamples;
    if events != [] {
      var init, last := events[..|events| - 1], events[|events| - 1];
      StreamSound(parse, maxLineBytes, init);
      StepTracks(parse, Run(parse, Fresh(maxLineBytes), init).0, maxLineBytes, OpenLine(init), last);
    }
  }

  /** Every completed data row is either accepted or malformed; an oversized line is malformed before it completes. */
  lemma {:induction false} RowsAccounted(parse: NumberParser, maxLineBytes: nat, events: seq<Event>)
    ensures var (d, samples) := Run(parse, Fresh(maxLineBytes), events);
            && |samples| + d.malformedLines == d.last.sequence + (if d.oversized then 1 else 0)
            && (d.oversized ==> d.discarding)
            && (d.discarding ==> d.pending == "")
    decreases |events|
  {
    hide ProcessLine;
    if events != [] {
      var init := events[..|events| - 1];
      RowsAccounted(parse, maxLineBytes, init);
      var (d, samples) := Run(parse, Fresh(maxLineBytes), init);
      ProcessSound(parse, d, d.pending);
      ProcessSound(parse, CloseOversized(d), d.pending);
    }
  }
}
