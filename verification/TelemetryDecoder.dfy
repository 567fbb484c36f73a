/** The decoder as the program keeps it: bytes of a chunk are taken one by one, fields change in place. */
module TelemetryDecoder {
  import opened Domain
  import opened TelemetryCsv
  import opened TelemetryStream

  /** A chunk of bytes as events. */
  function Bytes(data: seq<char>): (r: seq<Event>)
    ensures |r| == |data| && forall k :: 0 <= k < |r| ==> r[k] == Byte(data[k])
  {
    seq(|data|, k requires 0 <= k < |data| => Byte(data[k]))
  }

  class LineDecoder {
    const parse: NumberParser
    const maxLineBytes: nat
    var pending: string
    var malformedLines: nat
    var last: Diagnostic
    var discarding: bool
    var oversized: bool

    function View(): Decoder
      reads this
    {
      Decoder(maxLineBytes, pending, malformedLines, last, discarding, oversized)
    }

    constructor (parse: NumberParser, maxLineBytes: nat)
      ensures View() == Fresh(maxLineBytes) && this.parse == parse
    {
      this.parse := parse;
      this.maxLineBytes := Max(1, maxLineBytes);
      pending, malformedLines, last, discarding, oversized := "", 0, NO_DIAGNOSTIC, false, false;
    }

    method Reset()
      requires maxLineBytes > 0
      modifies this
      ensures View() == Fresh(maxLineBytes)
    {
      pending, malformedLines, last, discarding, oversized := "", 0, NO_DIAGNOSTIC, false, false;
    }

    method NotifyDataGap()
      modifies this
      ensures View() == Run(parse, old(View()), [Gap]).0
    {
      OneEvent(parse, View(), Gap);
      pending := "";
      discarding := true;
    }

    /** Ingest a chunk; the samples are those of its bytes taken one after the other. */
    method Ingest(data: seq<char>) returns (samples: seq<TelemetrySample>)
      modifies this
      ensures (View(), samples) == Run(parse, old(View()), Bytes(data))
    {
      hide TakeByte;
      samples := [];
      ghost var start := View();
      for index := 0 to |data|
        invariant (View(), samples) == Run(parse, start, Bytes(data)[..index])
      {
        assert Bytes(data)[..index + 1][..index] == Bytes(data)[..index];
        var more := IngestByte(data[index]);
        samples := samples + more;
      }
      assert Bytes(data)[..|data|] == Bytes(data);
    }

    method IngestByte(byte: char) returns (samples: seq<TelemetrySample>)
      modifies this
      ensures (View(), samples) == TakeByte(parse, old(View()), byte)
    {
      hide ProcessLine;
      samples := [];
      if discarding {
        if byte == '\n' {
          EndOversized();
          discarding := false;
        }
      } else if byte == '\n' {
        samples := Process(pending);
        pending := "";
      } else if |pending| >= maxLineBytes {
        pending := "";
        discarding := true;
        malformedLines := malformedLines + 1;
        oversized := true;
      } else {
        pending := pending + [byte];
      }
    }

    /** Finish the stream and decode a last row without a newline. */
    method FinishStream() returns (samples: seq<TelemetrySample>)
      modifies this
      ensures (View(), samples) == Run(parse, old(View()), [Finish])
    {
      hide ProcessLine;
      OneEvent(parse, View(), Finish);
      samples := [];
      EndOversized();
      if !discarding && pending != "" {
        samples := Process(pending);
      }
      pending := "";
      discarding := false;
    }

    method EndOversized()
      modifies this
      ensures View() == CloseOversized(old(View()))
    {
      if oversized {
        last := Diagnostic(last.sequence + 1, NO_MASKS, true);
        oversized := false;
      }
    }

    method Process(line: string) returns (samples: seq<TelemetrySample>)
      modifies this
      ensures (View(), samples) == ProcessLine(parse, old(View()), line)
    {
      hide DecodeRow, SplitCells, MaskCells;
      var clean := StripLineEnding(line);
      if IgnoredRow(clean) {
        return [];
      }
      var sample := DecodeRow(parse, clean);
      var masks := NO_MASKS;
      if sample.None? {
        var cells := Split(clean);
        masks := MarkCells(parse, cells);
      }
      last := Diagnostic(last.sequence + 1, masks, sample.None?);
      if sample.Some? {
        return [sample.value];
      }
      malformedLines := malformedLines + 1;
      samples := [];
    }
  }

  /** Mark each mandatory cell as missing or invalid. */
  method MarkCells(parse: NumberParser, cells: seq<string>) returns (m: Masks)
    ensures m == MaskCells(parse, cells, FIELD_COUNT)
  {
    hide CellValid, Blank;
    m := NO_MASKS;
    for i := 0 to FIELD_COUNT
      invariant m == MaskCells(parse, cells, i)
    {
      if i >= |cells| || Blank(cells[i]) {
        m := m.(missing := m.missing + {i});
      } else if !CellValid(parse, i, cells[i]) {
        m := m.(invalid := m.invalid + {i});
      }
    }
  }

  lemma OneEvent(parse: NumberParser, d: Decoder, event: Event)
    ensures Run(parse, d, [event]) == Step(parse, d, event)
  {
    hide Step;
    assert [event][..0] == [];
    assert Run(parse, d, []) == (d, []);
    assert [] + Step(parse, d, event).1 == Step(parse, d, event).1;
  }

  /** However a stream is cut into chunks, ingesting them one by one runs the decoder over the whole stream. */
  lemma ChunksDoNotMatter(parse: NumberParser, d: Decoder, first: seq<char>, second: seq<char>)
    ensures var (mid, a) := Run(parse, d, Bytes(first));
            var (end, b) := Run(parse, mid, Bytes(second));
            Run(parse, d, Bytes(first + second)) == (end, a + b)
  {
    assert Bytes(first + second) == Bytes(first) + Bytes(second);
    RunAppend(parse, d, Bytes(first), Bytes(second));
  }
}
