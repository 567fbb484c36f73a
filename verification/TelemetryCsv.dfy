/**
 * The two parsers of a live telemetry row: the decoder walks a cursor from comma to comma, the diagnostic splits the
 * whole row into cells. Text to number conversion is a parameter.
 */
module TelemetryCsv {
  import opened Domain

  const FIELD_COUNT: nat := 16
  const MAX_MAGNITUDE: real := 1000000000000.0
  const TWO_TO_63: real := 9223372036854775808.0

  const HEADER: string :=
    "timestamp_ms,temp,pressure,altitude,ax,ay,az,gx,gy,gz,anglex,angley,anglez,latitude,longitude,distance_from_base,rssi"
  const LEGACY_HEADER: string :=
    "timestamp_ms,temp,pressure,altitude,ax,ay,az,gx,gy,gz,anglex,angley,anglez,latitude,longitude,distance_from_base"

  /** A complete, finite conversion of a text, or nothing. */
  type NumberParser = string -> Option<real>

  /** Blank characters of a cell. */
  predicate Blank(text: string) {
    forall k :: 0 <= k < |text| ==> text[k] in " \t\r"
  }

  /** What the conversion must guarantee: nothing comes from blank text or from text with a comma. */
  ghost predicate Strict(parse: NumberParser) {
    forall text: string :: Blank(text) || ',' in text ==> parse(text) == None
  }

  datatype Triple = Triple(x: real, y: real, z: real)

  datatype TelemetrySample = TelemetrySample(
    timestamp: int,
    rssi: Reading,
    temperature: real,
    pressure: real,
    altitude: real,
    acceleration: Triple,
    angularVelocity: Triple,
    angularRotation: Triple,
    latitude: real,
    longitude: real)

  function StripLineEnding(line: string): (r: string)
    ensures r <= line
    ensures r == [] || (r[|r| - 1] != '\n' && r[|r| - 1] != '\r')
    ensures forall k :: |r| <= k < |line| ==> line[k] == '\n' || line[k] == '\r'
  {
    if line != [] && (line[|line| - 1] == '\n' || line[|line| - 1] == '\r')
    then StripLineEnding(line[..|line| - 1]) else line
  }

  function ParseFinite(parse: NumberParser, text: string): Option<real> {
    if text == "" then None else parse(text)
  }

  predicate ValidTimestamp(v: real) {
    v >= 0.0 && v <= MAX_MAGNITUDE && (v.Floor as real) == v && v < TWO_TO_63
  }

  predicate IgnoredRow(clean: string) {
    clean == "" || clean == HEADER || clean == LEGACY_HEADER
  }

  // ---------------------------------------------------------------------------------------------
  // The cursor
  // ---------------------------------------------------------------------------------------------

  /** `find(',', from)`. */
  function FindComma(s: string, from: nat): (r: Option<nat>)
    requires from <= |s|
    ensures r.None? ==> ',' !in s[from..]
    ensures r.Some? ==> from <= r.value < |s| && s[r.value] == ',' && ',' !in s[from..r.value]
    decreases |s| - from
  {
    if from == |s| then None
    else if s[from] == ',' then Some(from)
    else
      var r := FindComma(s, from + 1);
      assert s[from..] == [s[from]] + s[from + 1..];
      assert r.Some? ==> s[from..r.value] == [s[from]] + s[from + 1..r.value];
      r
  }

  /** Cells `index..16` from the cursor on, with the cursor behind the last of them. */
  function ReadCells(parse: NumberParser, clean: string, index: nat, cursor: nat): (r: Option<(seq<real>, nat)>)
    requires index <= FIELD_COUNT && (cursor <= |clean| || index == FIELD_COUNT)
    ensures r.Some? ==> |r.value.0| == FIELD_COUNT - index
    decreases FIELD_COUNT - index
  {
    if index == FIELD_COUNT then Some(([], cursor))
    else
      var separator := FindComma(clean, cursor);
      if index + 1 != FIELD_COUNT && separator.None? then None
      else
        var cellEnd := if separator.None? then |clean| else separator.value;
        var value := ParseFinite(parse, clean[cursor..cellEnd]);
        if value.None? then None
        else
          var rest := ReadCells(parse, clean, index + 1, cellEnd + 1);
          if rest.None? then None else Some(([value.value] + rest.value.0, rest.value.1))
  }

  /** The optional cell behind the mandatory ones: absent, bad, or a link strength. */
  datatype Tail = Absent | Bad | Strength(rssi: real)

  function TailCell(parse: NumberParser, text: string): (r: Tail)
    ensures !r.Absent?
  {
    var value := ParseFinite(parse, text);
    if value.None? || Abs(value.value) > MAX_MAGNITUDE then Bad else Strength(value.value)
  }

  function ReadTail(parse: NumberParser, clean: string, cursor: nat): Tail {
    if cursor > |clean| then Absent else TailCell(parse, clean[cursor..])
  }

  predicate InBounds(values: seq<real>)
    requires |values| == FIELD_COUNT
  {
    && (forall k :: 0 <= k < FIELD_COUNT ==> Abs(values[k]) <= MAX_MAGNITUDE)
    && ValidTimestamp(values[0])
    && !(values[13] < -90.0) && !(values[13] > 90.0) && !(values[14] < -180.0) && !(values[14] > 180.0)
  }

  function SampleOf(values: seq<real>, tail: Tail): TelemetrySample
    requires |values| == FIELD_COUNT
  {
    TelemetrySample(
      values[0].Floor,
      if tail.Strength? then Finite(tail.rssi) else NotFinite,
      values[1], values[2], values[3],
      Triple(values[4], values[5], values[6]),
      Triple(values[7], values[8], values[9]),
      Triple(values[10], values[11], values[12]),
      values[13], values[14])
  }

  /** Decode one row, or nothing for a header or a malformed row. */
  function DecodeRow(parse: NumberParser, row: string): Option<TelemetrySample> {
    var clean := StripLineEnding(row);
    if IgnoredRow(clean) then None
    else
      var cells := ReadCells(parse, clean, 0, 0);
      if cells.None? then None
      else
        var (values, cursor) := cells.value;
        var tail := ReadTail(parse, clean, cursor);
        if tail.Bad? || !InBounds(values) then None else Some(SampleOf(values, tail))
  }

  // ---------------------------------------------------------------------------------------------
  // The splitter
  // ---------------------------------------------------------------------------------------------

  function SplitFrom(s: string, from: nat, cell: string): (r: seq<string>)
    requires from <= |s|
    ensures |r| > 0
    decreases |s| - from
  {
    if from == |s| then [cell]
    else if s[from] == ',' then [cell] + SplitFrom(s, from + 1, "")
    else SplitFrom(s, from + 1, cell + [s[from]])
  }

  function SplitCells(line: string): (r: seq<string>)
    ensures |r| > 0
  {
    SplitFrom(StripLineEnding(line), 0, "")
  }

  /** Split character by character, as the program does. */
  method Split(line: string) returns (cells: seq<string>)
    ensures cells == SplitCells(line)
  {
    var clean := StripLineEnding(line);
    cells := [];
    var cell := "";
    for i := 0 to |clean|
      invariant cells + SplitFrom(clean, i, cell) == SplitFrom(clean, 0, "")
    {
      ghost var before := cells + SplitFrom(clean, i, cell);
      if clean[i] == ',' {
        assert before == (cells + [cell]) + SplitFrom(clean, i + 1, "");
        cells := cells + [cell];
        cell := "";
      } else {
        cell := cell + [clean[i]];
      }
    }
    cells := cells + [cell];
  }

  /** The rules for one mandatory cell. */
  predicate CellValid(parse: NumberParser, i: nat, cell: string) {
    var value := ParseFinite(parse, cell);
    && value.Some? && Abs(value.value) <= MAX_MAGNITUDE
    && !(i == 13 && Abs(value.value) > 90.0)
    && !(i == 14 && Abs(value.value) > 180.0)
    && !(i == 0 && !ValidTimestamp(value.value))
  }

  /** The diagnostic of a rejected row: positions that are missing and positions that are invalid. */
  datatype Masks = Masks(missing: set<nat>, invalid: set<nat>)

  function MaskCells(parse: NumberParser, cells: seq<string>, upTo: nat): (m: Masks)
    ensures m.missing !! m.invalid
    ensures forall i: nat :: i in m.missing <==> i < upTo && (i >= |cells| || Blank(cells[i]))
    ensures forall i: nat :: i in m.invalid <==> i < upTo && i < |cells| && !Blank(cells[i]) && !CellValid(parse, i, cells[i])
  {
    if upTo == 0 then Masks({}, {})
    else
      var m, i := MaskCells(parse, cells, upTo - 1), upTo - 1;
      if i >= |cells| || Blank(cells[i]) then m.(missing := m.missing + {i})
      else if !CellValid(parse, i, cells[i]) then m.(invalid := m.invalid + {i})
      else m
  }

  // ---------------------------------------------------------------------------------------------
  // The parsers agree
  // ---------------------------------------------------------------------------------------------

  /** The first cell ends at the next comma. */
  lemma {:induction false} SplitAtComma(s: string, from: nat, cell: string)
    requires from <= |s|
    ensures var comma := FindComma(s, from);
            SplitFrom(s, from, cell) ==
              if comma.None? then [cell + s[from..]]
              else [cell + s[from..comma.value]] + SplitFrom(s, comma.value + 1, "")
    decreases |s| - from
  {
    if from == |s| {
      assert cell + s[from..] == cell;
    } else if s[from] == ',' {
      assert cell + s[from..from] == cell;
    } else {
      SplitAtComma(s, from + 1, cell + [s[from]]);
      var comma := FindComma(s, from);
      if comma.None? {
        assert cell + [s[from]] + s[from + 1..] == cell + s[from..];
      } else {
        assert cell + [s[from]] + s[from + 1..comma.value] == cell + s[from..comma.value];
      }
    }
  }

  /** What the cells say, in the splitter's terms. */
  function CellValues(parse: NumberParser, cells: seq<string>): (r: Option<seq<real>>)
    ensures r.Some? ==> |r.value| == |cells| && forall k :: 0 <= k < |cells| ==> ParseFinite(parse, cells[k]) == Some(r.value[k])
    ensures r.None? ==> exists k :: 0 <= k < |cells| && ParseFinite(parse, cells[k]).None?
  {
    if cells == [] then Some([])
    else
      var first, rest := ParseFinite(parse, cells[0]), CellValues(parse, cells[1..]);
      if first.None? || rest.None? then None else Some([first.value] + rest.value)
  }

  /** What the cursor reads from here on are the values of the next cells, and it stands behind them. */
  ghost predicate ReadsCells(parse: NumberParser, s: string, index: nat, cursor: nat)
    requires index < FIELD_COUNT && cursor <= |s|
  {
    var cells, n := SplitFrom(s, cursor, ""), FIELD_COUNT - index;
    var read := ReadCells(parse, s, index, cursor);
    && (read.Some? <==> |cells| >= n && CellValues(parse, cells[..n]).Some?)
    && (read.Some? ==>
          && CellValues(parse, cells[..n]) == Some(read.value.0)
          && (read.value.1 > |s| <==> |cells| == n)
          && (|cells| > n ==> read.value.1 <= |s| && SplitFrom(s, read.value.1, "") == cells[n..]))
  }

  lemma CellValuesFirst(parse: NumberParser, first: string, rest: seq<string>)
    ensures var value, values := ParseFinite(parse, first), CellValues(parse, rest);
            CellValues(parse, [first] + rest)
            == if value.None? || values.None? then None else Some([value.value] + values.value)
  {
    assert ([first] + rest)[1..] == rest;
  }

  lemma NoMoreValues(parse: NumberParser)
    ensures CellValues(parse, []) == Some([])
  {
  }

  lemma NoMoreCells(parse: NumberParser, s: string, cursor: nat)
    ensures ReadCells(parse, s, FIELD_COUNT, cursor) == Some(([], cursor))
  {
  }

  /** The text from the cursor on is a single cell. */
  lemma ReadsOnlyCell(parse: NumberParser, s: string, index: nat, cursor: nat)
    requires index < FIELD_COUNT && cursor <= |s| && FindComma(s, cursor).None?
    ensures ReadsCells(parse, s, index, cursor)
  {
    hide ParseFinite, CellValues, SplitFrom, FindComma;
    SplitAtComma(s, cursor, "");
    var cell := s[cursor..|s|];
    assert "" + s[cursor..] == cell && SplitFrom(s, cursor, "")[..1] == [cell] + [];
    CellValuesFirst(parse, cell, []);
    NoMoreValues(parse);
    NoMoreCells(parse, s, |s| + 1);
  }

  /** The last mandatory cell, with more to follow. */
  lemma ReadsLastCell(parse: NumberParser, s: string, cursor: nat)
    requires cursor <= |s| && FindComma(s, cursor).Some?
    ensures ReadsCells(parse, s, FIELD_COUNT - 1, cursor)
  {
    hide ParseFinite, CellValues, SplitFrom, FindComma;
    SplitAtComma(s, cursor, "");
    var at, cells := FindComma(s, cursor).value, SplitFrom(s, cursor, "");
    assert "" + s[cursor..at] == s[cursor..at];
    assert cells[..1] == [s[cursor..at]] + [] && cells[1..] == SplitFrom(s, at + 1, "");
    CellValuesFirst(parse, s[cursor..at], []);
    NoMoreValues(parse);
    NoMoreCells(parse, s, at + 1);
  }

  lemma CutBehindFirst(first: string, rest: seq<string>, n: nat)
    requires 0 < n <= |rest| + 1
    ensures ([first] + rest)[..n] == [first] + rest[..n - 1] && ([first] + rest)[n..] == rest[n - 1..]
  {
  }

  /** One cell, then the cells behind its comma. */
  lemma ReadsInnerCell(parse: NumberParser, s: string, index: nat, cursor: nat)
    requires index < FIELD_COUNT - 1 && cursor <= |s| && FindComma(s, cursor).Some?
    requires ReadsCells(parse, s, index + 1, FindComma(s, cursor).value + 1)
    ensures ReadsCells(parse, s, index, cursor)
  {
    hide ParseFinite, CellValues, SplitFrom, FindComma;
    SplitAtComma(s, cursor, "");
    var at, cells, n := FindComma(s, cursor).value, SplitFrom(s, cursor, ""), FIELD_COUNT - index;
    assert "" + s[cursor..at] == s[cursor..at];
    var cell, rest := s[cursor..at], SplitFrom(s, at + 1, "");
    if |cells| >= n {
      CutBehindFirst(cell, rest, n);
      CellValuesFirst(parse, cell, rest[..n - 1]);
    }
  }

  /** The cursor reads exactly the first cells, and stands behind the text exactly when there are no more. */
  lemma {:induction false} CursorReadsCells(parse: NumberParser, s: string, index: nat, cursor: nat)
    requires index < FIELD_COUNT && cursor <= |s|
    ensures ReadsCells(parse, s, index, cursor)
    decreases FIELD_COUNT - index
  {
    hide ReadsCells, FindComma;
    var comma := FindComma(s, cursor);
    if comma.None? {
      ReadsOnlyCell(parse, s, index, cursor);
    } else if index + 1 == FIELD_COUNT {
      ReadsLastCell(parse, s, cursor);
    } else {
      CursorReadsCells(parse, s, index + 1, comma.value + 1);
      ReadsInnerCell(parse, s, index, cursor);
    }
  }

  /** The rules of the diagnostic for the first sixteen cells. */
  ghost predicate MandatoryValid(parse: NumberParser, cells: seq<string>) {
    |cells| >= FIELD_COUNT && forall i :: 0 <= i < FIELD_COUNT ==> CellValid(parse, i, cells[i])
  }

  ghost predicate TailValid(parse: NumberParser, cells: seq<string>) {
    |cells| == FIELD_COUNT || (|cells| == FIELD_COUNT + 1 && TailCell(parse, cells[FIELD_COUNT]).Strength?)
  }

  /** Rules per cell and rules on the collected values are the same rules. */
  lemma BoundsAreCellRules(parse: NumberParser, cells: seq<string>)
    requires |cells| == FIELD_COUNT
    ensures (forall i :: 0 <= i < FIELD_COUNT ==> CellValid(parse, i, cells[i]))
       <==> CellValues(parse, cells).Some? && InBounds(CellValues(parse, cells).value)
  {
    hide ParseFinite, ValidTimestamp;
    var values := CellValues(parse, cells);
    if values.Some? {
      var v := values.value;
      assert forall i :: 0 <= i < FIELD_COUNT ==> ParseFinite(parse, cells[i]) == Some(v[i]);
      if forall i :: 0 <= i < FIELD_COUNT ==> CellValid(parse, i, cells[i]) {
        forall k | 0 <= k < FIELD_COUNT ensures Abs(v[k]) <= MAX_MAGNITUDE {
          assert CellValid(parse, k, cells[k]);
        }
        assert CellValid(parse, 0, cells[0]) && CellValid(parse, 13, cells[13]) && CellValid(parse, 14, cells[14]);
      }
    } else {
      var k :| 0 <= k < |cells| && ParseFinite(parse, cells[k]).None?;
      assert !CellValid(parse, k, cells[k]);
    }
  }

  lemma NothingFromComma(parse: NumberParser, text: string)
    requires Strict(parse) && ',' in text
    ensures TailCell(parse, text).Bad?
  {
  }

  /** The rest of the text behind the cursor is one good cell, or the row is bad. */
  lemma TailIsLastCell(parse: NumberParser, s: string, cursor: nat)
    requires Strict(parse) && cursor <= |s|
    ensures var rest := SplitFrom(s, cursor, "");
            && (|rest| == 1 ==> rest[0] == s[cursor..])
            && (|rest| > 1 ==> TailCell(parse, s[cursor..]).Bad?)
  {
    hide FindComma, SplitFrom, ParseFinite;
    SplitAtComma(s, cursor, "");
    assert "" + s[cursor..] == s[cursor..];
    var comma := FindComma(s, cursor);
    if comma.Some? {
      assert s[cursor..][comma.value - cursor] == ',';
      NothingFromComma(parse, s[cursor..]);
    }
  }

  /**
   * The cursor and the splitter agree: a row that is not ignored decodes exactly when it splits into sixteen or
   * seventeen cells that all pass the rules, and then into the values of those cells.
   */
  lemma ParsersAgree(parse: NumberParser, row: string)
    requires Strict(parse) && !IgnoredRow(StripLineEnding(row))
    ensures var cells := SplitCells(row);
            && (DecodeRow(parse, row).Some? <==> MandatoryValid(parse, cells) && TailValid(parse, cells))
            && (DecodeRow(parse, row).Some? ==>
                  && CellValues(parse, cells[..FIELD_COUNT]).Some?
                  && DecodeRow(parse, row).value
                     == SampleOf(CellValues(parse, cells[..FIELD_COUNT]).value,
                                 if |cells| == FIELD_COUNT then Absent else TailCell(parse, cells[FIELD_COUNT])))
  {
    hide InBounds, CellValid, TailCell, IgnoredRow, SplitFrom, ReadCells, Strict, CellValues, SampleOf;
    var clean := StripLineEnding(row);
    var cells := SplitCells(row);
    CursorReadsCells(parse, clean, 0, 0);
    if |cells| >= FIELD_COUNT {
      BoundsAreCellRules(parse, cells[..FIELD_COUNT]);
      assert forall i :: 0 <= i < FIELD_COUNT ==> cells[..FIELD_COUNT][i] == cells[i];
      var read := ReadCells(parse, clean, 0, 0);
      if read.Some? && |cells| > FIELD_COUNT {
        TailIsLastCell(parse, clean, read.value.1);
      }
    }
  }

  /** Each field of a sample is the number in its own cell, in the order of the header. */
  ghost predicate ReadFrom(parse: NumberParser, cells: seq<string>, v: TelemetrySample)
    requires |cells| >= 16
  {
    && parse(cells[0]) == Some(v.timestamp as real)
    && parse(cells[1]) == Some(v.temperature) && parse(cells[2]) == Some(v.pressure) && parse(cells[3]) == Some(v.altitude)
    && parse(cells[4]) == Some(v.acceleration.x) && parse(cells[5]) == Some(v.acceleration.y)
    && parse(cells[6]) == Some(v.acceleration.z)
    && parse(cells[7]) == Some(v.angularVelocity.x) && parse(cells[8]) == Some(v.angularVelocity.y)
    && parse(cells[9]) == Some(v.angularVelocity.z)
    && parse(cells[10]) == Some(v.angularRotation.x) && parse(cells[11]) == Some(v.angularRotation.y)
    && parse(cells[12]) == Some(v.angularRotation.z)
    && parse(cells[13]) == Some(v.latitude) && parse(cells[14]) == Some(v.longitude)
  }

  /** The link strength is the number in the seventeenth cell, if there is one. */
  ghost predicate StrengthFrom(parse: NumberParser, cells: seq<string>, v: TelemetrySample) {
    if |cells| == 17
    then v.rssi.Finite? && parse(cells[16]) == Some(v.rssi.value) && Abs(v.rssi.value) <= 1000000000000.0
    else v.rssi.NotFinite?
  }

  /** Every decoded row has sixteen or seventeen cells, and each field comes from its own. */
  lemma DecodedFields(parse: NumberParser, row: string)
    requires Strict(parse) && DecodeRow(parse, row).Some?
    ensures var cells, v := SplitCells(row), DecodeRow(parse, row).value;
            && 16 <= |cells| <= 17
            && ReadFrom(parse, cells, v) && StrengthFrom(parse, cells, v)
            && Abs(v.latitude) <= 90.0 && Abs(v.longitude) <= 180.0
  {
    hide DecodeRow, SplitCells, Strict, CellValues;
    DecodedIsNoHeader(parse, row);
    ParsersAgree(parse, row);
    var cells := SplitCells(row);
    var values := CellValues(parse, cells[..FIELD_COUNT]).value;
    forall i | 0 <= i < FIELD_COUNT ensures parse(cells[i]) == Some(values[i]) {
      assert cells[..FIELD_COUNT][i] == cells[i];
      NumberOfCell(parse, cells[..FIELD_COUNT], i);
    }
    assert CellValid(parse, 0, cells[0]) && CellValid(parse, 13, cells[13]) && CellValid(parse, 14, cells[14]);
  }

  lemma DecodedIsNoHeader(parse: NumberParser, row: string)
    requires DecodeRow(parse, row).Some?
    ensures !IgnoredRow(StripLineEnding(row))
  {
  }

  lemma NumberOfCell(parse: NumberParser, cells: seq<string>, i: nat)
    requires i < |cells| && CellValues(parse, cells).Some?
    ensures parse(cells[i]) == Some(CellValues(parse, cells).value[i])
  {
    assert ParseFinite(parse, cells[i]) == Some(CellValues(parse, cells).value[i]);
  }

  /** A finite number of at most 1e12 in magnitude. */
  ghost predicate Sized(parse: NumberParser, cell: string) {
    parse(cell).Some? && Abs(parse(cell).value) <= 1000000000000.0
  }

  /** A timestamp is a whole number from zero on. */
  ghost predicate Whole(v: real) {
    v >= 0.0 && v.Floor as real == v
  }

  /** Sixteen or seventeen numbers, among them a timestamp, a latitude and a longitude. */
  ghost predicate WithinRules(parse: NumberParser, cells: seq<string>) {
    && 16 <= |cells| <= 17
    && (forall i :: 0 <= i < |cells| ==> Sized(parse, cells[i]))
    && Whole(parse(cells[0]).value)
    && Abs(parse(cells[13]).value) <= 90.0 && Abs(parse(cells[14]).value) <= 180.0
  }

  /** A row decodes exactly when it is no header and its cells are within the rules. */
  lemma DecodesExactly(parse: NumberParser, row: string)
    requires Strict(parse)
    ensures DecodeRow(parse, row).Some? <==> !IgnoredRow(StripLineEnding(row)) && WithinRules(parse, SplitCells(row))
  {
    hide DecodeRow, SplitCells, IgnoredRow, Strict;
    var cells := SplitCells(row);
    if IgnoredRow(StripLineEnding(row)) {
      HeaderIsNothing(parse, row);
    } else {
      ParsersAgree(parse, row);
      forall i | 0 <= i < |cells| ensures ParseFinite(parse, cells[i]) == parse(cells[i]) {
        NothingIsNoNumber(parse, cells[i]);
      }
      RulesPerCell(parse, cells);
    }
  }

  lemma HeaderIsNothing(parse: NumberParser, row: string)
    requires IgnoredRow(StripLineEnding(row))
    ensures DecodeRow(parse, row).None?
  {
  }

  lemma NothingIsNoNumber(parse: NumberParser, cell: string)
    requires Strict(parse)
    ensures ParseFinite(parse, cell) == parse(cell)
  {
    if cell == "" {
      assert Blank(cell);
    }
  }

  lemma RulesPerCell(parse: NumberParser, cells: seq<string>)
    requires forall i :: 0 <= i < |cells| ==> ParseFinite(parse, cells[i]) == parse(cells[i])
    ensures MandatoryValid(parse, cells) && TailValid(parse, cells) <==> WithinRules(parse, cells)
  {
    hide ParseFinite;
    if WithinRules(parse, cells) {
      forall i | 0 <= i < FIELD_COUNT ensures CellValid(parse, i, cells[i]) {
        assert Sized(parse, cells[i]);
      }
      assert |cells| == 17 ==> Sized(parse, cells[16]);
    }
    if MandatoryValid(parse, cells) && TailValid(parse, cells) {
      forall i | 0 <= i < |cells| ensures Sized(parse, cells[i]) {
        assert i < FIELD_COUNT ==> CellValid(parse, i, cells[i]);
      }
      assert CellValid(parse, 0, cells[0]) && CellValid(parse, 13, cells[13]) && CellValid(parse, 14, cells[14]);
    }
  }

  /** A cell is missing when it is absent, or holds nothing but spaces, tabs and carriage returns. */
  lemma MissingExactly(parse: NumberParser, cells: seq<string>, i: nat)
    requires i < 16
    ensures i in MaskCells(parse, cells, FIELD_COUNT).missing <==>
              i >= |cells| || forall k :: 0 <= k < |cells[i]| ==> cells[i][k] == ' ' || cells[i][k] == '\t' || cells[i][k] == '\r'
  {
    hide MaskCells;
    assert " \t\r"[0] == ' ' && " \t\r"[1] == '\t' && " \t\r"[2] == '\r';
  }

  /**
   * A rejected row has a clean diagnostic exactly when its sixteen mandatory cells are valid, so that only what
   * follows them is bad; a position is never both missing and invalid.
   */
  lemma CleanDiagnosticMeansBadTail(parse: NumberParser, row: string)
    requires Strict(parse) && !IgnoredRow(StripLineEnding(row)) && DecodeRow(parse, row).None?
    ensures var cells := SplitCells(row);
            var m := MaskCells(parse, cells, FIELD_COUNT);
            && m.missing !! m.invalid
            && (m.missing == {} && m.invalid == {} <==> MandatoryValid(parse, cells))
            && (m.missing == {} && m.invalid == {} ==> !TailValid(parse, cells))
  {
    hide DecodeRow, SplitCells, MaskCells, TailValid, IgnoredRow;
    var cells := SplitCells(row);
    var m := MaskCells(parse, cells, FIELD_COUNT);
    ParsersAgree(parse, row);
    if m.missing == {} && m.invalid == {} {
      assert FIELD_COUNT - 1 !in m.missing;
      forall i: nat | i < FIELD_COUNT ensures CellValid(parse, i, cells[i]) {
        assert i !in m.missing && i !in m.invalid;
      }
    }
    if MandatoryValid(parse, cells) {
      forall i: nat ensures i !in m.missing && i !in m.invalid {
        if i < FIELD_COUNT {
          assert CellValid(parse, i, cells[i]);
        }
      }
    }
  }
}
