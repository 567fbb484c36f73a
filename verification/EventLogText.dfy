/** Event-log messages as one bounded line of UTF-16 code units. */
module EventLogText {
  type CodeUnit = c: int | 0 <= c < 0x10000

  type Text = seq<CodeUnit>

  const MAX_ENTRY: nat := 4096

  const CR: CodeUnit := 0x0D
  const LF: CodeUnit := 0x0A
  const SPACE: CodeUnit := 0x20

  /** A space, an ellipsis, and the bracketed word "truncated". */
  const MARKER: Text :=
    [0x20, 0x2026, 0x20, 0x5B, 0x74, 0x72, 0x75, 0x6E, 0x63, 0x61, 0x74, 0x65, 0x64, 0x5D]

  /** Line and paragraph separators: LF, VT, FF, CR, NEL, LS, PS. */
  predicate Separator(c: CodeUnit) {
    c == LF || c == 0x0B || c == 0x0C || c == CR || c == 0x85 || c == 0x2028 || c == 0x2029
  }

  predicate High(c: CodeUnit) {
    0xD800 <= c <= 0xDBFF
  }

  predicate Low(c: CodeUnit) {
    0xDC00 <= c <= 0xDFFF
  }

  /** Every separator becomes a space; a carriage return takes a line feed after it along. */
  function Normalize(text: Text): (r: Text)
    ensures forall k :: 0 <= k < |r| ==> !Separator(r[k])
    decreases |text|
  {
    if text == [] then []
    else if text[0] == CR then [SPACE] + Normalize(if |text| > 1 && text[1] == LF then text[2..] else text[1..])
    else [if Separator(text[0]) then SPACE else text[0]] + Normalize(text[1..])
  }

  /** Where a text that is too long is cut: before the marker's place, but not inside a surrogate pair. */
  function CutAt(normal: Text): (r: nat)
    requires |normal| > MAX_ENTRY
    ensures MAX_ENTRY - |MARKER| - 1 <= r <= MAX_ENTRY - |MARKER|
  {
    var retained := MAX_ENTRY - |MARKER|;
    if High(normal[retained - 1]) && Low(normal[retained]) then retained - 1 else retained
  }

  function Bounded(text: Text): Text {
    var normal := Normalize(text);
    if |normal| <= MAX_ENTRY then normal else normal[..CutAt(normal)] + MARKER
  }

  /** The normal text from position `i` on: one code unit, then the rest. */
  lemma NormalizeAt(text: Text, i: nat)
    requires i < |text|
    ensures var next := if text[i] == CR && i + 1 < |text| && text[i + 1] == LF then i + 2 else i + 1;
            Normalize(text[i..]) == [if text[i] == CR || Separator(text[i]) then SPACE else text[i]] + Normalize(text[next..])
  {
    var rest := text[i..];
    assert rest[1..] == text[i + 1..];
    assert i + 1 < |text| ==> rest[2..] == text[i + 2..];
  }

  lemma NormalizeNothing()
    ensures Normalize([]) == []
  {
  }

  /** One pass that stops as soon as the text is known to be too long. */
  method BoundedSingleLineText(text: Text) returns (result: Text)
    ensures result == Bounded(text)
  {
    hide Normalize, Separator, High, Low;
    result := [];
    var sourceIndex := 0;
    assert text[0..] == text;
    while sourceIndex < |text| && |result| <= MAX_ENTRY
      invariant sourceIndex <= |text| && |result| <= MAX_ENTRY + 1
      invariant result + Normalize(text[sourceIndex..]) == Normalize(text)
    {
      NormalizeAt(text, sourceIndex);
      ghost var before := result;
      var character := text[sourceIndex];
      sourceIndex := sourceIndex + 1;
      if character == CR {
        if sourceIndex < |text| && text[sourceIndex] == LF {
          sourceIndex := sourceIndex + 1;
        }
        character := SPACE;
      } else if Separator(character) {
        character := SPACE;
      }
      result := result + [character];
      assert result + Normalize(text[sourceIndex..]) == before + ([character] + Normalize(text[sourceIndex..]));
    }
    NormalizeNothing();
    var truncated := sourceIndex < |text| || |result| > MAX_ENTRY;
    ghost var normal := Normalize(text);
    if !truncated {
      assert text[sourceIndex..] == [];
      assert result + [] == result;
      return;
    }
    assert result == normal[..MAX_ENTRY + 1];
    var retained := MAX_ENTRY - |MARKER|;
    if retained > 0 && High(result[retained - 1]) && Low(result[retained]) {
      retained := retained - 1;
    }
    result := result[..retained];
    assert result == normal[..CutAt(normal)];
    result := result + MARKER;
  }

  // ---------------------------------------------------------------------------------------------
  // Properties
  // ---------------------------------------------------------------------------------------------

  lemma {:induction false} NormalizeIdle(text: Text)
    requires forall k :: 0 <= k < |text| ==> !Separator(text[k])
    ensures Normalize(text) == text
    decreases |text|
  {
    if text != [] {
      assert text[0] != CR;
      NormalizeIdle(text[1..]);
      assert text == [text[0]] + text[1..];
    }
  }

  /** Normalising goes piece by piece, as long as no carriage return is cut off from its line feed. */
  lemma {:induction false} NormalizeAppend(a: Text, b: Text)
    requires a != [] && b != [] ==> !(a[|a| - 1] == CR && b[0] == LF)
    ensures Normalize(a + b) == Normalize(a) + Normalize(b)
    decreases |a|
  {
    hide Separator, Normalize;
    if a == [] {
      assert a + b == b;
      NormalizeNothing();
    } else {
      var first, k := NormalizeFirst(a);
      var other, l := NormalizeFirst(a + b);
      NormalizeAppend(a[k..], b);
      assert (a + b)[k..] == a[k..] + b;
      assert first + (Normalize(a[k..]) + Normalize(b)) == first + Normalize(a[k..]) + Normalize(b);
    }
  }

  lemma NormalizeFirst(text: Text) returns (first: Text, k: nat)
    requires text != []
    ensures k == (if text[0] == CR && |text| > 1 && text[1] == LF then 2 else 1)
    ensures first == [if text[0] == CR || Separator(text[0]) then SPACE else text[0]]
    ensures k <= |text| && Normalize(text) == first + Normalize(text[k..])
  {
    k := if text[0] == CR && |text| > 1 && text[1] == LF then 2 else 1;
    first := [if text[0] == CR || Separator(text[0]) then SPACE else text[0]];
  }

  /** What the pieces become: a separator one space, the two together one space, anything else itself. */
  lemma NormalizePieces(c: CodeUnit)
    ensures Normalize([]) == [] && Normalize([CR, LF]) == [SPACE]
    ensures Normalize([c]) == [if c in {0x0A, 0x0B, 0x0C, 0x0D, 0x85, 0x2028, 0x2029} then 0x20 else c]
  {
    assert [CR, LF][2..] == [];
  }

  /** A text that is too long keeps as much of its beginning as the marker leaves room for, short of half a pair. */
  lemma BoundedCut(text: Text)
    requires |Normalize(text)| > 4096
    ensures var normal, split := Normalize(text), High(Normalize(text)[4081]) && Low(Normalize(text)[4082]);
            Bounded(text) == normal[..if split then 4081 else 4082] + MARKER
  {
    hide Normalize, High, Low;
  }

  /** One line, bounded, and stable: a bounded text is its own bounded text, and text that fits is only normalised. */
  lemma BoundedSound(text: Text)
    ensures |Bounded(text)| <= 4096
    ensures forall k :: 0 <= k < |Bounded(text)| ==> !Separator(Bounded(text)[k])
    ensures Bounded(Bounded(text)) == Bounded(text)
    ensures |Normalize(text)| <= 4096 ==> Bounded(text) == Normalize(text)
  {
    hide Normalize;
    NormalizeIdle(Bounded(text));
  }

  /** Surrogates come in pairs only. */
  ghost predicate WellFormed(text: Text)
    decreases |text|
  {
    if text == [] then true
    else if High(text[0]) then |text| > 1 && Low(text[1]) && WellFormed(text[2..])
    else !Low(text[0]) && WellFormed(text[1..])
  }

  lemma {:induction false} NormalizeWellFormed(text: Text)
    requires WellFormed(text)
    ensures WellFormed(Normalize(text))
    decreases |text|
  {
    if text != [] {
      if text[0] == CR {
        var rest := if |text| > 1 && text[1] == LF then text[2..] else text[1..];
        assert |text| > 1 && text[1] == LF ==> text[1..][1..] == text[2..];
        NormalizeWellFormed(rest);
        assert ([SPACE] + Normalize(rest))[1..] == Normalize(rest);
      } else if High(text[0]) {
        NormalizeWellFormed(text[2..]);
        assert text[1..][0] == text[1] && text[1..][1..] == text[2..];
        var r := Normalize(text);
        assert Normalize(text[1..]) == [text[1]] + Normalize(text[2..]);
        assert r[0] == text[0] && r[1] == text[1] && r[2..] == Normalize(text[2..]);
      } else {
        NormalizeWellFormed(text[1..]);
        assert Normalize(text)[1..] == Normalize(text[1..]);
      }
    }
  }

  /** A prefix that does not end inside a pair is well-formed. */
  lemma {:induction false} PrefixWellFormed(text: Text, k: nat)
    requires WellFormed(text) && k <= |text|
    requires !(0 < k < |text| && High(text[k - 1]) && Low(text[k]))
    ensures WellFormed(text[..k])
    decreases |text|
  {
    if k > 0 {
      if High(text[0]) {
        assert k > 1;
        PrefixWellFormed(text[2..], k - 2);
        assert text[..k][2..] == text[2..][..k - 2];
      } else {
        PrefixWellFormed(text[1..], k - 1);
        assert text[..k][1..] == text[1..][..k - 1];
      }
    }
  }

  lemma {:induction false} AppendWellFormed(a: Text, b: Text)
    requires WellFormed(a) && WellFormed(b)
    ensures WellFormed(a + b)
    decreases |a|
  {
    if a == [] {
      assert a + b == b;
    } else if High(a[0]) {
      AppendWellFormed(a[2..], b);
      assert (a + b)[2..] == a[2..] + b;
    } else {
      AppendWellFormed(a[1..], b);
      assert (a + b)[1..] == a[1..] + b;
    }
  }

  /** Text without surrogates is well-formed. */
  lemma {:induction false} PlainWellFormed(text: Text)
    requires forall k :: 0 <= k < |text| ==> !High(text[k]) && !Low(text[k])
    ensures WellFormed(text)
    decreases |text|
  {
    if text != [] {
      PlainWellFormed(text[1..]);
    }
  }

  /** Well-formed UTF-16 stays well-formed, cut or not. */
  lemma BoundedWellFormed(text: Text)
    requires WellFormed(text)
    ensures WellFormed(Bounded(text))
  {
    hide WellFormed, Normalize;
    var normal := Normalize(text);
    NormalizeWellFormed(text);
    if |normal| > MAX_ENTRY {
      var k := CutAt(normal);
      CutOutsidePair(normal);
      PrefixWellFormed(normal, k);
      PlainWellFormed(MARKER);
      AppendWellFormed(normal[..k], MARKER);
    }
  }

  /** The chosen cut never separates a pair. */
  lemma CutOutsidePair(normal: Text)
    requires |normal| > MAX_ENTRY
    ensures var k := CutAt(normal); 0 < k < |normal| && !(High(normal[k - 1]) && Low(normal[k]))
  {
  }
}
