/** The rules for entries in numbers: which flags, file types and sizes are accepted. */
module SkinArchiveRules {
  import opened SkinArchive

  lemma NextBit(v: nat, k: nat)
    ensures HasBit(v, k + 1) == HasBit(v / 2, k)
    ensures HasBit(v, 0) <==> v % 2 == 1
  {
  }

  lemma FourBits(v: nat, k: nat)
    ensures HasBit(v, k + 4) == HasBit(v / 16, k)
  {
    hide HasBit;
    NextBit(v, k + 3);
    NextBit(v / 2, k + 2);
    NextBit(v / 2 / 2, k + 1);
    NextBit(v / 2 / 2 / 2, k);
    assert v / 2 / 2 / 2 / 2 == v / 16;
  }

  lemma SixteenBits(v: nat, k: nat)
    ensures HasBit(v, k + 16) == HasBit(v / 0x1_0000, k)
  {
    hide HasBit;
    FourBits(v, k + 12);
    FourBits(v / 16, k + 8);
    FourBits(v / 16 / 16, k + 4);
    FourBits(v / 16 / 16 / 16, k);
    assert v / 16 / 16 / 16 / 16 == v / 0x1_0000;
  }

  lemma TwelveBits(v: nat, k: nat)
    ensures HasBit(v, k + 12) == HasBit(v / 0x1000, k)
  {
    hide HasBit;
    FourBits(v, k + 8);
    FourBits(v / 16, k + 4);
    FourBits(v / 16 / 16, k);
    assert v / 16 / 16 / 16 == v / 0x1000;
  }

  lemma EightBits(v: nat, k: nat)
    ensures HasBit(v, k + 8) == HasBit(v / 0x100, k)
  {
    hide HasBit;
    FourBits(v, k + 4);
    FourBits(v / 16, k);
    assert v / 16 / 16 == v / 0x100;
  }

  /** The four lowest bits. */
  lemma Digit(v: nat)
    ensures HasBit(v, 0) <==> v % 2 == 1
    ensures HasBit(v, 1) <==> v / 2 % 2 == 1
    ensures HasBit(v, 2) <==> v / 4 % 2 == 1
    ensures HasBit(v, 3) <==> v / 8 % 2 == 1
  {
    hide HasBit;
    NextBit(v, 0); NextBit(v, 1); NextBit(v, 2);
    NextBit(v / 2, 0); NextBit(v / 2, 1);
    NextBit(v / 2 / 2, 0);
    NextBit(v / 2 / 2 / 2, 0);
    assert v / 2 / 2 == v / 4 && v / 2 / 2 / 2 == v / 8;
  }

  /** The file type of the entry, in the top four of 32 bits. */
  lemma TypesInNumbers(attributes: nat)
    requires attributes < 0x1_0000_0000
    ensures LinkOrSpecial(attributes) <==> !(attributes / 0x1000_0000 in {0, 4, 8})
    ensures HasBit(attributes, 4) <==> attributes / 16 % 2 == 1
  {
    hide HasBit;
    var t := attributes / 0x1000_0000;
    assert attributes / 0x1_0000 / 0x1000 == t && t < 16;
    SixteenBits(attributes, 12); SixteenBits(attributes, 13); SixteenBits(attributes, 14); SixteenBits(attributes, 15);
    var high := attributes / 0x1_0000;
    TwelveBits(high, 0); TwelveBits(high, 1); TwelveBits(high, 2); TwelveBits(high, 3);
    Digit(t);
    FourBits(attributes, 0);
    Digit(attributes / 16);
  }

  lemma ClearDigit(v: nat)
    ensures !HasBit(v, 0) && !HasBit(v, 1) && !HasBit(v, 2) <==> v % 8 == 0
    ensures v % 8 == 0 && !HasBit(v, 3) <==> v % 16 == 0
    ensures !HasBit(v, 0) <==> v % 2 == 0
    ensures !HasBit(v, 1) && !HasBit(v, 2) <==> v / 2 % 4 == 0
  {
    hide HasBit;
    Digit(v);
    LowThree(v);
    LowFour(v);
    MiddleTwo(v);
  }

  lemma LowTwo(v: nat)
    ensures v % 2 == 0 && v / 2 % 2 == 0 <==> v % 4 == 0
  {
    var q, r := v / 4, v % 4;
    assert v == 4 * q + r;
    if r < 2 {
      assert v / 2 == 2 * q && v % 2 == r;
    } else {
      assert v / 2 == 2 * q + 1 && v % 2 == r - 2;
    }
  }

  lemma LowBits(v: nat)
    ensures v % 4 == 0 && v / 4 % 2 == 0 <==> v % 8 == 0
  {
    var q, r := v / 8, v % 8;
    assert v == 8 * q + r;
    if r < 4 {
      assert v / 4 == 2 * q && v % 4 == r;
    } else {
      assert v / 4 == 2 * q + 1 && v % 4 == r - 4;
    }
  }

  lemma LowFour(v: nat)
    ensures v % 8 == 0 && v / 8 % 2 == 0 <==> v % 16 == 0
  {
    var q, r := v / 16, v % 16;
    assert v == 16 * q + r;
    if r < 8 {
      assert v / 8 == 2 * q && v % 8 == r;
    } else {
      assert v / 8 == 2 * q + 1 && v % 8 == r - 8;
    }
  }

  lemma LowThree(v: nat)
    ensures v % 2 == 0 && v / 2 % 2 == 0 && v / 4 % 2 == 0 <==> v % 8 == 0
  {
    LowTwo(v);
    LowBits(v);
  }

  lemma MiddleTwo(v: nat)
    ensures v / 2 % 2 == 0 && v / 4 % 2 == 0 <==> v / 2 % 4 == 0
  {
    LowTwo(v / 2);
    assert v / 2 / 2 == v / 4;
  }

  /** Only bits 1, 2, 3 and 11 of a word. */
  ghost predicate AllowedFlags(flags: nat) {
    forall k :: 0 <= k < 16 && HasBit(flags, k) ==> k == 1 || k == 2 || k == 3 || k == 11
  }

  lemma AllowedFlagsAre(flags: nat)
    ensures AllowedFlags(flags) <==>
              && !HasBit(flags, 0) && !HasBit(flags, 4) && !HasBit(flags, 5) && !HasBit(flags, 6) && !HasBit(flags, 7)
              && !HasBit(flags, 8) && !HasBit(flags, 9) && !HasBit(flags, 10)
              && !HasBit(flags, 12) && !HasBit(flags, 13) && !HasBit(flags, 14) && !HasBit(flags, 15)
  {
    hide HasBit;
  }

  lemma FlagsInNumbers(flags: nat)
    requires flags < 0x1_0000
    ensures AllowedFlags(flags) <==> flags % 2 == 0 && flags / 16 % 16 == 0 && flags / 0x100 % 8 == 0 && flags < 0x1000
    ensures !HasBit(flags, 1) && !HasBit(flags, 2) <==> flags / 2 % 4 == 0
  {
    hide HasBit, AllowedFlags;
    var a, b, c := flags / 16, flags / 0x100, flags / 0x1000;
    AllowedFlagsAre(flags);
    FourBits(flags, 0); FourBits(flags, 1); FourBits(flags, 2); FourBits(flags, 3);
    EightBits(flags, 0); EightBits(flags, 1); EightBits(flags, 2);
    TwelveBits(flags, 0); TwelveBits(flags, 1); TwelveBits(flags, 2); TwelveBits(flags, 3);
    ClearDigit(flags);
    ClearDigit(a);
    ClearDigit(b);
    ClearDigit(c);
    SmallDigit(flags);
  }

  lemma SmallDigit(flags: nat)
    requires flags < 0x1_0000
    ensures flags / 0x1000 % 16 == 0 <==> flags < 0x1000
  {
  }

  ghost predicate Folder(e: Entry) {
    (e.name != [] && e.name[|e.name| - 1] == 47) || e.attributes / 16 % 2 == 1
  }

  /**
   * The rules in numbers: regular files, directories and entries without a type; no encryption, no option but those of
   * deflation, streaming and UTF-8 names; stored or deflated; the textures directory, which is empty, or an allowed
   * file of at most 8 MiB, the theme of at most 256 KiB.
   */
  ghost predicate WithinRules(e: Entry) {
    && e.attributes / 0x1000_0000 in {0, 4, 8}
    && e.flags % 2 == 0 && e.flags / 16 % 16 == 0 && e.flags / 0x100 % 8 == 0 && e.flags < 0x1000
    && (e.compression == 8 || (e.compression == 0 && e.flags / 2 % 4 == 0))
    && if Folder(e)
       then e.name == Ascii("textures/") && e.uncompressedSize == 0 && e.compressedSize == 0 && e.compression == 0
       else AllowedFile(e.name) && e.uncompressedSize <= (if e.name == Ascii("theme.json") then 262_144 else 8_388_608)
  }

  lemma RulesInNumbers(e: Entry)
    requires e.flags < 0x1_0000 && e.attributes < 0x1_0000_0000
    ensures AcceptableEntry(e) && AcceptableOptions(e) <==> WithinRules(e)
  {
    hide HasBit, LinkOrSpecial, AllowedFile;
    TypesInNumbers(e.attributes);
    FlagsInNumbers(e.flags);
  }

  /** Two bytes that are equal or the two cases of one letter. */
  predicate SameLetter(a: Byte, b: Byte) {
    a == b || (65 <= a <= 90 && b == a + 32) || (65 <= b <= 90 && a == b + 32)
  }

  /** Names fold alike exactly when they differ at most in the case of their letters. */
  lemma FoldIgnoresCase(a: Bytes, b: Bytes)
    ensures Fold(a) == Fold(b) <==> |a| == |b| && forall k :: 0 <= k < |a| ==> SameLetter(a[k], b[k])
  {
    if Fold(a) == Fold(b) {
      assert |a| == |Fold(a)| == |b|;
      assert forall k :: 0 <= k < |a| ==> Fold(a)[k] == Fold(b)[k];
    }
  }
}
