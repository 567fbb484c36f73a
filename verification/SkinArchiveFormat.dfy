/**
 * The partner of the skin archive reader: a writer of archives after sections 4.3.7, 4.3.12 and 4.3.16 of PKWARE's
 * APPNOTE.TXT, with stored and deflated files, extra fields and comments. What is written is read back.
 */
module SkinArchiveFormat {
  import opened Domain
  import opened SkinArchive

  // ---------------------------------------------------------------------------------------------
  // Writing
  // ---------------------------------------------------------------------------------------------

  /**
   * One file, or the textures directory: what comes out, how it stands in the archive, and what else a packer may put
   * around it. A trailer is what follows the data of a streamed file.
   */
  datatype Item = Item(
    name: Bytes,
    data: Bytes,
    packed: Bytes,
    flags: nat,
    compression: nat,
    attributes: nat,
    localExtra: Bytes,
    centralExtra: Bytes,
    comment: Bytes,
    trailer: Bytes)

  /** A stored file with nothing around it. */
  function Plain(name: Bytes, data: Bytes): Item {
    Item(name, data, data, 0, STORED, 0, [], [], [], [])
  }

  /** The k-th byte of a number, least significant first. */
  function ByteOf(v: nat, k: nat): Byte {
    if k == 0 then v % 256 else ByteOf(v / 256, k - 1)
  }

  /** A streamed file has no checksum and no sizes in its local header. */
  function LocalNumber(f: Item, v: nat): nat {
    if HasBit(f.flags, 3) then 0 else v
  }

  function LocalHeader(f: Item, crc: nat): (r: Bytes)
    ensures |r| == 30
  {
    var c, n, m := LocalNumber(f, crc), LocalNumber(f, |f.packed|), LocalNumber(f, |f.data|);
    var a, e := |f.name|, |f.localExtra|;
    [0x50, 0x4b, 3, 4, 20, 0, ByteOf(f.flags, 0), ByteOf(f.flags, 1), ByteOf(f.compression, 0), ByteOf(f.compression, 1),
     0, 0, 0, 0,
     ByteOf(c, 0), ByteOf(c, 1), ByteOf(c, 2), ByteOf(c, 3),
     ByteOf(n, 0), ByteOf(n, 1), ByteOf(n, 2), ByteOf(n, 3),
     ByteOf(m, 0), ByteOf(m, 1), ByteOf(m, 2), ByteOf(m, 3),
     ByteOf(a, 0), ByteOf(a, 1), ByteOf(e, 0), ByteOf(e, 1)]
  }

  function CentralHeader(f: Item, crc: nat, offset: nat): (r: Bytes)
    ensures |r| == 46
  {
    var c, n, m, t, o := crc, |f.packed|, |f.data|, f.attributes, offset;
    var a, e, k := |f.name|, |f.centralExtra|, |f.comment|;
    [0x50, 0x4b, 1, 2, 20, 0, 20, 0, ByteOf(f.flags, 0), ByteOf(f.flags, 1), ByteOf(f.compression, 0), ByteOf(f.compression, 1),
     0, 0, 0, 0] +
    [ByteOf(c, 0), ByteOf(c, 1), ByteOf(c, 2), ByteOf(c, 3),
     ByteOf(n, 0), ByteOf(n, 1), ByteOf(n, 2), ByteOf(n, 3),
     ByteOf(m, 0), ByteOf(m, 1), ByteOf(m, 2), ByteOf(m, 3),
     ByteOf(a, 0), ByteOf(a, 1), ByteOf(e, 0), ByteOf(e, 1), ByteOf(k, 0), ByteOf(k, 1), 0, 0, 0, 0,
     ByteOf(t, 0), ByteOf(t, 1), ByteOf(t, 2), ByteOf(t, 3),
     ByteOf(o, 0), ByteOf(o, 1), ByteOf(o, 2), ByteOf(o, 3)]
  }

  function EndRecord(count: nat, size: nat, offset: nat, comment: nat): (r: Bytes)
    ensures |r| == 22
  {
    [0x50, 0x4b, 5, 6, 0, 0, 0, 0,
     ByteOf(count, 0), ByteOf(count, 1), ByteOf(count, 0), ByteOf(count, 1),
     ByteOf(size, 0), ByteOf(size, 1), ByteOf(size, 2), ByteOf(size, 3),
     ByteOf(offset, 0), ByteOf(offset, 1), ByteOf(offset, 2), ByteOf(offset, 3),
     ByteOf(comment, 0), ByteOf(comment, 1)]
  }

  function LocalRecord(codec: Codec, f: Item): Bytes {
    LocalHeader(f, codec.crc(f.data)) + f.name + f.localExtra + f.packed + f.trailer
  }

  function LocalPart(codec: Codec, items: seq<Item>): Bytes {
    if items == [] then [] else LocalPart(codec, items[..|items| - 1]) + LocalRecord(codec, items[|items| - 1])
  }

  function CentralRecord(codec: Codec, f: Item, offset: nat): Bytes {
    CentralHeader(f, codec.crc(f.data), offset) + f.name + f.centralExtra + f.comment
  }

  function CentralPart(codec: Codec, items: seq<Item>): Bytes {
    if items == [] then []
    else
      var before := items[..|items| - 1];
      CentralPart(codec, before) + CentralRecord(codec, items[|items| - 1], |LocalPart(codec, before)|)
  }

  function WriteArchive(codec: Codec, items: seq<Item>, comment: Bytes): Bytes {
    var local, central := LocalPart(codec, items), CentralPart(codec, items);
    local + central + EndRecord(|items|, |central|, |local|, |comment|) + comment
  }

  function TotalData(items: seq<Item>): nat {
    if items == [] then 0 else TotalData(items[..|items| - 1]) + |items[|items| - 1].data|
  }

  /** The directory entry of an item whose local header stands at an offset. */
  function EntryOf(codec: Codec, f: Item, offset: nat): Entry {
    Entry(f.name, f.flags, f.compression, codec.crc(f.data), |f.packed|, |f.data|, offset, f.attributes)
  }

  /** The item is one the program means to take, and its packed form stands for its data. */
  ghost predicate GoodItem(codec: Codec, f: Item) {
    && AcceptableEntry(EntryOf(codec, f, 0)) && AcceptableOptions(EntryOf(codec, f, 0))
    && (if f.compression == STORED then f.packed == f.data else codec.inflate(f.packed, |f.data|) == Some(f.data))
    && codec.crc(f.data) < 0x1_0000_0000 && f.flags < 0x1_0000 && f.attributes < 0x1_0000_0000
    && |f.localExtra| < 0x1_0000 && |f.centralExtra| < 0x1_0000 && |f.comment| < 0x1_0000
  }

  /** No end record can be read out of the comment behind the real one. */
  ghost predicate PlainComment(bytes: Bytes, comment: Bytes) {
    |comment| < 0x1_0000 && forall o :: |bytes| - 22 - |comment| < o && 0 <= o <= |bytes| - 22 ==> !IsEnd(bytes, o)
  }

  /** Items that the reader is meant to take. */
  ghost predicate Writable(codec: Codec, items: seq<Item>, comment: Bytes) {
    && 0 < |items| <= MAX_ENTRIES && |WriteArchive(codec, items, comment)| <= MAX_ARCHIVE_BYTES
    && PlainComment(WriteArchive(codec, items, comment), comment)
    && (forall i :: 0 <= i < |items| ==> GoodItem(codec, items[i]))
    && (forall i, j :: 0 <= i < j < |items| ==> Fold(items[i].name) != Fold(items[j].name))
    && TotalData(items) <= MAX_EXPANDED_BYTES
    && (exists k :: 0 <= k < |items| && items[k].name == THEME)
  }

  predicate IsFolder(f: Item) {
    (f.name != [] && f.name[|f.name| - 1] == 47) || HasBit(f.attributes, 4)
  }

  /** What is to be read: every item that is no directory, with its data. */
  function FileMap(items: seq<Item>): Files {
    if items == [] then map[]
    else
      var before, f := FileMap(items[..|items| - 1]), items[|items| - 1];
      if IsFolder(f) then before else before[f.name := f.data]
  }

  /** The map that is read back has exactly the written files. */
  lemma {:induction false} FileMapExact(items: seq<Item>)
    requires forall i, j :: 0 <= i < j < |items| ==> Fold(items[i].name) != Fold(items[j].name)
    ensures forall i :: 0 <= i < |items| && !IsFolder(items[i]) ==>
              items[i].name in FileMap(items) && FileMap(items)[items[i].name] == items[i].data
    ensures forall name :: name in FileMap(items) ==> exists i :: 0 <= i < |items| && items[i].name == name && !IsFolder(items[i])
    decreases |items|
  {
    hide IsFolder, Fold;
    if items != [] {
      var init, last := items[..|items| - 1], items[|items| - 1];
      FileMapExact(init);
      forall i | 0 <= i < |items| - 1 ensures items[i].name != last.name {
        assert Fold(items[i].name) != Fold(last.name);
      }
      forall name | name in FileMap(items) ensures exists i :: 0 <= i < |items| && items[i].name == name && !IsFolder(items[i]) {
        if name in FileMap(init) {
          var i :| 0 <= i < |init| && init[i].name == name && !IsFolder(init[i]);
          assert items[i].name == name;
        } else {
          assert items[|items| - 1].name == name;
        }
      }
    }
  }

  // ---------------------------------------------------------------------------------------------
  // Reading numbers back
  // ---------------------------------------------------------------------------------------------

  lemma Bytes16(v: nat)
    requires v < 0x1_0000
    ensures (ByteOf(v, 0) as int) + 0x100 * (ByteOf(v, 1) as int) == v
  {
  }

  lemma Bytes32(v: nat)
    requires v < 0x1_0000_0000
    ensures (ByteOf(v, 0) as int) + 0x100 * (ByteOf(v, 1) as int)
            + 0x1_0000 * (ByteOf(v, 2) as int) + 0x100_0000 * (ByteOf(v, 3) as int) == v
  {
    var a := v / 256;
    var b := a / 256;
    assert ByteOf(v, 1) == a % 256 && ByteOf(v, 2) == ByteOf(a, 1) == b % 256 && ByteOf(v, 3) == ByteOf(a, 2) == ByteOf(b, 1);
    assert ByteOf(b, 1) == (b / 256) % 256 == b / 256;
  }

  /** `part` stands in `bytes` at an offset. */
  ghost predicate At(bytes: Bytes, offset: nat, part: Bytes) {
    offset + |part| <= |bytes| && forall k :: 0 <= k < |part| ==> bytes[offset + k] == part[k]
  }

  lemma ReadPart(bytes: Bytes, offset: nat, part: Bytes, k: nat)
    requires At(bytes, offset, part)
    ensures k + 2 <= |part| ==> ReadLe16(bytes, offset + k) == ReadLe16(part, k)
    ensures k + 4 <= |part| ==> ReadLe32(bytes, offset + k) == ReadLe32(part, k)
  {
    if k + 2 <= |part| {
      assert bytes[offset + k] == part[k] && bytes[offset + (k + 1)] == part[k + 1];
    }
    if k + 4 <= |part| {
      assert bytes[offset + (k + 2)] == part[k + 2] && bytes[offset + (k + 3)] == part[k + 3];
    }
  }

  /** Every number of an item fits its field. */
  ghost predicate FieldsFit(f: Item, crc: nat) {
    && crc < 0x1_0000_0000 && |f.packed| < 0x1_0000_0000 && |f.data| < 0x1_0000_0000 && f.attributes < 0x1_0000_0000
    && |f.name| < 0x1_0000 && f.flags < 0x1_0000 && f.compression < 0x1_0000
    && |f.localExtra| < 0x1_0000 && |f.centralExtra| < 0x1_0000 && |f.comment| < 0x1_0000
  }

  lemma LocalNumberFits(f: Item, v: nat)
    ensures LocalNumber(f, v) <= v
  {
  }

  lemma LocalFields(bytes: Bytes, o: nat, f: Item, crc: nat)
    requires At(bytes, o, LocalHeader(f, crc)) && FieldsFit(f, crc)
    ensures o + 30 <= |bytes| && ReadLe32(bytes, o) == LOCAL_SIGNATURE
    ensures ReadLe16(bytes, o + 6) == f.flags && ReadLe16(bytes, o + 8) == f.compression
    ensures ReadLe32(bytes, o + 14) == LocalNumber(f, crc) && ReadLe32(bytes, o + 18) == LocalNumber(f, |f.packed|)
    ensures ReadLe32(bytes, o + 22) == LocalNumber(f, |f.data|)
    ensures ReadLe16(bytes, o + 26) == |f.name| && ReadLe16(bytes, o + 28) == |f.localExtra|
  {
    hide ByteOf, At, LocalNumber;
    var h := LocalHeader(f, crc);
    AtFits(bytes, o, h);
    LocalNumberFits(f, crc); LocalNumberFits(f, |f.packed|); LocalNumberFits(f, |f.data|);
    Bytes32(LocalNumber(f, crc)); Bytes32(LocalNumber(f, |f.packed|)); Bytes32(LocalNumber(f, |f.data|)); Bytes16(|f.name|); Bytes16(|f.localExtra|);
    Bytes16(f.flags); Bytes16(f.compression);
    ReadPart(bytes, o, h, 0); ReadPart(bytes, o, h, 6); ReadPart(bytes, o, h, 8); ReadPart(bytes, o, h, 14);
    ReadPart(bytes, o, h, 18); ReadPart(bytes, o, h, 22); ReadPart(bytes, o, h, 26); ReadPart(bytes, o, h, 28);
  }

  lemma CentralFields(bytes: Bytes, o: nat, f: Item, crc: nat, offset: nat)
    requires At(bytes, o, CentralHeader(f, crc, offset)) && FieldsFit(f, crc) && offset < 0x1_0000_0000
    ensures o + 46 <= |bytes| && ReadLe32(bytes, o) == CENTRAL_SIGNATURE
    ensures ReadLe16(bytes, o + 8) == f.flags && ReadLe16(bytes, o + 10) == f.compression && ReadLe32(bytes, o + 16) == crc
    ensures ReadLe32(bytes, o + 20) == |f.packed| && ReadLe32(bytes, o + 24) == |f.data|
    ensures ReadLe16(bytes, o + 28) == |f.name| && ReadLe16(bytes, o + 30) == |f.centralExtra|
    ensures ReadLe16(bytes, o + 32) == |f.comment| && ReadLe16(bytes, o + 34) == 0
    ensures ReadLe32(bytes, o + 38) == f.attributes && ReadLe32(bytes, o + 42) == offset
  {
    hide ByteOf, At;
    var h := CentralHeader(f, crc, offset);
    AtFits(bytes, o, h);
    Bytes32(crc); Bytes32(|f.packed|); Bytes32(|f.data|); Bytes32(f.attributes); Bytes32(offset);
    Bytes16(|f.name|); Bytes16(|f.centralExtra|); Bytes16(|f.comment|); Bytes16(f.flags); Bytes16(f.compression);
    ReadPart(bytes, o, h, 0); ReadPart(bytes, o, h, 8); ReadPart(bytes, o, h, 10); ReadPart(bytes, o, h, 16);
    ReadPart(bytes, o, h, 20); ReadPart(bytes, o, h, 24); ReadPart(bytes, o, h, 28); ReadPart(bytes, o, h, 30);
    ReadPart(bytes, o, h, 32); ReadPart(bytes, o, h, 34); ReadPart(bytes, o, h, 38); ReadPart(bytes, o, h, 42);
  }

  lemma EndFields(bytes: Bytes, o: nat, count: nat, size: nat, offset: nat, comment: nat)
    requires At(bytes, o, EndRecord(count, size, offset, comment))
    requires count < 0x1_0000 && size < 0x1_0000_0000 && offset < 0x1_0000_0000 && comment < 0x1_0000
    ensures o + 22 <= |bytes| && ReadLe32(bytes, o) == END_SIGNATURE
    ensures ReadLe16(bytes, o + 4) == 0 && ReadLe16(bytes, o + 6) == 0 && ReadLe16(bytes, o + 20) == comment
    ensures ReadLe16(bytes, o + 8) == count && ReadLe16(bytes, o + 10) == count
    ensures ReadLe32(bytes, o + 12) == size && ReadLe32(bytes, o + 16) == offset
  {
    hide ByteOf, At;
    var h := EndRecord(count, size, offset, comment);
    AtFits(bytes, o, h);
    Bytes16(count); Bytes32(size); Bytes32(offset); Bytes16(comment);
    ReadPart(bytes, o, h, 0); ReadPart(bytes, o, h, 4); ReadPart(bytes, o, h, 6); ReadPart(bytes, o, h, 8);
    ReadPart(bytes, o, h, 10); ReadPart(bytes, o, h, 12); ReadPart(bytes, o, h, 16); ReadPart(bytes, o, h, 20);
  }

  lemma AtFits(bytes: Bytes, o: nat, part: Bytes)
    requires At(bytes, o, part)
    ensures o + |part| <= |bytes| && bytes[o..o + |part|] == part
  {
  }

  lemma AtConcat(a: Bytes, b: Bytes, c: Bytes)
    ensures At(a + b + c, |a|, b)
  {
    forall k | 0 <= k < |b| ensures (a + b + c)[|a| + k] == b[k] {
      assert (a + b)[|a| + k] == b[k];
    }
  }

  lemma AtFirst(a: Bytes, b: Bytes)
    ensures At(a + b, 0, a)
  {
  }

  lemma AtLast(a: Bytes, b: Bytes)
    ensures At(a + b, |a|, b)
  {
  }

  lemma AtInside(bytes: Bytes, o: nat, part: Bytes, p: nat, inner: Bytes)
    requires At(bytes, o, part) && At(part, p, inner)
    ensures At(bytes, o + p, inner)
  {
    forall k | 0 <= k < |inner| ensures bytes[o + p + k] == inner[k] {
      assert bytes[o + (p + k)] == part[p + k];
    }
  }
}
