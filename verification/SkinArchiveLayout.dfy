/** Where the writer puts the parts of an archive. */
module SkinArchiveLayout {
  import opened SkinArchive
  import opened SkinArchiveFormat

  /** Where the local header of an item stands, and its record in the directory. */
  function LocalOffset(codec: Codec, items: seq<Item>, i: nat): nat
    requires i <= |items|
  {
    |LocalPart(codec, items[..i])|
  }

  function CentralOffset(codec: Codec, items: seq<Item>, i: nat): nat
    requires i <= |items|
  {
    |LocalPart(codec, items)| + |CentralPart(codec, items[..i])|
  }

  lemma LocalUnfold(codec: Codec, items: seq<Item>, i: nat)
    requires i < |items|
    ensures LocalPart(codec, items[..i + 1]) == LocalPart(codec, items[..i]) + LocalRecord(codec, items[i])
  {
    hide LocalRecord;
    assert items[..i + 1][..i] == items[..i];
  }

  lemma {:induction false} LocalAt(codec: Codec, items: seq<Item>, i: nat, k: nat)
    requires i < k <= |items|
    ensures At(LocalPart(codec, items[..k]), LocalOffset(codec, items, i), LocalRecord(codec, items[i]))
    decreases k
  {
    hide LocalPart, LocalRecord, At;
    LocalUnfold(codec, items, k - 1);
    var before, record := LocalPart(codec, items[..k - 1]), LocalRecord(codec, items[k - 1]);
    if i < k - 1 {
      LocalAt(codec, items, i, k - 1);
      AtFirst(before, record);
      AtInside(before + record, 0, before, LocalOffset(codec, items, i), LocalRecord(codec, items[i]));
    } else {
      AtLast(before, record);
    }
  }

  lemma CentralUnfold(codec: Codec, items: seq<Item>, i: nat)
    requires i < |items|
    ensures CentralPart(codec, items[..i + 1])
         == CentralPart(codec, items[..i]) + CentralRecord(codec, items[i], LocalOffset(codec, items, i))
    ensures |CentralRecord(codec, items[i], LocalOffset(codec, items, i))|
         == 46 + |items[i].name| + |items[i].centralExtra| + |items[i].comment|
    ensures CentralOffset(codec, items, i + 1)
         == CentralOffset(codec, items, i) + 46 + |items[i].name| + |items[i].centralExtra| + |items[i].comment|
  {
    hide CentralHeader, LocalPart;
    assert items[..i + 1][..i] == items[..i];
  }

  lemma {:induction false} CentralAt(codec: Codec, items: seq<Item>, i: nat, k: nat)
    requires i < k <= |items|
    ensures At(CentralPart(codec, items[..k]), |CentralPart(codec, items[..i])|,
               CentralRecord(codec, items[i], LocalOffset(codec, items, i)))
    decreases k
  {
    hide CentralPart, CentralRecord, At, LocalOffset;
    CentralUnfold(codec, items, k - 1);
    var before, record := CentralPart(codec, items[..k - 1]), CentralRecord(codec, items[k - 1], LocalOffset(codec, items, k - 1));
    if i < k - 1 {
      CentralAt(codec, items, i, k - 1);
      AtFirst(before, record);
      AtInside(before + record, 0, before, |CentralPart(codec, items[..i])|,
               CentralRecord(codec, items[i], LocalOffset(codec, items, i)));
    } else {
      AtLast(before, record);
    }
  }

  lemma LocalRecordAt(codec: Codec, items: seq<Item>, comment: Bytes, i: nat)
    requires i < |items|
    ensures At(WriteArchive(codec, items, comment), LocalOffset(codec, items, i), LocalRecord(codec, items[i]))
    ensures LocalOffset(codec, items, i) + |LocalRecord(codec, items[i])| <= |LocalPart(codec, items)|
  {
    hide LocalRecord, EndRecord, LocalPart, CentralPart, At;
    var local, central := LocalPart(codec, items), CentralPart(codec, items);
    var o, record := LocalOffset(codec, items, i), LocalRecord(codec, items[i]);
    LocalAt(codec, items, i, |items|);
    assert items[..|items|] == items;
    AtFits(local, o, record);
    var rest := central + EndRecord(|items|, |central|, |local|, |comment|) + comment;
    AtFirst(local, rest);
    assert local + rest == WriteArchive(codec, items, comment);
    AtInside(WriteArchive(codec, items, comment), 0, local, o, record);
  }

  lemma CentralRecordAt(codec: Codec, items: seq<Item>, comment: Bytes, i: nat)
    requires i < |items|
    ensures At(WriteArchive(codec, items, comment), CentralOffset(codec, items, i),
               CentralRecord(codec, items[i], LocalOffset(codec, items, i)))
  {
    hide CentralRecord, EndRecord, LocalPart, CentralPart, At, LocalOffset;
    var local, central := LocalPart(codec, items), CentralPart(codec, items);
    CentralAt(codec, items, i, |items|);
    assert items[..|items|] == items;
    var rest := EndRecord(|items|, |central|, |local|, |comment|) + comment;
    AtConcat(local, central, rest);
    assert local + central + rest == WriteArchive(codec, items, comment);
    AtInside(WriteArchive(codec, items, comment), |local|, central, |CentralPart(codec, items[..i])|,
             CentralRecord(codec, items[i], LocalOffset(codec, items, i)));
  }

  /** What one item put before the directory. */
  lemma ItemStands(codec: Codec, items: seq<Item>, comment: Bytes, i: nat)
    requires i < |items|
    ensures var bytes, f, o := WriteArchive(codec, items, comment), items[i], LocalOffset(codec, items, i);
            && At(bytes, o, LocalHeader(f, codec.crc(f.data))) && At(bytes, o + 30, f.name)
            && At(bytes, o + 30 + |f.name| + |f.localExtra|, f.packed)
            && o + 30 + |f.name| + |f.localExtra| + |f.packed| <= |LocalPart(codec, items)|
  {
    hide LocalHeader, WriteArchive, LocalPart, At, LocalOffset;
    var bytes, f, o := WriteArchive(codec, items, comment), items[i], LocalOffset(codec, items, i);
    LocalRecordAt(codec, items, comment, i);
    var header := LocalHeader(f, codec.crc(f.data));
    LocalParts(header, f.name, f.localExtra, f.packed, f.trailer);
    AtInside(bytes, o, LocalRecord(codec, f), 0, header);
    AtInside(bytes, o, LocalRecord(codec, f), 30, f.name);
    AtInside(bytes, o, LocalRecord(codec, f), 30 + |f.name| + |f.localExtra|, f.packed);
  }

  lemma LocalParts(a: Bytes, b: Bytes, c: Bytes, d: Bytes, e: Bytes)
    ensures At(a + b + c + d + e, 0, a) && At(a + b + c + d + e, |a|, b) && At(a + b + c + d + e, |a| + |b| + |c|, d)
  {
    hide At;
    RecordParts(a, b, c + d + e);
    assert a + b + (c + d + e) == a + b + c + d + e;
    AtConcat(a + b + c, d, e);
  }

  /** What one item put into the directory. */
  lemma RecordStands(codec: Codec, items: seq<Item>, comment: Bytes, i: nat)
    requires i < |items|
    ensures var bytes, f, c := WriteArchive(codec, items, comment), items[i], CentralOffset(codec, items, i);
            At(bytes, c, CentralHeader(f, codec.crc(f.data), LocalOffset(codec, items, i))) && At(bytes, c + 46, f.name)
  {
    hide CentralHeader, WriteArchive, At, LocalOffset, CentralOffset;
    var bytes, f, c := WriteArchive(codec, items, comment), items[i], CentralOffset(codec, items, i);
    CentralRecordAt(codec, items, comment, i);
    var header, record := CentralHeader(f, codec.crc(f.data), LocalOffset(codec, items, i)),
      CentralRecord(codec, f, LocalOffset(codec, items, i));
    RecordParts(header, f.name, f.centralExtra + f.comment);
    assert header + f.name + (f.centralExtra + f.comment) == record;
    AtInside(bytes, c, record, 0, header);
    AtInside(bytes, c, record, 46, f.name);
  }

  lemma RecordParts(a: Bytes, b: Bytes, c: Bytes)
    ensures At(a + b + c, 0, a) && At(a + b + c, |a|, b)
  {
    hide At;
    AtFirst(a, b + c);
    assert a + (b + c) == a + b + c;
    AtConcat(a, b, c);
  }

  lemma Offsets(codec: Codec, items: seq<Item>)
    ensures CentralOffset(codec, items, 0) == |LocalPart(codec, items)|
    ensures CentralOffset(codec, items, |items|) == |LocalPart(codec, items)| + |CentralPart(codec, items)|
  {
    hide LocalPart;
    assert items[..0] == [] && CentralPart(codec, []) == [];
    assert items[..|items|] == items;
  }

  lemma ArchiveSizes(codec: Codec, items: seq<Item>, comment: Bytes)
    ensures var bytes, end := WriteArchive(codec, items, comment), |LocalPart(codec, items)| + |CentralPart(codec, items)|;
            && |bytes| == end + 22 + |comment|
            && At(bytes, end, EndRecord(|items|, |CentralPart(codec, items)|, |LocalPart(codec, items)|, |comment|))
  {
    hide LocalPart, CentralPart, EndRecord, At;
    var local, central := LocalPart(codec, items), CentralPart(codec, items);
    AtConcat(local + central, EndRecord(|items|, |central|, |local|, |comment|), comment);
  }
}
