/** What the writer writes is what the reader reads. */
module SkinArchiveRoundTrip {
  import opened Domain
  import opened SkinArchive
  import opened SkinArchiveContents
  import opened SkinArchiveFormat
  import opened SkinArchiveLayout

  lemma AllowedNames(name: Bytes)
    requires AllowedFile(name)
    ensures name != [] && 0 !in name && name[|name| - 1] != 47 && |name| < 0x1_0000
  {
    if TextureBody(name) {
      TextureNames(name);
    } else if name != THEME && name != PREVIEW {
      TextureNames(name[..|name| - 1]);
      assert name == name[..|name| - 1] + [10];
    }
  }

  lemma TextureNames(name: Bytes)
    requires TextureBody(name)
    ensures name != [] && 0 !in name && name[|name| - 1] == 103 && |name| < 1000
  {
    assert name[|name| - 4..][3] == PNG[3];
    forall k | 0 <= k < |name| ensures name[k] != 0 {
      if k < 9 {
        assert name[..9][k] == TEXTURES[k];
      } else if k >= |name| - 4 {
        assert name[|name| - 4..][k - (|name| - 4)] == PNG[k - (|name| - 4)];
      }
    }
  }

  lemma {:induction false} NoBits(k: nat)
    ensures !HasBit(0, k)
  {
    if k > 0 {
      NoBits(k - 1);
    }
  }

  lemma NoOptions(e: Entry)
    requires e.flags == 0 && e.attributes == 0 && e.compression == STORED
    ensures AcceptableOptions(e) && !LinkOrSpecial(e.attributes) && !HasBit(e.attributes, 4) && !HasBit(e.flags, 3)
  {
    hide HasBit;
    forall k: nat ensures !HasBit(0, k) {
      NoBits(k);
    }
  }

  /** What an item has to be for its entry to be read. */
  lemma GoodEntry(codec: Codec, f: Item, offset: nat)
    requires GoodItem(codec, f)
    ensures var e := EntryOf(codec, f, offset);
            && e.name != [] && 0 !in e.name && AcceptableEntry(e) && AcceptableOptions(e) && IsDirectory(e) == IsFolder(f)
            && e.uncompressedSize <= MAX_IMAGE_BYTES
    ensures |f.packed| < 0x1_0000_0000 ==> FieldsFit(f, codec.crc(f.data))
  {
    hide AllowedFile, LinkOrSpecial, HasBit;
    if AllowedFile(f.name) {
      AllowedNames(f.name);
    } else {
      FolderName();
    }
  }

  lemma FolderName()
    ensures TEXTURES != [] && 0 !in TEXTURES && |TEXTURES| == 9
  {
    assert |TEXTURES| == 9 && forall k :: 0 <= k < 9 ==> TEXTURES[k] != 0;
  }

  lemma WritableItem(codec: Codec, items: seq<Item>, comment: Bytes, i: nat)
    requires Writable(codec, items, comment) && i < |items|
    ensures GoodItem(codec, items[i]) && |WriteArchive(codec, items, comment)| <= MAX_ARCHIVE_BYTES
  {
  }

  /** The entry of an item as the directory gives it. */
  function EntryAt(codec: Codec, items: seq<Item>, i: nat): Entry
    requires i < |items|
  {
    EntryOf(codec, items[i], LocalOffset(codec, items, i))
  }

  lemma RecordReads(codec: Codec, items: seq<Item>, comment: Bytes, i: nat)
    requires Writable(codec, items, comment) && i < |items|
    ensures ReadRecord(WriteArchive(codec, items, comment), CentralOffset(codec, items, i), CentralOffset(codec, items, |items|))
         == Some((EntryAt(codec, items, i), CentralOffset(codec, items, i + 1)))
  {
    hide LocalOffset, CentralOffset, Writable, GoodItem, WriteArchive, CentralHeader, LocalHeader, At, ReadLe16, ReadLe32,
      AcceptableEntry, AcceptableOptions, IsDirectory, IsFolder, FieldsFit;
    var bytes, f, o := WriteArchive(codec, items, comment), items[i], CentralOffset(codec, items, i);
    WritableItem(codec, items, comment, i);
    ItemStands(codec, items, comment, i);
    RecordStands(codec, items, comment, i);
    OffsetsInside(codec, items, comment, i);
    GoodEntry(codec, f, LocalOffset(codec, items, i));
    CentralUnfold(codec, items, i);
    CentralFields(bytes, o, f, codec.crc(f.data), LocalOffset(codec, items, i));
    AtFits(bytes, o + 46, f.name);
  }

  /** Everything lies in front of the end record, and within what 32 bits can say. */
  lemma OffsetsInside(codec: Codec, items: seq<Item>, comment: Bytes, i: nat)
    requires i < |items| && |WriteArchive(codec, items, comment)| <= MAX_ARCHIVE_BYTES
    ensures CentralOffset(codec, items, i + 1) <= CentralOffset(codec, items, |items|) <= |WriteArchive(codec, items, comment)|
    ensures LocalOffset(codec, items, i) + 30 + |items[i].name| + |items[i].localExtra| + |items[i].packed|
         <= CentralOffset(codec, items, 0) <= CentralOffset(codec, items, |items|)
  {
    hide LocalPart, CentralPart, WriteArchive, At, EndRecord, CentralRecord, LocalHeader;
    ItemStands(codec, items, comment, i);
    ArchiveSizes(codec, items, comment);
    Offsets(codec, items);
    CentralUnfold(codec, items, i);
    CentralAt(codec, items, i, |items|);
    assert items[..|items|] == items;
    AtFits(CentralPart(codec, items), |CentralPart(codec, items[..i])|,
           CentralRecord(codec, items[i], LocalOffset(codec, items, i)));
  }

  lemma HeadersWritten(codec: Codec, items: seq<Item>, comment: Bytes, i: nat)
    requires i < |items| && GoodItem(codec, items[i]) && |WriteArchive(codec, items, comment)| <= MAX_ARCHIVE_BYTES
    ensures var bytes, e := WriteArchive(codec, items, comment), EntryAt(codec, items, i);
            HeadersAgree(bytes, e, |LocalPart(codec, items)|) && PackedData(bytes, e) == items[i].packed
  {
    hide LocalOffset, LocalPart, WriteArchive, LocalHeader, At, HeadersAgree, PackedData, GoodItem, FieldsFit, IsFolder,
      IsDirectory, AcceptableEntry, AcceptableOptions;
    ItemStands(codec, items, comment, i);
    ArchiveSizes(codec, items, comment);
    GoodEntry(codec, items[i], LocalOffset(codec, items, i));
    HeaderAgrees(codec, WriteArchive(codec, items, comment), items[i], LocalOffset(codec, items, i), |LocalPart(codec, items)|);
  }

  lemma HeaderAgrees(codec: Codec, bytes: Bytes, f: Item, o: nat, limit: nat)
    requires At(bytes, o, LocalHeader(f, codec.crc(f.data))) && At(bytes, o + 30, f.name)
    requires At(bytes, o + 30 + |f.name| + |f.localExtra|, f.packed) && FieldsFit(f, codec.crc(f.data))
    requires o + 30 + |f.name| + |f.localExtra| + |f.packed| <= limit <= |bytes|
    ensures var e := EntryOf(codec, f, o); HeadersAgree(bytes, e, limit) && PackedData(bytes, e) == f.packed
  {
    hide LocalHeader, At, ReadLe16, ReadLe32, HasBit, FieldsFit;
    LocalFields(bytes, o, f, codec.crc(f.data));
    AtFits(bytes, o + 30, f.name);
    AtFits(bytes, o + 30 + |f.name| + |f.localExtra|, f.packed);
  }

  lemma ContentsRead(codec: Codec, items: seq<Item>, comment: Bytes, i: nat)
    requires Writable(codec, items, comment) && i < |items|
    ensures ReadContents(codec, WriteArchive(codec, items, comment), EntryAt(codec, items, i), |LocalPart(codec, items)|)
         == Some(items[i].data)
  {
    hide LocalOffset, LocalPart, Writable, WriteArchive, HeadersAgree, PackedData, ReadContents, AcceptableEntry, AcceptableOptions,
      IsFolder, IsDirectory;
    WritableItem(codec, items, comment, i);
    HeadersWritten(codec, items, comment, i);
    GoodEntry(codec, items[i], LocalOffset(codec, items, i));
    AgreedIsTakenOut(codec, WriteArchive(codec, items, comment), EntryAt(codec, items, i), |LocalPart(codec, items)|, items[i].data);
  }

  function Entries(codec: Codec, items: seq<Item>, k: nat): (r: seq<Entry>)
    requires k <= |items|
    ensures |r| == k && forall i :: 0 <= i < k ==> r[i] == EntryAt(codec, items, i)
  {
    seq(k, i requires 0 <= i < k => EntryAt(codec, items, i))
  }

  ghost function FoldedNames(items: seq<Item>, k: nat): (r: set<Bytes>)
    requires k <= |items|
    ensures forall x :: x in r ==> exists i :: 0 <= i < k && Fold(items[i].name) == x
  {
    if k == 0 then {} else FoldedNames(items, k - 1) + {Fold(items[k - 1].name)}
  }

  lemma {:induction false} TotalDataGrows(items: seq<Item>, k: nat)
    requires k <= |items|
    ensures TotalData(items[..k]) <= TotalData(items)
    ensures k < |items| ==> TotalData(items[..k + 1]) == TotalData(items[..k]) + |items[k].data|
    decreases |items|
  {
    if k < |items| {
      assert items[..k + 1][..k] == items[..k];
      assert items[..|items| - 1][..k] == items[..k];
      TotalDataGrows(items[..|items| - 1], k);
    } else {
      assert items[..k] == items;
    }
  }

  /** No earlier name folds to the name of a later item, and the later item still fits the total. */
  lemma NextFits(codec: Codec, items: seq<Item>, comment: Bytes, k: nat)
    requires Writable(codec, items, comment) && k < |items|
    ensures Fold(items[k].name) !in FoldedNames(items, k)
    ensures TotalData(items[..k]) + |items[k].data| == TotalData(items[..k + 1]) <= MAX_EXPANDED_BYTES
  {
    hide WriteArchive, Fold, GoodItem, PlainComment, TotalData, FoldedNames;
    TotalDataGrows(items, k);
    TotalDataGrows(items, k + 1);
  }

  /** The directory after the first `k` records. */
  ghost function DirectoryOf(codec: Codec, items: seq<Item>, k: nat): Directory
    requires k <= |items|
  {
    Directory(Entries(codec, items, k), FoldedNames(items, k), TotalData(items[..k]), CentralOffset(codec, items, k))
  }

  lemma RecordAdds(codec: Codec, items: seq<Item>, comment: Bytes, k: nat)
    requires Writable(codec, items, comment) && k < |items|
    ensures AddRecord(WriteArchive(codec, items, comment), DirectoryOf(codec, items, k), CentralOffset(codec, items, |items|))
         == Some(DirectoryOf(codec, items, k + 1))
  {
    hide LocalOffset, CentralOffset, WriteArchive, Writable, ReadRecord, Fold, TotalData, Entries;
    RecordReads(codec, items, comment, k);
    NextFits(codec, items, comment, k);
    assert Entries(codec, items, k) + [EntryAt(codec, items, k)] == Entries(codec, items, k + 1);
  }

  lemma NothingYet(codec: Codec, items: seq<Item>)
    ensures DirectoryOf(codec, items, 0) == Directory([], {}, 0, CentralOffset(codec, items, 0))
  {
    hide CentralOffset;
  }

  lemma {:induction false} RecordsRead(codec: Codec, items: seq<Item>, comment: Bytes, k: nat)
    requires Writable(codec, items, comment) && k <= |items|
    ensures ReadRecords(WriteArchive(codec, items, comment), CentralOffset(codec, items, 0),
                        CentralOffset(codec, items, |items|), k)
         == Some(DirectoryOf(codec, items, k))
    decreases k
  {
    hide WriteArchive, Writable, AddRecord, DirectoryOf, CentralOffset;
    if k == 0 {
      NothingYet(codec, items);
    } else {
      RecordsRead(codec, items, comment, k - 1);
      RecordAdds(codec, items, comment, k - 1);
    }
  }

  lemma {:induction false} FilesRead(codec: Codec, items: seq<Item>, comment: Bytes, k: nat)
    requires Writable(codec, items, comment) && k <= |items|
    ensures ReadFiles(codec, WriteArchive(codec, items, comment), Entries(codec, items, k), |LocalPart(codec, items)|)
         == Some(FileMap(items[..k]))
    decreases k
  {
    hide LocalPart, WriteArchive, ReadContents, Writable, GoodItem, IsFolder, IsDirectory, LocalOffset;
    if k > 0 {
      FilesRead(codec, items, comment, k - 1);
      ContentsRead(codec, items, comment, k - 1);
      WritableItem(codec, items, comment, k - 1);
      GoodEntry(codec, items[k - 1], LocalOffset(codec, items, k - 1));
      assert Entries(codec, items, k)[..k - 1] == Entries(codec, items, k - 1);
      assert items[..k][..k - 1] == items[..k - 1];
    }
  }

  /** The end record is found behind the directory, whatever comment follows that holds no other. */
  lemma EndFound(codec: Codec, items: seq<Item>, comment: Bytes)
    requires Writable(codec, items, comment)
    ensures EndOf(WriteArchive(codec, items, comment)) == Some(|LocalPart(codec, items)| + |CentralPart(codec, items)|)
  {
    hide LocalPart, CentralPart, WriteArchive, At, ReadLe16, ReadLe32, GoodItem, Fold, TotalData, EndFrom, EndRecord;
    var bytes, end := WriteArchive(codec, items, comment), |LocalPart(codec, items)| + |CentralPart(codec, items)|;
    ArchiveSizes(codec, items, comment);
    EndFields(bytes, end, |items|, |CentralPart(codec, items)|, |LocalPart(codec, items)|, |comment|);
    assert IsEnd(bytes, end);
  }

  lemma BoundsRead(codec: Codec, items: seq<Item>, comment: Bytes)
    requires Writable(codec, items, comment)
    ensures ReadBounds(WriteArchive(codec, items, comment))
         == Some(Bounds(|items|, |LocalPart(codec, items)|, |CentralPart(codec, items)|))
  {
    hide LocalPart, CentralPart, WriteArchive, At, ReadLe16, ReadLe32, GoodItem, Fold, TotalData, EndOf, PlainComment, EndRecord;
    var bytes := WriteArchive(codec, items, comment);
    EndFound(codec, items, comment);
    ArchiveSizes(codec, items, comment);
    CommentFits(bytes, comment, codec, items);
    EndFields(bytes, |bytes| - 22 - |comment|, |items|, |CentralPart(codec, items)|, |LocalPart(codec, items)|, |comment|);
  }

  lemma CommentFits(bytes: Bytes, comment: Bytes, codec: Codec, items: seq<Item>)
    requires Writable(codec, items, comment)
    ensures |comment| < 0x1_0000
  {
  }

  /**
   * Reading what was written gives back exactly the files: stored or deflated, streamed or not, with extra fields and
   * comments, in any order, with or without the textures directory; for any checksum and any decompression.
   */
  lemma RoundTrip(codec: Codec, items: seq<Item>, comment: Bytes)
    requires Writable(codec, items, comment)
    ensures ReadArchive(codec, WriteArchive(codec, items, comment)) == Some(FileMap(items))
  {
    hide LocalPart, CentralPart, WriteArchive, ReadBounds, ReadRecords, ReadFiles, GoodItem, PlainComment, Fold, TotalData;
    BoundsRead(codec, items, comment);
    Offsets(codec, items);
    RecordsRead(codec, items, comment, |items|);
    FilesRead(codec, items, comment, |items|);
    assert items[..|items|] == items;
    var k :| 0 <= k < |items| && items[k].name == THEME;
    assert Entries(codec, items, |items|)[k].name == THEME;
  }

  // ---------------------------------------------------------------------------------------------
  // Plain stored files
  // ---------------------------------------------------------------------------------------------

  lemma PlainIsGood(codec: Codec, name: Bytes, data: Bytes)
    requires AllowedFile(name) && |data| <= SizeLimit(name) && codec.crc(data) < 0x1_0000_0000
    ensures GoodItem(codec, Plain(name, data)) && !IsFolder(Plain(name, data))
  {
    hide AllowedFile, LinkOrSpecial, AcceptableOptions, HasBit;
    NoOptions(EntryOf(codec, Plain(name, data), 0));
    AllowedNames(name);
  }

  lemma NoComment(bytes: Bytes)
    ensures PlainComment(bytes, [])
  {
  }

  /** Any non-empty set of allowed, bounded files that differ by more than case, the theme among them. */
  ghost predicate Acceptable(codec: Codec, files: seq<Item>) {
    && 0 < |files| <= MAX_ENTRIES && |WriteArchive(codec, files, [])| <= MAX_ARCHIVE_BYTES
    && (forall i :: 0 <= i < |files| ==>
          && files[i] == Plain(files[i].name, files[i].data)
          && AllowedFile(files[i].name) && |files[i].data| <= SizeLimit(files[i].name)
          && codec.crc(files[i].data) < 0x1_0000_0000)
    && (forall i, j :: 0 <= i < j < |files| ==> Fold(files[i].name) != Fold(files[j].name))
    && TotalData(files) <= MAX_EXPANDED_BYTES
    && (exists k :: 0 <= k < |files| && files[k].name == THEME)
  }

  /** Such a set, written as stored files with nothing around them, is read back. */
  lemma StoredRoundTrip(codec: Codec, files: seq<Item>)
    requires Acceptable(codec, files)
    ensures Writable(codec, files, []) && ReadArchive(codec, WriteArchive(codec, files, [])) == Some(FileMap(files))
    ensures forall i :: 0 <= i < |files| ==> !IsFolder(files[i])
  {
    hide WriteArchive, GoodItem, PlainComment, AllowedFile, SizeLimit, Fold, TotalData, ReadArchive, IsFolder;
    forall i | 0 <= i < |files| ensures GoodItem(codec, files[i]) && !IsFolder(files[i]) {
      PlainIsGood(codec, files[i].name, files[i].data);
    }
    NoComment(WriteArchive(codec, files, []));
    RoundTrip(codec, files, []);
  }
}
