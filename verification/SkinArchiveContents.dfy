/** What the skin archive reader guarantees about any archive that it accepts. */
module SkinArchiveContents {
  import opened Domain
  import opened SkinArchive

  /** The length of the directory record that starts at an offset. */
  function RecordSize(bytes: Bytes, offset: nat): nat
    requires offset + 46 <= |bytes|
  {
    46 + ReadLe16(bytes, offset + 28) + ReadLe16(bytes, offset + 30) + ReadLe16(bytes, offset + 32)
  }

  /** `count` directory records of the first disk, one directly after the other, fill `[start, end)`. */
  ghost predicate Tiles(bytes: Bytes, start: nat, end: nat, count: nat)
    decreases count
  {
    if count == 0 then start == end
    else
      start + 46 <= end <= |bytes| && ReadLe32(bytes, start) == CENTRAL_SIGNATURE && ReadLe16(bytes, start + 34) == 0
      && start + RecordSize(bytes, start) <= end
      && Tiles(bytes, start + RecordSize(bytes, start), end, count - 1)
  }

  lemma {:induction false} TilesAppend(bytes: Bytes, start: nat, mid: nat, end: nat, count: nat)
    requires Tiles(bytes, start, mid, count) && mid + 46 <= end <= |bytes|
    requires ReadLe32(bytes, mid) == CENTRAL_SIGNATURE && ReadLe16(bytes, mid + 34) == 0 && mid + RecordSize(bytes, mid) == end
    ensures Tiles(bytes, start, end, count + 1)
    decreases count
  {
    if count > 0 {
      TilesAppend(bytes, start + RecordSize(bytes, start), mid, end, count - 1);
    } else {
      assert Tiles(bytes, end, end, 0);
    }
  }

  function Expanded(entries: seq<Entry>): nat {
    if entries == [] then 0 else Expanded(entries[..|entries| - 1]) + entries[|entries| - 1].uncompressedSize
  }

  ghost predicate DistinctNames(entries: seq<Entry>) {
    forall i, j :: 0 <= i < j < |entries| ==> Fold(entries[i].name) != Fold(entries[j].name)
  }

  /** The records read so far lie one after the other. */
  ghost predicate Tiled(bytes: Bytes, start: nat, d: Directory, count: nat) {
    |d.entries| == count && Tiles(bytes, start, d.offset, count)
  }

  /** What they declare is allowed, distinct and not too much. */
  ghost predicate Clean(d: Directory) {
    && d.expanded == Expanded(d.entries) <= 33_554_432
    && DistinctNames(d.entries)
    && (forall i :: 0 <= i < |d.entries| ==> Fold(d.entries[i].name) in d.folded)
    && (forall i :: 0 <= i < |d.entries| ==> AcceptableEntry(d.entries[i]) && AcceptableOptions(d.entries[i]))
  }

  lemma AddRecordTiled(bytes: Bytes, start: nat, d: Directory, count: nat, end: nat)
    requires Tiled(bytes, start, d, count) && end <= |bytes| && AddRecord(bytes, d, end).Some?
    ensures Tiled(bytes, start, AddRecord(bytes, d, end).value, count + 1)
  {
    hide AcceptableEntry, AcceptableOptions, Fold, ReadLe16, ReadLe32;
    TilesAppend(bytes, start, d.offset, AddRecord(bytes, d, end).value.offset, count);
  }

  lemma AddRecordClean(bytes: Bytes, d: Directory, end: nat)
    requires Clean(d) && AddRecord(bytes, d, end).Some?
    ensures Clean(AddRecord(bytes, d, end).value)
  {
    hide AcceptableEntry, AcceptableOptions, Fold, ReadLe16, ReadLe32;
    var next := AddRecord(bytes, d, end).value;
    assert next.entries[..|d.entries|] == d.entries;
  }

  lemma {:induction false} RecordsTiled(bytes: Bytes, start: nat, end: nat, count: nat)
    requires end <= |bytes| && ReadRecords(bytes, start, end, count).Some?
    ensures Tiled(bytes, start, ReadRecords(bytes, start, end, count).value, count)
    decreases count
  {
    hide AddRecord, Tiled;
    if count > 0 {
      RecordsTiled(bytes, start, end, count - 1);
      AddRecordTiled(bytes, start, ReadRecords(bytes, start, end, count - 1).value, count - 1, end);
    } else {
      NothingRead(bytes, start);
    }
  }

  lemma {:induction false} RecordsClean(bytes: Bytes, start: nat, end: nat, count: nat)
    requires ReadRecords(bytes, start, end, count).Some?
    ensures Clean(ReadRecords(bytes, start, end, count).value)
    decreases count
  {
    hide AddRecord, Clean;
    if count > 0 {
      RecordsClean(bytes, start, end, count - 1);
      AddRecordClean(bytes, ReadRecords(bytes, start, end, count - 1).value, end);
    } else {
      NothingRead(bytes, start);
    }
  }

  lemma NothingRead(bytes: Bytes, start: nat)
    ensures Tiled(bytes, start, Directory([], {}, 0, start), 0) && Clean(Directory([], {}, 0, start))
  {
  }

  /**
   * In any directory that is read, as on any accepted archive, the records tile the declared extent exactly, their
   * names differ by more than letter case and are all allowed, there is a theme, and the expanded sizes stay within
   * 32 MiB in all.
   */
  lemma AcceptedDirectory(bytes: Bytes)
    requires ReadDirectory(bytes).Some?
    ensures var (b, d) := ReadDirectory(bytes).value;
            && 0 < b.count <= 64 && d.offset == b.offset + b.size
            && Tiled(bytes, b.offset, d, b.count) && Clean(d)
            && exists k :: 0 <= k < |d.entries| && d.entries[k].name == THEME
  {
    hide ReadBounds, ReadFiles, Tiled, Clean, ReadRecords;
    var (b, d) := ReadDirectory(bytes).value;
    RecordsTiled(bytes, b.offset, b.offset + b.size, b.count);
    RecordsClean(bytes, b.offset, b.offset + b.size, b.count);
  }

  /**
   * The end record of any directory that is read: a single disk, the same count twice, a directory that ends before it,
   * and a file of at most 10 MiB.
   */
  lemma AcceptedEnd(bytes: Bytes)
    requires ReadDirectory(bytes).Some?
    ensures var b, end := ReadDirectory(bytes).value.0, EndOf(bytes);
            && |bytes| <= 10_485_760 && end.Some? && b.offset + b.size <= end.value
            && ReadLe16(bytes, end.value + 4) == 0 && ReadLe16(bytes, end.value + 6) == 0
            && ReadLe16(bytes, end.value + 8) == ReadLe16(bytes, end.value + 10) == b.count
            && ReadLe32(bytes, end.value + 12) == b.size && ReadLe32(bytes, end.value + 16) == b.offset
  {
    hide EndOf, ReadLe16, ReadLe32, ReadRecords;
  }

  /** A file taken out of the archive has the size and the checksum that the directory declares for it. */
  ghost predicate TakenOut(codec: Codec, bytes: Bytes, e: Entry, limit: nat, files: Files) {
    && e.name in files && |files[e.name]| == e.uncompressedSize && codec.crc(files[e.name]) == e.crc
    && ReadContents(codec, bytes, e, limit) == Some(files[e.name])
  }

  /** Exactly the entries that are no directories are taken out, none overwriting another. */
  lemma {:induction false} FilesSound(codec: Codec, bytes: Bytes, entries: seq<Entry>, limit: nat)
    requires DistinctNames(entries) && ReadFiles(codec, bytes, entries, limit).Some?
    ensures var files := ReadFiles(codec, bytes, entries, limit).value;
            && (forall i :: 0 <= i < |entries| && !IsDirectory(entries[i]) ==> TakenOut(codec, bytes, entries[i], limit, files))
            && (forall name :: name in files ==> exists i :: 0 <= i < |entries| && entries[i].name == name && !IsDirectory(entries[i]))
    decreases |entries|
  {
    hide ReadContents, Fold, IsDirectory;
    if entries != [] {
      var init, last := entries[..|entries| - 1], entries[|entries| - 1];
      FilesSound(codec, bytes, init, limit);
      ContentsChecked(codec, bytes, last, limit);
      var before, files := ReadFiles(codec, bytes, init, limit).value, ReadFiles(codec, bytes, entries, limit).value;
      forall i | 0 <= i < |entries| - 1 && !IsDirectory(entries[i])
        ensures TakenOut(codec, bytes, entries[i], limit, files)
      {
        assert TakenOut(codec, bytes, init[i], limit, before);
        assert Fold(entries[i].name) != Fold(last.name);
      }
      forall name | name in files
        ensures exists i :: 0 <= i < |entries| && entries[i].name == name && !IsDirectory(entries[i])
      {
        if name in before {
          var i :| 0 <= i < |init| && init[i].name == name && !IsDirectory(init[i]);
          assert entries[i] == init[i];
        } else {
          assert entries[|entries| - 1].name == name;
        }
      }
    }
  }

  lemma ContentsChecked(codec: Codec, bytes: Bytes, e: Entry, limit: nat)
    ensures var r := ReadContents(codec, bytes, e, limit);
            r.Some? ==> |r.value| == e.uncompressedSize && codec.crc(r.value) == e.crc
  {
    hide ReadLe16, ReadLe32;
  }

  /** The local header of an entry repeats what the directory says, and its data lies in front of the directory. */
  ghost predicate HeadersAgree(bytes: Bytes, e: Entry, limit: nat) {
    var o, n := e.localOffset, |e.name|;
    && o + 30 + n <= |bytes| && ReadLe32(bytes, o) == LOCAL_SIGNATURE
    && ReadLe16(bytes, o + 26) == n && bytes[o + 30..o + 30 + n] == e.name
    && ReadLe16(bytes, o + 6) == e.flags && ReadLe16(bytes, o + 8) == e.compression
    && (!HasBit(e.flags, 3) ==>
          && ReadLe32(bytes, o + 14) == e.crc && ReadLe32(bytes, o + 18) == e.compressedSize
          && ReadLe32(bytes, o + 22) == e.uncompressedSize)
    && o + 30 + n + ReadLe16(bytes, o + 28) + e.compressedSize <= Min(|bytes|, limit)
  }

  /** The packed data of an entry. */
  function PackedData(bytes: Bytes, e: Entry): Bytes
    requires e.localOffset + 30 + |e.name| <= |bytes|
    requires e.localOffset + 30 + |e.name| + ReadLe16(bytes, e.localOffset + 28) + e.compressedSize <= |bytes|
  {
    var data := e.localOffset + 30 + |e.name| + ReadLe16(bytes, e.localOffset + 28);
    bytes[data..data + e.compressedSize]
  }

  /** Only an entry whose two headers agree is taken out, and what comes out is its packed data, or the inflation of that. */
  lemma TakenOutAgrees(codec: Codec, bytes: Bytes, e: Entry, limit: nat)
    requires ReadContents(codec, bytes, e, limit).Some?
    ensures HeadersAgree(bytes, e, limit)
    ensures ReadContents(codec, bytes, e, limit)
         == if e.compression == STORED then Some(PackedData(bytes, e)) else codec.inflate(PackedData(bytes, e), e.uncompressedSize)
  {
    hide ReadLe16, ReadLe32, HasBit;
  }

  /** And whatever the packed data of agreeing headers stands for is taken out, if its size and checksum are right. */
  lemma AgreedIsTakenOut(codec: Codec, bytes: Bytes, e: Entry, limit: nat, data: Bytes)
    requires HeadersAgree(bytes, e, limit)
    requires |data| == e.uncompressedSize <= INT_MAX && codec.crc(data) == e.crc
    requires if e.compression == STORED then PackedData(bytes, e) == data
             else codec.inflate(PackedData(bytes, e), e.uncompressedSize) == Some(data)
    ensures ReadContents(codec, bytes, e, limit) == Some(data)
  {
    hide ReadLe16, ReadLe32, HasBit;
  }
}
