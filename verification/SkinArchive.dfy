/**
 * The reader of skin archives, a restricted ZIP: it finds the end record from the back, walks the central directory
 * and takes every file out. Checksum and decompression are parameters.
 */
module SkinArchive {
  import opened Domain

  type Byte = b: int | 0 <= b < 256
  type Bytes = seq<Byte>

  const LOCAL_SIGNATURE: nat := 0x04034b50
  const CENTRAL_SIGNATURE: nat := 0x02014b50
  const END_SIGNATURE: nat := 0x06054b50
  const STORED: nat := 0
  const DEFLATED: nat := 8
  const MAX_ARCHIVE_BYTES: nat := 10 * 1024 * 1024
  const MAX_ENTRIES: nat := 64
  const MAX_EXPANDED_BYTES: nat := 32 * 1024 * 1024
  const MAX_THEME_BYTES: nat := 256 * 1024
  const MAX_IMAGE_BYTES: nat := 8 * 1024 * 1024

  /** CRC-32 of a file, and raw inflation to an expected size. */
  datatype Codec = Codec(crc: Bytes -> nat, inflate: (Bytes, nat) -> Option<Bytes>)

  function ReadLe16(bytes: Bytes, offset: nat): (r: nat)
    requires offset + 2 <= |bytes|
    ensures r < 0x1_0000
  {
    (bytes[offset] as int) + 0x100 * (bytes[offset + 1] as int)
  }

  function ReadLe32(bytes: Bytes, offset: nat): (r: nat)
    requires offset + 4 <= |bytes|
    ensures r < 0x1_0000_0000
  {
    (bytes[offset] as int) + 0x100 * (bytes[offset + 1] as int)
    + 0x1_0000 * (bytes[offset + 2] as int) + 0x100_0000 * (bytes[offset + 3] as int)
  }

  predicate RangeFits(size: nat, offset: nat, count: nat) {
    offset <= size && count <= size - offset
  }

  // ---------------------------------------------------------------------------------------------
  // The end record
  // ---------------------------------------------------------------------------------------------

  /** An end record with a comment that ends exactly with the file. */
  predicate IsEnd(bytes: Bytes, offset: nat)
    requires offset + 22 <= |bytes|
  {
    ReadLe32(bytes, offset) == END_SIGNATURE && offset + 22 + ReadLe16(bytes, offset + 20) == |bytes|
  }

  /** The last end record within reach of the longest comment. */
  method FindEnd(bytes: Bytes) returns (r: Option<nat>)
    ensures r == EndOf(bytes)
  {
    if |bytes| < 22 {
      return None;
    }
    var first := Max(0, |bytes| - 22 - 0xffff);
    var offset := |bytes| - 22;
    while offset >= first
      invariant first - 1 <= offset <= |bytes| - 22 && offset >= -1
      invariant EndOf(bytes) == if offset < first then None else EndFrom(bytes, first, offset)
      decreases offset - first + 1
    {
      if ReadLe32(bytes, offset) == END_SIGNATURE {
        var commentSize := ReadLe16(bytes, offset + 20);
        if offset + 22 + commentSize == |bytes| {
          return Some(offset);
        }
      }
      if offset == 0 {
        break;
      }
      offset := offset - 1;
    }
    return None;
  }

  function EndFrom(bytes: Bytes, first: nat, offset: nat): (r: Option<nat>)
    requires first <= offset && offset + 22 <= |bytes|
    ensures r.Some? ==> first <= r.value <= offset && IsEnd(bytes, r.value)
    ensures r.Some? ==> forall o :: r.value < o <= offset ==> !IsEnd(bytes, o)
    ensures r.None? ==> forall o :: first <= o <= offset ==> !IsEnd(bytes, o)
    decreases offset
  {
    if IsEnd(bytes, offset) then Some(offset)
    else if offset == first then None else EndFrom(bytes, first, offset - 1)
  }

  function EndOf(bytes: Bytes): (r: Option<nat>)
    ensures r.Some? ==> r.value + 22 <= |bytes|
  {
    if |bytes| < 22 then None else EndFrom(bytes, Max(0, |bytes| - 22 - 0xffff), |bytes| - 22)
  }

  // ---------------------------------------------------------------------------------------------
  // Entries
  // ---------------------------------------------------------------------------------------------

  datatype Entry = Entry(
    name: Bytes,
    flags: nat,
    compression: nat,
    crc: nat,
    compressedSize: nat,
    uncompressedSize: nat,
    localOffset: nat,
    attributes: nat)

  function Ascii(s: string): (r: Bytes)
    requires forall i :: 0 <= i < |s| ==> s[i] < 128 as char
    ensures |r| == |s|
  {
    seq(|s|, i requires 0 <= i < |s| => s[i] as int)
  }

  const THEME: Bytes := Ascii("theme.json")
  const PREVIEW: Bytes := Ascii("preview.png")
  const TEXTURES: Bytes := Ascii("textures/")
  const PNG: Bytes := Ascii(".png")

  predicate Alphanumeric(b: Byte) {
    48 <= b <= 57 || 65 <= b <= 90 || 97 <= b <= 122
  }

  predicate TextureByte(b: Byte) {
    Alphanumeric(b) || b == 46 || b == 95 || b == 45
  }

  /** The texture pattern on the part before the end, which may be followed by one line feed. */
  predicate TextureBody(name: Bytes) {
    && 9 + 1 + 4 <= |name| <= 9 + 1 + 127 + 4
    && name[..9] == TEXTURES && name[|name| - 4..] == PNG
    && Alphanumeric(name[9]) && forall k :: 10 <= k < |name| - 4 ==> TextureByte(name[k])
  }

  predicate TextureName(name: Bytes) {
    TextureBody(name) || (name != [] && name[|name| - 1] == 10 && TextureBody(name[..|name| - 1]))
  }

  predicate AllowedFile(name: Bytes) {
    name == THEME || name == PREVIEW || TextureName(name)
  }

  function SizeLimit(name: Bytes): nat {
    if name == THEME then MAX_THEME_BYTES else MAX_IMAGE_BYTES
  }

  predicate HasBit(v: nat, k: nat) {
    if k == 0 then v % 2 == 1 else HasBit(v / 2, k - 1)
  }

  /** The Unix file type is in the top four bits: bit 31 alone is a regular file, bit 30 alone a directory. */
  predicate LinkOrSpecial(attributes: nat) {
    HasBit(attributes, 28) || HasBit(attributes, 29) || (HasBit(attributes, 30) && HasBit(attributes, 31))
  }

  predicate IsDirectory(e: Entry) {
    (e.name != [] && e.name[|e.name| - 1] == 47) || HasBit(e.attributes, 4)
  }

  /** Names and sizes the program accepts; everything it refuses as absolute or climbing is not on this list either. */
  predicate AcceptableEntry(e: Entry) {
    && !LinkOrSpecial(e.attributes)
    && if IsDirectory(e)
       then e.name == TEXTURES && e.uncompressedSize == 0 && e.compressedSize == 0 && e.compression == STORED
       else AllowedFile(e.name) && e.uncompressedSize <= SizeLimit(e.name)
  }

  /** Only bits 1, 2, 3 and 11 may be set, and 1 and 2 only for deflated data. */
  predicate AcceptableOptions(e: Entry) {
    && (forall k :: 0 <= k < 16 && HasBit(e.flags, k) ==> k == 1 || k == 2 || k == 3 || k == 11)
    && (e.compression == STORED ==> !HasBit(e.flags, 1) && !HasBit(e.flags, 2))
    && (e.compression == STORED || e.compression == DEFLATED)
  }

  function FoldByte(b: Byte): Byte {
    if 65 <= b <= 90 then b + 32 else b
  }

  /** Case folding of a name; allowed names are ASCII. */
  function Fold(name: Bytes): (r: Bytes)
    ensures |r| == |name| && forall k :: 0 <= k < |r| ==> r[k] == FoldByte(name[k])
  {
    seq(|name|, k requires 0 <= k < |name| => FoldByte(name[k]))
  }

  /** One record of the central directory, with the offset of the next. */
  function ReadRecord(bytes: Bytes, offset: nat, end: nat): (r: Option<(Entry, nat)>)
    ensures r.Some? ==> offset + 46 <= r.value.1 <= end
  {
    if !RangeFits(|bytes|, offset, 46) || offset + 46 > end || ReadLe32(bytes, offset) != CENTRAL_SIGNATURE then None
    else
      var nameSize := ReadLe16(bytes, offset + 28);
      var next := offset + 46 + nameSize + ReadLe16(bytes, offset + 30) + ReadLe16(bytes, offset + 32);
      if !RangeFits(|bytes|, offset + 46, nameSize) || next > end then None
      else
        var entry := Entry(
          bytes[offset + 46..offset + 46 + nameSize],
          ReadLe16(bytes, offset + 8), ReadLe16(bytes, offset + 10), ReadLe32(bytes, offset + 16),
          ReadLe32(bytes, offset + 20), ReadLe32(bytes, offset + 24), ReadLe32(bytes, offset + 42),
          ReadLe32(bytes, offset + 38));
        if entry.name == [] || 0 in entry.name || ReadLe16(bytes, offset + 34) != 0 then None
        else if !AcceptableOptions(entry) || !AcceptableEntry(entry) then None
        else Some((entry, next))
  }

  /** What the directory loop carries along. */
  datatype Directory = Directory(entries: seq<Entry>, folded: set<Bytes>, expanded: nat, offset: nat)

  function AddRecord(bytes: Bytes, d: Directory, end: nat): Option<Directory> {
    var record := ReadRecord(bytes, d.offset, end);
    if record.None? then None
    else
      var (entry, next) := record.value;
      if Fold(entry.name) in d.folded || d.expanded + entry.uncompressedSize > MAX_EXPANDED_BYTES then None
      else Some(Directory(d.entries + [entry], d.folded + {Fold(entry.name)}, d.expanded + entry.uncompressedSize, next))
  }

  function ReadRecords(bytes: Bytes, start: nat, end: nat, count: nat): Option<Directory> {
    if count == 0 then Some(Directory([], {}, 0, start))
    else
      var before := ReadRecords(bytes, start, end, count - 1);
      if before.None? then None else AddRecord(bytes, before.value, end)
  }

  // ---------------------------------------------------------------------------------------------
  // Contents
  // ---------------------------------------------------------------------------------------------

  /** The bytes of one entry, checked against its local header, its sizes and its checksum. */
  function ReadContents(codec: Codec, bytes: Bytes, e: Entry, centralOffset: nat): Option<Bytes> {
    var local := e.localOffset;
    if !RangeFits(|bytes|, local, 30) || ReadLe32(bytes, local) != LOCAL_SIGNATURE then None
    else
      var nameSize, extraSize := ReadLe16(bytes, local + 26), ReadLe16(bytes, local + 28);
      if !RangeFits(|bytes|, local + 30, nameSize) then None
      else if bytes[local + 30..local + 30 + nameSize] != e.name || ReadLe16(bytes, local + 6) != e.flags
              || ReadLe16(bytes, local + 8) != e.compression then None
      else if !HasBit(e.flags, 3)
              && (ReadLe32(bytes, local + 14) != e.crc || ReadLe32(bytes, local + 18) != e.compressedSize
                  || ReadLe32(bytes, local + 22) != e.uncompressedSize) then None
      else
        var data := local + 30 + nameSize + extraSize;
        if !RangeFits(|bytes|, data, e.compressedSize) || data + e.compressedSize > centralOffset
           || e.uncompressedSize > INT_MAX then None
        else
          var raw := bytes[data..data + e.compressedSize];
          var output :=
            if e.compression == STORED then (if e.compressedSize == e.uncompressedSize then Some(raw) else None)
            else codec.inflate(raw, e.uncompressedSize);
          if output.None? || |output.value| != e.uncompressedSize || codec.crc(output.value) != e.crc then None
          else output
  }

  type Files = map<Bytes, Bytes>

  function ReadFiles(codec: Codec, bytes: Bytes, entries: seq<Entry>, centralOffset: nat): Option<Files> {
    if entries == [] then Some(map[])
    else
      var before := ReadFiles(codec, bytes, entries[..|entries| - 1], centralOffset);
      var e := entries[|entries| - 1];
      if before.None? then None
      else
        var contents := ReadContents(codec, bytes, e, centralOffset);
        if contents.None? then None
        else if IsDirectory(e) then before
        else Some(before.value[e.name := contents.value])
  }

  /** The header fields that the end record gives. */
  datatype Bounds = Bounds(count: nat, offset: nat, size: nat)

  function ReadBounds(bytes: Bytes): (r: Option<Bounds>)
    ensures r.Some? ==> 0 < r.value.count <= MAX_ENTRIES && r.value.offset + r.value.size <= |bytes|
  {
    var end := EndOf(bytes);
    if |bytes| > MAX_ARCHIVE_BYTES || end.None? then None
    else
      var o := end.value;
      var count, size, offset := ReadLe16(bytes, o + 10), ReadLe32(bytes, o + 12), ReadLe32(bytes, o + 16);
      if ReadLe16(bytes, o + 4) != 0 || ReadLe16(bytes, o + 6) != 0 then None
      else if ReadLe16(bytes, o + 8) != count || count == 0 || count > MAX_ENTRIES || count == 0xffff
              || size == 0xffff_ffff || offset == 0xffff_ffff then None
      else if !RangeFits(|bytes|, offset, size) || offset + size > o then None
      else Some(Bounds(count, offset, size))
  }

  function ReadDirectory(bytes: Bytes): Option<(Bounds, Directory)> {
    var bounds := ReadBounds(bytes);
    if bounds.None? then None
    else
      var b := bounds.value;
      var d := ReadRecords(bytes, b.offset, b.offset + b.size, b.count);
      if d.None? || d.value.offset != b.offset + b.size || !(exists k :: 0 <= k < |d.value.entries| && d.value.entries[k].name == THEME)
      then None else Some((b, d.value))
  }

  function ReadArchive(codec: Codec, bytes: Bytes): (r: Option<Files>)
    ensures r.Some? ==> ReadDirectory(bytes).Some?
  {
    var directory := ReadDirectory(bytes);
    if directory.None? then None
    else ReadFiles(codec, bytes, directory.value.1.entries, directory.value.0.offset)
  }

  /** The directory loop, record by record. */
  method ReadEntries(bytes: Bytes, start: nat, end: nat, count: nat) returns (r: Option<Directory>)
    ensures r == ReadRecords(bytes, start, end, count)
  {
    hide ReadRecord, Fold;
    var entries, folded := [], {};
    var expanded: nat, offset: nat := 0, start;
    for index := 0 to count
      invariant ReadRecords(bytes, start, end, index) == Some(Directory(entries, folded, expanded, offset))
    {
      var record := ReadRecord(bytes, offset, end);
      if record.None? {
        RecordsFail(bytes, start, end, index + 1, count);
        return None;
      }
      var (entry, next) := record.value;
      var name := Fold(entry.name);
      if name in folded || expanded + entry.uncompressedSize > MAX_EXPANDED_BYTES {
        RecordsFail(bytes, start, end, index + 1, count);
        return None;
      }
      folded := folded + {name};
      expanded := expanded + entry.uncompressedSize;
      entries := entries + [entry];
      offset := next;
    }
    return Some(Directory(entries, folded, expanded, offset));
  }

  /** The whole reader: the end record, the directory, then the contents entry by entry. */
  method ReadSkinArchive(codec: Codec, bytes: Bytes) returns (r: Option<Files>)
    ensures r == ReadArchive(codec, bytes)
  {
    hide ReadRecords, ReadContents, ReadBounds, IsDirectory;
    var bounds := ReadBounds(bytes);
    if bounds.None? {
      return None;
    }
    var b := bounds.value;
    var directory := ReadEntries(bytes, b.offset, b.offset + b.size, b.count);
    if directory.None? {
      return None;
    }
    var entries := directory.value.entries;
    if directory.value.offset != b.offset + b.size || !(exists k :: 0 <= k < |entries| && entries[k].name == THEME) {
      return None;
    }
    var files: Files := map[];
    for index := 0 to |entries|
      invariant ReadFiles(codec, bytes, entries[..index], b.offset) == Some(files)
    {
      assert entries[..index + 1][..index] == entries[..index];
      var contents := ReadContents(codec, bytes, entries[index], b.offset);
      if contents.None? {
        FilesFail(codec, bytes, entries, b.offset, index + 1);
        return None;
      }
      if !IsDirectory(entries[index]) {
        files := files[entries[index].name := contents.value];
      }
    }
    assert entries[..|entries|] == entries;
    r := Some(files);
  }

  lemma {:induction false} RecordsFail(bytes: Bytes, start: nat, end: nat, at: nat, count: nat)
    requires at <= count && ReadRecords(bytes, start, end, at).None?
    ensures ReadRecords(bytes, start, end, count).None?
    decreases count
  {
    hide AddRecord;
    if at < count {
      RecordsFail(bytes, start, end, at, count - 1);
    }
  }

  lemma {:induction false} FilesFail(codec: Codec, bytes: Bytes, entries: seq<Entry>, offset: nat, at: nat)
    requires at <= |entries| && ReadFiles(codec, bytes, entries[..at], offset).None?
    ensures ReadFiles(codec, bytes, entries, offset).None?
    decreases |entries|
  {
    hide ReadContents;
    if at < |entries| {
      assert entries[..|entries| - 1][..at] == entries[..at];
      FilesFail(codec, bytes, entries[..|entries| - 1], offset, at);
    } else {
      assert entries[..at] == entries;
    }
  }
}
