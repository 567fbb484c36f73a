/** A name that the archive's texture pattern lets through although it does not end like a texture. */
module SkinArchiveNames {
  import opened Domain
  import opened SkinArchive
  import opened SkinArchiveFormat
  import opened SkinArchiveLayout
  import opened SkinArchiveRoundTrip

  const JSON: Bytes := Ascii(".json")

  ghost predicate EndsWith(name: Bytes, end: Bytes) {
    |end| <= |name| && name[|name| - |end|..] == end
  }

  lemma LastByte(name: Bytes, end: Bytes)
    requires end != []
    ensures EndsWith(name, end) ==> name != [] && name[|name| - 1] == end[|end| - 1]
  {
    if EndsWith(name, end) {
      assert name[|name| - |end|..][|end| - 1] == name[|name| - 1];
    }
  }

  /** The program means images and the theme; it accepts exactly one more ending, a single line feed behind an image. */
  lemma AllowedEndings(name: Bytes)
    requires AllowedFile(name)
    ensures name != []
    ensures EndsWith(name, PNG) || EndsWith(name, JSON) <==> name[|name| - 1] != 10
    ensures name[|name| - 1] == 10 ==> EndsWith(name[..|name| - 1], PNG)
  {
    AllowedNames(name);
    assert THEME[9] == 110 && PREVIEW[10] == 103 && PNG[3] == 103 && JSON[4] == 110;
    LastByte(name, PNG);
    LastByte(name, JSON);
    if name == THEME {
      assert THEME[5..] == JSON;
    } else if name == PREVIEW {
      assert PREVIEW[7..] == PNG;
    }
  }

  const ODD_NAME: Bytes := Ascii("textures/a.png") + [10]

  lemma OddNameAllowed()
    ensures AllowedFile(ODD_NAME) && ODD_NAME != THEME && ODD_NAME != PREVIEW && |ODD_NAME| == 15
    ensures Fold(ODD_NAME) != Fold(THEME)
  {
    var body := ODD_NAME[..14];
    assert body == Ascii("textures/a.png");
    assert body[..9] == TEXTURES && body[10..] == PNG && Alphanumeric(body[9]);
    assert |THEME| == 10 && |PREVIEW| == 11;
  }

  /** The part of a texture name between the directory and the ending. */
  ghost predicate Stem(stem: Bytes) {
    && 1 <= |stem| <= 128 && (48 <= stem[0] <= 57 || 65 <= stem[0] <= 90 || 97 <= stem[0] <= 122)
    && forall k :: 1 <= k < |stem| ==>
         48 <= stem[k] <= 57 || 65 <= stem[k] <= 90 || 97 <= stem[k] <= 122 || stem[k] in {45, 46, 95}
  }

  ghost predicate TextureOf(name: Bytes, stem: Bytes) {
    Stem(stem) && name == Ascii("textures/") + stem + Ascii(".png")
  }

  ghost predicate IsTexture(name: Bytes) {
    exists stem :: TextureOf(name, stem)
  }

  lemma BodyIsTexture(name: Bytes)
    ensures TextureBody(name) <==> IsTexture(name)
  {
    assert |TEXTURES| == 9 && |PNG| == 4;
    if TextureBody(name) {
      var stem := name[9..|name| - 4];
      assert forall k :: 0 <= k < |stem| ==> stem[k] == name[9 + k];
      assert name == name[..9] + stem + name[|name| - 4..];
      assert TextureOf(name, stem);
    }
    if IsTexture(name) {
      var stem :| TextureOf(name, stem);
      assert name[..9] == TEXTURES && name[|name| - 4..] == PNG;
      assert forall k :: 9 <= k < |name| - 4 ==> name[k] == stem[k - 9];
    }
  }

  /** Exactly the two fixed names and the textures are allowed, a texture also with a line feed behind it. */
  lemma AllowedExactly(name: Bytes)
    ensures AllowedFile(name) <==>
              || name == Ascii("theme.json") || name == Ascii("preview.png")
              || IsTexture(name) || (name != [] && name[|name| - 1] == 10 && IsTexture(name[..|name| - 1]))
  {
    hide TextureBody, IsTexture;
    BodyIsTexture(name);
    if name != [] {
      BodyIsTexture(name[..|name| - 1]);
    }
  }

  /**
   * No allowed name leads anywhere: it is one of the two fixed names, or a single file name in the textures directory,
   * which starts with a letter or a digit and holds no separator, no drive letter and no end of text.
   */
  lemma AllowedNamesAreFlat(name: Bytes)
    requires AllowedFile(name) && name != THEME && name != PREVIEW
    ensures 9 + 1 + 4 <= |name| <= 9 + 1 + 127 + 4 + 1 && name[..9] == Ascii("textures/") && Alphanumeric(name[9])
    ensures forall k :: 9 <= k < |name| ==> name[k] != 47 && name[k] != 92 && name[k] != 58 && name[k] != 0
  {
    var body := if TextureBody(name) then name else name[..|name| - 1];
    assert |PNG| == 4 && PNG[0] == 46 && PNG[1] == 112 && PNG[2] == 110 && PNG[3] == 103;
    forall k | 9 <= k < |body| ensures body[k] != 47 && body[k] != 92 && body[k] != 58 && body[k] != 0 {
      if k >= |body| - 4 {
        assert body[|body| - 4..][k - (|body| - 4)] == PNG[k - (|body| - 4)];
      }
    }
    assert body[..9] == name[..9];
  }

  function OddFiles(): seq<Item> {
    [Plain(THEME, []), Plain(ODD_NAME, [])]
  }

  /** An archive with such a name is read without complaint, whatever the checksum of nothing is. */
  lemma LineFeedNameIsRead(codec: Codec)
    requires codec.crc([]) < 0x1_0000_0000
    ensures var files := OddFiles();
            && Writable(codec, files, [])
            && ReadArchive(codec, WriteArchive(codec, files, [])) == Some(FileMap(files)) && ODD_NAME in FileMap(files)
            && !EndsWith(ODD_NAME, PNG) && !EndsWith(ODD_NAME, JSON)
  {
    hide AllowedFile, Fold, WriteArchive, ReadArchive, Writable, FileMap, IsFolder;
    var files := OddFiles();
    OddNameAllowed();
    AllowedEndings(ODD_NAME);
    ThemeAllowed();
    SmallArchive(codec);
    assert files[0].name == THEME;
    StoredRoundTrip(codec, files);
    FileMapExact(files);
    assert files[1].name == ODD_NAME;
  }

  lemma ThemeAllowed()
    ensures AllowedFile(THEME)
  {
  }

  lemma SmallArchive(codec: Codec)
    ensures |WriteArchive(codec, OddFiles(), [])| <= MAX_ARCHIVE_BYTES && TotalData(OddFiles()) == 0
  {
    hide LocalHeader, CentralHeader, EndRecord;
    var files, first := OddFiles(), [Plain(THEME, [])];
    assert files[..1] == first && first[..0] == [];
    assert |LocalPart(codec, [])| == 0 && |CentralPart(codec, [])| == 0 && TotalData([]) == 0;
    assert |LocalPart(codec, first)| == 40 && |CentralPart(codec, first)| == 56 && TotalData(first) == 0;
    ArchiveSizes(codec, files, []);
  }
}
