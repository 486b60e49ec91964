/**
 * A whole parse as a function of the source bytes: the file identifier decides the format, and a
 * KTX 1 file is read as header, region-size check, key/value region, and sub-image walk.
 */
module KTX1Parse {
  import opened Wrappers
  import opened Bytes
  import opened KTXErrors
  import opened BoundedReader
  import opened KTX1Types
  import opened HeaderCodec
  import opened KeyValueCodec
  import opened SubImageLayout

  /** The reader the parser is handed: the whole source, positioned at its start. */
  function InitialReader(data: seq<byte>): Cursor {
    Cursor("initial", 0, |data|, 0)
  }

  /**
   * `executeKTX1` from the initial reader `c`, positioned just after the identifier: the header
   * in its own 52-byte window, the region-size check against the region limit (reported at the
   * initial reader's position), the key/value region at offset 64, then the sub-image walk from
   * where the region ended.
   */
  function ParseKTX1(data: seq<byte>, c: Cursor, request: ParseRequest): Result<Parsed, Error> {
    var header :- ReadHeader(data, c.SubReader("header", HEADER_SIZE));
    if header.bytesOfKeyValueData > request.keyValueRegionLimit then
      Err(LimitExceeded(c.Absolute(), header.bytesOfKeyValueData, KeyValueRegionSizeLimit))
    else
      var atRegion :- c.SeekTo(KEY_VALUE_OFFSET);
      var region :- KeyValueRegion(data, atRegion, header.isBigEndian, request.keyValueRegionLimit,
                                   header.bytesOfKeyValueData);
      var atData :- atRegion.SeekTo(region.1);
      var images :- SubImageOffsets(data, atData, header);
      Ok(Parsed(KTX1File(header, region.0, region.1), images.value, images.next))
  }

  /** `execute` on an open parser: read the 12-byte identifier from offset 0 and dispatch on it. */
  function Parse(data: seq<byte>, request: ParseRequest): Result<Parsed, Error> {
    var start :- InitialReader(data).SeekTo(0);
    var identifier :- start.ReadBytes(data, 12);
    if identifier.value == KTX2_IDENTIFIER then Err(UnsupportedFormat)
    else if identifier.value == KTX1_IDENTIFIER then ParseKTX1(data, identifier.next, request)
    else Err(UnrecognizedFormat(identifier.value))
  }

  /** The header window of a KTX 1 file: the 52 bytes after the identifier. */
  function HeaderWindow(): Cursor {
    Cursor("header", 12, HEADER_SIZE, 0)
  }
}

/** What a parse guarantees. */
module KTX1ParseLemmas {
  import opened Wrappers
  import opened Bytes
  import opened KTXErrors
  import opened BoundedReader
  import opened KTX1Types
  import opened HeaderCodec
  import opened HeaderCodecLemmas
  import opened KeyValueCodec
  import opened KeyValueCodecLemmas
  import opened SubImageLayout
  import opened SubImageLayoutLemmas
  import opened KTX1Parse

  /**
   * The identifier decides: a source shorter than 12 bytes fails at offset 0, the KTX 2
   * identifier is unsupported, any other identifier but KTX 1's is unrecognised, and the KTX 1
   * identifier leads to the KTX 1 path just after it.
   */
  lemma ParseDispatch(data: seq<byte>, request: ParseRequest)
    ensures |data| < 12 ==> Parse(data, request) == Err(OutOfBounds(0, 12))
    ensures |data| >= 12 && data[..12] == KTX2_IDENTIFIER ==> Parse(data, request) == Err(UnsupportedFormat)
    ensures |data| >= 12 && data[..12] != KTX1_IDENTIFIER && data[..12] != KTX2_IDENTIFIER ==>
      Parse(data, request) == Err(UnrecognizedFormat(data[..12]))
    ensures |data| >= 12 && data[..12] == KTX1_IDENTIFIER ==>
      Parse(data, request) == ParseKTX1(data, InitialReader(data).(pos := 12), request)
  {
  }

  /** The header is decided by the 52 bytes after the identifier alone. */
  lemma HeaderDecidedByPrefix(data: seq<byte>, other: seq<byte>)
    requires |data| >= KEY_VALUE_OFFSET && |other| >= KEY_VALUE_OFFSET
    requires data[..KEY_VALUE_OFFSET] == other[..KEY_VALUE_OFFSET]
    ensures ReadHeader(data, HeaderWindow()) == ReadHeader(other, HeaderWindow())
  {
    assert data[12 .. 16] == other[12 .. 16] by {
      assert data[12 .. 16] == data[..KEY_VALUE_OFFSET][12 .. 16];
      assert other[12 .. 16] == other[..KEY_VALUE_OFFSET][12 .. 16];
    }
    assert data[16 .. 64] == other[16 .. 64] by {
      assert data[16 .. 64] == data[..KEY_VALUE_OFFSET][16 .. 64];
      assert other[16 .. 64] == other[..KEY_VALUE_OFFSET][16 .. 64];
    }
    ReadHeaderAt(data, HeaderWindow());
    ReadHeaderAt(other, HeaderWindow());
  }

  /**
   * A KTX 1 file whose header declares more key/value bytes than the region limit fails with the
   * region limit, at offset 12, before anything after the header is read.
   */
  lemma RegionLimitChecked(data: seq<byte>, request: ParseRequest)
    requires |data| >= 12 && data[..12] == KTX1_IDENTIFIER
    requires ReadHeader(data, HeaderWindow()).Ok?
    requires ReadHeader(data, HeaderWindow()).value.bytesOfKeyValueData > request.keyValueRegionLimit
    ensures Parse(data, request)
      == Err(LimitExceeded(12, ReadHeader(data, HeaderWindow()).value.bytesOfKeyValueData, KeyValueRegionSizeLimit))
  {
    ParseDispatch(data, request);
  }

  /** A KTX 1 file cut off inside its header fails, and names the first 4-byte unit missing. */
  lemma TruncatedHeader(data: seq<byte>, request: ParseRequest)
    requires 16 <= |data| < KEY_VALUE_OFFSET && data[..12] == KTX1_IDENTIFIER
    requires data[12 .. 16] == ENDIAN_BIG || data[12 .. 16] == ENDIAN_LITTLE
    ensures Parse(data, request) == Err(OutOfBounds(12 + 4 * ((|data| - 12) / 4), 4))
  {
    ParseDispatch(data, request);
    ReadHeaderAt(data, HeaderWindow());
  }

  /** A KTX 1 file whose endianness marker is neither known pattern fails naming the marker. */
  lemma UnknownEndianness(data: seq<byte>, request: ParseRequest)
    requires 16 <= |data| && data[..12] == KTX1_IDENTIFIER
    requires data[12 .. 16] != ENDIAN_BIG && data[12 .. 16] != ENDIAN_LITTLE
    ensures Parse(data, request) == Err(UnrecognizedEndianness(data[12 .. 16]))
  {
    ParseDispatch(data, request);
    ReadHeaderAt(data, HeaderWindow());
  }

  /**
   * The stages of a successful parse: the KTX 1 identifier, the header in its window, the region
   * size within the region limit, the key/value region at offset 64, and the sub-image walk
   * from the image data offset.
   */
  lemma ParseSteps(data: seq<byte>, request: ParseRequest)
    requires Parse(data, request).Ok?
    ensures |data| >= KEY_VALUE_OFFSET && data[..12] == KTX1_IDENTIFIER
    ensures ReadHeader(data, HeaderWindow()).Ok?
    ensures var h := ReadHeader(data, HeaderWindow()).value;
      && h.bytesOfKeyValueData <= request.keyValueRegionLimit
      && KeyValueRegion(data, InitialReader(data).(pos := KEY_VALUE_OFFSET), h.isBigEndian,
                        request.keyValueRegionLimit, h.bytesOfKeyValueData).Ok?
    ensures var h := ReadHeader(data, HeaderWindow()).value;
      var region := KeyValueRegion(data, InitialReader(data).(pos := KEY_VALUE_OFFSET), h.isBigEndian,
                                   request.keyValueRegionLimit, h.bytesOfKeyValueData).value;
      var p := Parse(data, request).value;
      && p.file == KTX1File(h, region.0, region.1)
      && SubImageOffsets(data, InitialReader(data).(pos := region.1), h) == Ok(Read(p.subImages, p.reader))
  {
    ParseDispatch(data, request);
    ReadHeaderAt(data, HeaderWindow());
    var c := InitialReader(data).(pos := 12);
    assert c.SubReader("header", HEADER_SIZE) == HeaderWindow();
    var h := ReadHeader(data, HeaderWindow()).value;
    var atRegion := InitialReader(data).(pos := KEY_VALUE_OFFSET);
    assert c.SeekTo(KEY_VALUE_OFFSET) == Ok(atRegion);
    var region := KeyValueRegion(data, atRegion, h.isBigEndian, request.keyValueRegionLimit, h.bytesOfKeyValueData).value;
    assert atRegion.SeekTo(region.1).value == InitialReader(data).(pos := region.1);
  }

  /**
   * A successful parse read a KTX 1 file: the header is the one in bytes 12..64, its face count
   * is at least one, its region size is within the region limit, and the image data offset is
   * 4-aligned, at most 3 bytes before the end of the declared region and no later than that end
   * (exactly at it when the region size is a multiple of 4).
   */
  lemma ParsedFile(data: seq<byte>, request: ParseRequest)
    requires Parse(data, request).Ok?
    ensures |data| >= KEY_VALUE_OFFSET && data[..12] == KTX1_IDENTIFIER
    ensures Parse(data, request).value.file.header == ReadHeader(data, HeaderWindow()).value
    ensures Parse(data, request).value.file.header.isBigEndian <==> data[12 .. 16] == ENDIAN_BIG
    ensures Parse(data, request).value.file.header.numberOfFaces >= 1
    ensures Parse(data, request).value.file.header.bytesOfKeyValueData <= request.keyValueRegionLimit
    ensures var f := Parse(data, request).value.file;
      && f.dataOffset % 4 == 0
      && KEY_VALUE_OFFSET + f.header.bytesOfKeyValueData - 3 <= f.dataOffset
      && f.dataOffset <= KEY_VALUE_OFFSET + f.header.bytesOfKeyValueData
      && (f.header.bytesOfKeyValueData % 4 == 0 ==> f.dataOffset == KEY_VALUE_OFFSET + f.header.bytesOfKeyValueData)
  {
    ParseSteps(data, request);
    var header := ReadHeader(data, HeaderWindow()).value;
    var atRegion := InitialReader(data).(pos := KEY_VALUE_OFFSET);
    var region := KeyValueRegion(data, atRegion, header.isBigEndian, request.keyValueRegionLimit,
                                 header.bytesOfKeyValueData).value;
    var f := Parse(data, request).value.file;
    assert f.header == header && f.dataOffset == region.1;
    HeaderWindowFacts(data);
    assert atRegion.Absolute() == KEY_VALUE_OFFSET;
    assert atRegion.Absolute() % 4 == 0;
    assert KeyValueRegion(data, atRegion, header.isBigEndian, request.keyValueRegionLimit, header.bytesOfKeyValueData).Ok?;
    DataOffsetInRegion(data, atRegion, header.isBigEndian, request.keyValueRegionLimit, header.bytesOfKeyValueData);
  }

  /** A little-endian header whose twelve fields are all zero. */
  const ZERO_HEADER: Header := Header(false, 0, 0, 0, 0, 0, 0, 0, 0, 0, 0, 0, 0)

  /** The smallest KTX 1 file: identifier, an all-zero header, no key/value data, one empty level. */
  function MinimalFile(): (data: seq<byte>)
    ensures |data| == 68
  {
    KTX1_IDENTIFIER + EncodeHeader(ZERO_HEADER) + [0, 0, 0, 0]
  }

  /**
   * The smallest file parses under any request: the face count is raised to one, there are no
   * key/value pairs, the image data starts at offset 64, and the single sub-image of level 0 has
   * size 0 and starts at 68, just after its imageSize; the reader ends at the end of the source.
   */
  lemma MinimalFileParses(request: ParseRequest)
    ensures Parse(MinimalFile(), request)
         == Ok(Parsed(KTX1File(ZERO_HEADER.(numberOfFaces := 1), map[], KEY_VALUE_OFFSET),
                      [SubImage(68, 0, 0, 0, 0, 0)],
                      InitialReader(MinimalFile()).(pos := 68)))
  {
    var data := MinimalFile();
    assert data[..12] == KTX1_IDENTIFIER;
    assert data[12 .. 12 + HEADER_SIZE] == EncodeHeader(ZERO_HEADER);
    assert data[64 .. 68] == [0, 0, 0, 0];
    MinimalLayoutParses(data, request);
  }

  /** Any 68 bytes laid out as the smallest file parse as it does. */
  lemma MinimalLayoutParses(data: seq<byte>, request: ParseRequest)
    requires |data| == 68 && data[..12] == KTX1_IDENTIFIER
    requires data[12 .. 12 + HEADER_SIZE] == EncodeHeader(ZERO_HEADER) && data[64 .. 68] == [0, 0, 0, 0]
    ensures Parse(data, request)
         == Ok(Parsed(KTX1File(ZERO_HEADER.(numberOfFaces := 1), map[], KEY_VALUE_OFFSET),
                      [SubImage(68, 0, 0, 0, 0, 0)],
                      InitialReader(data).(pos := 68)))
  {
    ParseDispatch(data, request);
    var c := InitialReader(data).(pos := 12);
    assert c.SubReader("header", HEADER_SIZE) == HeaderWindow();
    ReadEncodedHeader(data, HeaderWindow(), ZERO_HEADER);
    var atRegion := InitialReader(data).(pos := KEY_VALUE_OFFSET);
    assert c.SeekTo(KEY_VALUE_OFFSET) == Ok(atRegion);
    EmptyRegion(data, atRegion, request.keyValueRegionLimit);
    assert atRegion.SeekTo(KEY_VALUE_OFFSET) == Ok(atRegion);
    EmptyLevel(data, atRegion);
  }

  /** A region of size 0 at offset 64 holds no pairs, and the image data starts right there. */
  lemma EmptyRegion(data: seq<byte>, atRegion: Cursor, limit: nat)
    requires atRegion == InitialReader(data).(pos := KEY_VALUE_OFFSET) && |data| >= KEY_VALUE_OFFSET
    ensures KeyValueRegion(data, atRegion, false, limit, 0) == Ok((map[], KEY_VALUE_OFFSET))
  {
    var window := atRegion.SubReader("keyValueData", 0);
    assert Records(data, window, false, limit) == Ok(Read([], window));
    assert RoundUp(0, 4) == 0;
  }

  /** One level of size 0 at offset 64 of a 68-byte source: a single sub-image, just after the size. */
  lemma EmptyLevel(data: seq<byte>, atRegion: Cursor)
    requires atRegion == InitialReader(data).(pos := KEY_VALUE_OFFSET)
    requires |data| == 68 && data[64 .. 68] == [0, 0, 0, 0]
    ensures SubImageOffsets(data, atRegion, ZERO_HEADER.(numberOfFaces := 1))
         == Ok(Read([SubImage(68, 0, 0, 0, 0, 0)], atRegion.(pos := 68)))
  {
    var h := ZERO_HEADER.(numberOfFaces := 1);
    assert h.numberOfMipmapLevels == 0 && h.numberOfArrayElements == 0 && h.pixelDepth == 0 && h.numberOfFaces == 1;
    assert LoopCount(0) == 1;
    assert LoopCount(1) == 1;
    EmptyLevelWalk(data, atRegion);
    SingleLevelOffsets(data, atRegion, h, Level(0, 68), atRegion.(pos := 68));
  }

  /** When every loop count is one and the walk reads one level, that level gives the only sub-image. */
  lemma SingleLevelOffsets(data: seq<byte>, c: Cursor, h: Header, l: Level, next: Cursor)
    requires !IsUnlaidCubeMap(h) && LoopCount(h.numberOfMipmapLevels) == 1
    requires LoopCount(h.numberOfArrayElements) == 1 && LoopCount(h.numberOfFaces) == 1 && LoopCount(h.pixelDepth) == 1
    requires ReadLevels(data, c, h.isBigEndian, 1) == Ok(Read([l], next))
    ensures SubImageOffsets(data, c, h) == Ok(Read([SubImage(l.offset, l.imageSize, 0, 0, 0, 0)], next))
  {
    var image := SubImage(l.offset, l.imageSize, 0, 0, 0, 0);
    assert Slices(l.offset, l.imageSize, 0, 0, 0, 1) == [] + [image];
    assert Faces(l.offset, l.imageSize, 0, 0, 1, 1) == [] + [image];
    assert Elements(l.offset, l.imageSize, 0, 1, 1, 1) == [] + [image];
    ExpandSingle(l, 1, 1, 1);
    var levels := ReadLevels(data, c, h.isBigEndian, LoopCount(h.numberOfMipmapLevels));
    assert levels == Ok(Read([l], next));
    assert Expand(levels.value.value, 0, LoopCount(h.numberOfArrayElements), LoopCount(h.numberOfFaces),
                  LoopCount(h.pixelDepth)) == [image];
  }

  /** The sub-images of a single level are that level's elements, numbered level 0. */
  lemma ExpandSingle(l: Level, elements: nat, faces: nat, depth: nat)
    ensures Expand([l], 0, elements, faces, depth) == Elements(l.offset, l.imageSize, 0, faces, depth, elements)
  {
    assert [l][1..] == [];
  }

  /** The level walk of that source: one level of size 0 whose image starts at 68, ending at 68. */
  lemma EmptyLevelWalk(data: seq<byte>, atRegion: Cursor)
    requires atRegion == InitialReader(data).(pos := KEY_VALUE_OFFSET)
    requires |data| == 68 && data[64 .. 68] == [0, 0, 0, 0]
    ensures ReadLevels(data, atRegion, false, 1) == Ok(Read([Level(0, 68)], atRegion.(pos := 68)))
  {
    assert DecodeU32([0, 0, 0, 0], false) == 0;
    assert RoundUp(68, 4) == 68;
    var level := ReadLevel(data, atRegion, false);
    assert level == Ok(Read(Level(0, 68), atRegion.(pos := 68)));
    assert ReadLevels(data, atRegion.(pos := 68), false, 0) == Ok(Read([], atRegion.(pos := 68)));
    assert [level.value.value] + [] == [Level(0, 68)];
  }

  /** A header read from its window takes its byte order from the marker, and has at least one face. */
  lemma HeaderWindowFacts(data: seq<byte>)
    requires ReadHeader(data, HeaderWindow()).Ok?
    ensures |data| >= 16
    ensures ReadHeader(data, HeaderWindow()).value.isBigEndian <==> data[12 .. 16] == ENDIAN_BIG
    ensures ReadHeader(data, HeaderWindow()).value.numberOfFaces >= 1
  {
    ReadHeaderAt(data, HeaderWindow());
  }

  /** The sub-image list of a successful parse is laid out from the image data offset to the end of the source. */
  lemma ParsedSubImages(data: seq<byte>, request: ParseRequest)
    requires Parse(data, request).Ok?
    ensures var p := Parse(data, request).value;
      LaidOut(data, p.subImages, p.file.header, p.file.dataOffset, |data|)
  {
    ParseSteps(data, request);
    ParsedFile(data, request);
    var header := ReadHeader(data, HeaderWindow()).value;
    var region := KeyValueRegion(data, InitialReader(data).(pos := KEY_VALUE_OFFSET), header.isBigEndian,
                                 request.keyValueRegionLimit, header.bytesOfKeyValueData).value;
    var atData := InitialReader(data).(pos := region.1);
    var p := Parse(data, request).value;
    assert p.file.header == header && p.file.dataOffset == region.1;
    assert p.subImages == SubImageOffsets(data, atData, header).value.value;
    SubImageOffsetsLaidOut(data, atData, header);
  }
}
