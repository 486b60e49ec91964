/**
 * The KTX parser object: a request, the reader it was handed, a stack of the readers it has
 * opened, the current reader and the byte order of the file being read. Each method updates
 * these fields as the decoder does, and each is proved to compute what the matching function of
 * the decoding modules states.
 */
module KTXParserImpl {
  import opened Wrappers
  import opened Bytes
  import opened KTXErrors
  import opened BoundedReader
  import opened KTX1Types
  import opened HeaderCodec
  import opened KeyValueCodec
  import opened SubImageLayout
  import opened KTX1Parse

  /** `done` in front of the list a read produced; a failed read stays the failure it was. */
  function Prepend<T>(done: seq<T>, r: Result<Read<seq<T>>, Error>): Result<Read<seq<T>>, Error> {
    match r
    case Ok(rest) => Ok(Read(done + rest.value, rest.next))
    case Err(e) => Err(e)
  }

  /** The value of a read, without the cursor it left. */
  function ValueOf<T>(r: Result<Read<T>, Error>): Result<T, Error> {
    match r
    case Ok(x) => Ok(x.value)
    case Err(e) => Err(e)
  }

  /** What `execute` hands back of a parse: the file, or the failure. */
  function FileOf(r: Result<Parsed, Error>): Result<KTX1File, Error> {
    match r
    case Ok(p) => Ok(p.file)
    case Err(e) => Err(e)
  }

  /**
   * The names of the windows `executeKTX1` opens, and closes again, from the initial reader `c`:
   * the header window always, the key/value window once the header has been read, its size
   * accepted and offset 64 reached.
   */
  function WindowsOpenedKTX1(data: seq<byte>, c: Cursor, request: ParseRequest): seq<string> {
    match ReadHeader(data, c.SubReader("header", HEADER_SIZE))
    case Err(_) => ["header"]
    case Ok(h) =>
      if h.bytesOfKeyValueData > request.keyValueRegionLimit || c.SeekTo(KEY_VALUE_OFFSET).Err? then ["header"]
      else ["header", "keyValueData"]
  }

  /** The windows `execute` opens: none unless the identifier is the KTX 1 one. */
  function WindowsOpened(data: seq<byte>, request: ParseRequest): seq<string> {
    if |data| >= 12 && data[..12] == KTX1_IDENTIFIER then
      WindowsOpenedKTX1(data, InitialReader(data).(pos := 12), request)
    else []
  }

  /**
   * The bytes between two NULs of a record payload, found by the decoder's two scanning loops;
   * the same split as `SplitRecord`.
   */
  method SplitPayload(p: seq<byte>) returns (r: Result<Record, Error>)
    ensures r == SplitRecord(p)
  {
    var dataStart := 0;
    var index := 0;
    while index < |p|
      invariant 0 <= index <= |p|
      invariant forall i | 0 <= i < index :: p[i] != 0
    {
      if p[index] == 0 {
        dataStart := index + 1;
        break;
      }
      index := index + 1;
    }
    assert dataStart == match IndexOfNul(p, 0) case Some(i) => i + 1 case None => 0;

    var dataEnd := |p| - 1;
    index := dataStart;
    while index < |p|
      invariant dataStart <= index <= |p|
      invariant forall i | dataStart <= i < index :: p[i] != 0
    {
      if p[index] == 0 {
        dataEnd := index;
        break;
      }
      index := index + 1;
    }
    assert dataEnd == match IndexOfNul(p, dataStart) case Some(j) => j case None => |p| - 1;

    if dataStart - 1 < 0 {
      return Err(StringIndexOutOfBounds(0, dataStart - 1));
    }
    if dataEnd - dataStart < 0 {
      return Err(StringIndexOutOfBounds(dataStart, dataEnd - dataStart));
    }
    return Ok((p[..dataStart - 1], p[dataStart .. dataEnd]));
  }

  /**
   * The three inner loops of one mip level of `readSubImageOffsetsKTX1`: one entry per array
   * element, face and depth slice, all at `offset` (where the reader stands while they run) and
   * with the level's imageSize, in file order.
   */
  method AddLevelSubImages(subImages: seq<SubImage>, offset: nat, imageSize: uint32, mipMapLevel: nat,
                           arrayElementCount: int, faceCount: int, pixelDepth: int)
    returns (r: seq<SubImage>)
    ensures r == subImages + Elements(offset, imageSize, mipMapLevel, Trips(faceCount), Trips(pixelDepth), Trips(arrayElementCount))
  {
    r := subImages;
    var arrayElement := 0;
    while arrayElement < arrayElementCount
      invariant 0 <= arrayElement <= Trips(arrayElementCount)
      invariant r == subImages + Elements(offset, imageSize, mipMapLevel, Trips(faceCount), Trips(pixelDepth), arrayElement)
    {
      r := AddElementSubImages(r, offset, imageSize, mipMapLevel, arrayElement, faceCount, pixelDepth);
      AppendTwice(subImages, Elements(offset, imageSize, mipMapLevel, Trips(faceCount), Trips(pixelDepth), arrayElement),
        Faces(offset, imageSize, mipMapLevel, arrayElement, Trips(pixelDepth), Trips(faceCount)));
      arrayElement := arrayElement + 1;
    }
  }

  /** The middle loop, for one array element: its faces, each with its depth slices. */
  method AddElementSubImages(subImages: seq<SubImage>, offset: nat, imageSize: uint32, mipMapLevel: nat,
                             arrayElement: nat, faceCount: int, pixelDepth: int)
    returns (r: seq<SubImage>)
    ensures r == subImages + Faces(offset, imageSize, mipMapLevel, arrayElement, Trips(pixelDepth), Trips(faceCount))
  {
    r := subImages;
    var faceIndex := 0;
    while faceIndex < faceCount
      invariant 0 <= faceIndex <= Trips(faceCount)
      invariant r == subImages + Faces(offset, imageSize, mipMapLevel, arrayElement, Trips(pixelDepth), faceIndex)
    {
      r := AddFaceSubImages(r, offset, imageSize, mipMapLevel, arrayElement, faceIndex, pixelDepth);
      AppendTwice(subImages, Faces(offset, imageSize, mipMapLevel, arrayElement, Trips(pixelDepth), faceIndex),
        Slices(offset, imageSize, mipMapLevel, arrayElement, faceIndex, Trips(pixelDepth)));
      faceIndex := faceIndex + 1;
    }
  }

  /** The innermost loop, for one face: its depth slices. */
  method AddFaceSubImages(subImages: seq<SubImage>, offset: nat, imageSize: uint32, mipMapLevel: nat,
                          arrayElement: nat, faceIndex: nat, pixelDepth: int)
    returns (r: seq<SubImage>)
    ensures r == subImages + Slices(offset, imageSize, mipMapLevel, arrayElement, faceIndex, Trips(pixelDepth))
  {
    r := subImages;
    var zSlice := 0;
    while zSlice < pixelDepth
      invariant 0 <= zSlice <= Trips(pixelDepth)
      invariant r == subImages + Slices(offset, imageSize, mipMapLevel, arrayElement, faceIndex, zSlice)
    {
      r := r + [SubImage(offset, imageSize, mipMapLevel, arrayElement, faceIndex, zSlice)];
      zSlice := zSlice + 1;
    }
  }

  /** Two cursors over the same window, wherever each stands in it. */
  predicate SameWindow(a: Cursor, b: Cursor) {
    a.name == b.name && a.start == b.start && a.size == b.size
  }

  /** Appending twice is appending the two joined. */
  lemma AppendTwice<T>(a: seq<T>, b: seq<T>, c: seq<T>)
    ensures a + b + c == a + (b + c)
  {
  }

  class KTXParser {
    const request: ParseRequest
    const data: seq<byte>
    /** The reader handed to the constructor, over the whole source. */
    const readerInitial: Cursor
    /** The readers below the current one, the most recently pushed first. */
    var readerStack: seq<Cursor>
    var reader: Cursor
    var isBigEndian: bool
    var closed: bool
    /** The names of the readers closed so far, in order. */
    ghost var closedReaders: seq<string>

    constructor (inRequest: ParseRequest, source: seq<byte>)
      ensures request == inRequest && data == source
      ensures readerInitial == InitialReader(source) && reader == readerInitial
      ensures readerStack == [] && !closed && closedReaders == []
    {
      request := inRequest;
      data := source;
      readerInitial := InitialReader(source);
      readerStack := [];
      reader := InitialReader(source);
      isBigEndian := false;
      closed := false;
      closedReaders := [];
    }

    /** `startReader`: push the current reader and read through a bounded child window. */
    method StartReader(name: string, size: nat)
      modifies this`reader, this`readerStack
      ensures readerStack == [old(reader)] + old(readerStack)
      ensures reader == old(reader).SubReader(name, size)
    {
      readerStack := [reader] + readerStack;
      reader := reader.SubReader(name, size);
    }

    /** `popReader`: close the current reader and return to the one below it. */
    method PopReader()
      requires |readerStack| > 0
      modifies this`reader, this`readerStack, this`closedReaders
      ensures closedReaders == old(closedReaders) + [old(reader).name]
      ensures reader == old(readerStack)[0] && readerStack == old(readerStack)[1..]
    {
      closedReaders := closedReaders + [reader.name];
      reader := readerStack[0];
      readerStack := readerStack[1..];
    }

    /** `readU32`: a 32-bit field in the byte order of the file. */
    method ReadU32(name: string) returns (r: Result<uint32, Error>)
      modifies this`reader
      ensures r == ValueOf(old(reader).ReadU32(data, isBigEndian))
      ensures reader == if r.Ok? then old(reader).ReadU32(data, isBigEndian).value.next else old(reader)
    {
      var field := reader.ReadU32(data, isBigEndian);
      if field.Err? {
        return Err(field.error);
      }
      reader := field.value.next;
      return Ok(field.value.value);
    }

    /**
     * One field of the header block, read with `readU32`: `spec` is the outcome of the whole
     * header read, which the `n` fields still to read, after the fields `done`, decide.
     */
    method ReadField(name: string, ghost spec: Result<Read<seq<uint32>>, Error>, ghost n: nat, ghost done: seq<uint32>)
      returns (r: Result<uint32, Error>)
      requires n > 0
      requires spec == FieldsAfter(data, reader, isBigEndian, n, done)
      modifies this`reader
      ensures r.Err? ==> spec == Err(r.error)
      ensures r.Ok? ==> spec == FieldsAfter(data, reader, isBigEndian, n - 1, done + [r.value])
      ensures reader.name == old(reader).name
    {
      r := ReadU32(name);
    }

    /** The body of the header block: the marker, which fixes the byte order, then the twelve fields. */
    method ReadHeaderKTX1() returns (r: Result<Header, Error>)
      modifies this`reader, this`isBigEndian
      ensures r == ReadHeader(data, old(reader))
      ensures r.Ok? ==> isBigEndian == r.value.isBigEndian
      ensures reader.name == old(reader).name
    {
      var endianness := reader.ReadBytes(data, 4);
      if endianness.Err? {
        return Err(endianness.error);
      }
      reader := endianness.value.next;
      if endianness.value.value == ENDIAN_BIG {
        isBigEndian := true;
      } else if endianness.value.value == ENDIAN_LITTLE {
        isBigEndian := false;
      } else {
        return Err(UnrecognizedEndianness(endianness.value.value));
      }
      FieldsAfterRead(data, reader, isBigEndian, HEADER_FIELD_COUNT, []);
      PrependNothing(ReadFields(data, reader, isBigEndian, HEADER_FIELD_COUNT));
      var fields :- ReadHeaderFields();
      return Ok(HeaderOfFields(isBigEndian, fields));
    }

    /**
     * The twelve `readU32` calls of the header block, in file order; the header is built from
     * them with the face count raised to at least one (`HeaderOfFields`).
     */
    method ReadHeaderFields() returns (r: Result<seq<uint32>, Error>)
      modifies this`reader
      ensures r == ValueOf(FieldsAfter(data, old(reader), old(isBigEndian), HEADER_FIELD_COUNT, []))
      ensures r.Ok? ==> |r.value| == HEADER_FIELD_COUNT
      ensures reader.name == old(reader).name
    {
      ghost var spec := FieldsAfter(data, reader, isBigEndian, HEADER_FIELD_COUNT, []);
      ghost var n := HEADER_FIELD_COUNT;
      var fields: seq<uint32> := [];
      var glType :- ReadField("glType", spec, n, fields);
      fields, n := fields + [glType], n - 1;
      var glTypeSize :- ReadField("glTypeSize", spec, n, fields);
      fields, n := fields + [glTypeSize], n - 1;
      var glFormat :- ReadField("glFormat", spec, n, fields);
      fields, n := fields + [glFormat], n - 1;
      var glInternalFormat :- ReadField("glInternalFormat", spec, n, fields);
      fields, n := fields + [glInternalFormat], n - 1;
      var glBaseInternalFormat :- ReadField("glBaseInternalFormat", spec, n, fields);
      fields, n := fields + [glBaseInternalFormat], n - 1;
      var pixelWidth :- ReadField("pixelWidth", spec, n, fields);
      fields, n := fields + [pixelWidth], n - 1;
      var pixelHeight :- ReadField("pixelHeight", spec, n, fields);
      fields, n := fields + [pixelHeight], n - 1;
      var pixelDepth :- ReadField("pixelDepth", spec, n, fields);
      fields, n := fields + [pixelDepth], n - 1;
      var numberOfArrayElements :- ReadField("numberOfArrayElements", spec, n, fields);
      fields, n := fields + [numberOfArrayElements], n - 1;
      var numberOfFaces :- ReadField("numberOfFaces", spec, n, fields);
      fields, n := fields + [numberOfFaces], n - 1;
      var numberOfMipmapLevels :- ReadField("numberOfMipmapLevels", spec, n, fields);
      fields, n := fields + [numberOfMipmapLevels], n - 1;
      var bytesOfKeyValueData :- ReadField("bytesOfKeyValueData", spec, n, fields);
      fields, n := fields + [bytesOfKeyValueData], n - 1;
      return Ok(fields);
    }

    /** The body of the key/value block: records while 4 bytes remain, then alignment to 4 bytes. */
    method ReadKeyValueWindow() returns (r: Result<(KeyValueMap, nat), Error>)
      modifies this`reader
      ensures r == KeyValueWindow(data, old(reader), isBigEndian, request.keyValueRegionLimit)
      ensures reader.name == old(reader).name
    {
      var keyValues: KeyValueMap := map[];
      ghost var records: seq<Record> := [];
      ghost var limit := request.keyValueRegionLimit;
      ghost var spec := RecordsAfter(data, reader, isBigEndian, limit, records);
      RecordsAfterRead(data, reader, isBigEndian, limit, records);
      PrependNothing(Records(data, reader, isBigEndian, limit));
      while true
        invariant spec == RecordsAfter(data, reader, isBigEndian, limit, records)
        invariant keyValues == InsertAll(map[], records)
        invariant reader.name == old(reader).name
        decreases reader.size - reader.pos
      {
        var remaining := reader.BytesRemaining().GetOr(0);
        if remaining < 4 {
          break;
        }
        var size :- ReadU32("keyAndValueByteSize");
        if size > request.keyValueRegionLimit {
          return Err(LimitExceeded(reader.Absolute(), size, KeyValueDatumLimit));
        }
        if ToInt32(size) < 0 {
          return Err(NegativeArraySize(ToInt32(size)));
        }
        var payload := reader.ReadBytes(data, size);
        if payload.Err? {
          return Err(payload.error);
        }
        reader := payload.value.next;
        var record :- SplitPayload(payload.value.value);
        keyValues := keyValues[record.0 := record.1];
        InsertAllSnoc(map[], records, record);
        records := records + [record];
      }
      var aligned := reader.Align(4);
      if aligned.Err? {
        return Err(aligned.error);
      }
      reader := aligned.value;
      return Ok((keyValues, reader.Absolute()));
    }

    /** `readKeyValueDataKTX1`: the key/value block in its own window, which is closed on every path. */
    method ReadKeyValueDataKTX1(header: Header) returns (r: Result<(KeyValueMap, nat), Error>)
      modifies this`reader, this`readerStack, this`closedReaders
      ensures r == KeyValueRegion(data, old(reader), isBigEndian, request.keyValueRegionLimit, header.bytesOfKeyValueData)
      ensures reader == old(reader) && readerStack == old(readerStack)
      ensures closedReaders == old(closedReaders) + ["keyValueData"]
    {
      StartReader("keyValueData", header.bytesOfKeyValueData);
      r := ReadKeyValueWindow();
      PopReader();
    }

    /** `readSubImageOffsetsCubeMapKTX1`: a cube map without array elements has no list. */
    method ReadSubImageOffsetsCubeMapKTX1(header: Header) returns (r: seq<SubImage>)
      ensures r == []
    {
      return [];
    }

    /**
     * One iteration of the level loop of `readSubImageOffsetsKTX1`: the level's imageSize, its
     * entries at the offset just after that field, then the skip over its image data and the
     * alignment to 4 bytes. `level` is the level as `ReadLevel` reads it.
     */
    method ReadMipLevel(subImages: seq<SubImage>, mipMapLevel: nat, arrayElementCount: int, faceCount: int, pixelDepth: int)
      returns (r: Result<seq<SubImage>, Error>, ghost level: Level)
      modifies this`reader
      ensures r.Err? ==> ReadLevel(data, old(reader), isBigEndian) == Err(r.error)
      ensures r.Ok? ==> ReadLevel(data, old(reader), isBigEndian) == Ok(Read(level, reader))
      ensures r.Ok? ==> r.value == subImages + Elements(level.offset, level.imageSize, mipMapLevel, Trips(faceCount),
                                                         Trips(pixelDepth), Trips(arrayElementCount))
      ensures SameWindow(reader, old(reader))
    {
      level := Level(0, 0);
      var imageSize :- ReadU32("imageSize");
      level := Level(imageSize, reader.Absolute());
      var images := AddLevelSubImages(subImages, reader.Absolute(), imageSize, mipMapLevel,
                                      arrayElementCount, faceCount, pixelDepth);
      var skipped := reader.Skip(imageSize);
      if skipped.Err? {
        return Err(skipped.error), level;
      }
      reader := skipped.value;
      var aligned := reader.Align(4);
      if aligned.Err? {
        return Err(aligned.error), level;
      }
      reader := aligned.value;
      return Ok(images), level;
    }

    /**
     * `readSubImageOffsetsKTX1`: a cube map without array elements has no entries; otherwise the
     * counts are raised to at least one and truncated to 32-bit signed integers, and the level loop
     * runs.
     */
    method ReadSubImageOffsetsKTX1(header: Header) returns (r: Result<seq<SubImage>, Error>)
      modifies this`reader
      ensures r == ValueOf(SubImageOffsets(data, old(reader), header.(isBigEndian := old(isBigEndian))))
      ensures r.Ok? ==> reader == SubImageOffsets(data, old(reader), header.(isBigEndian := old(isBigEndian))).value.next
      ensures SameWindow(reader, old(reader))
    {
      if header.numberOfFaces == 6 && header.numberOfArrayElements == 0 {
        var subImages := ReadSubImageOffsetsCubeMapKTX1(header);
        return Ok(subImages);
      }

      var mipMapCount := ToInt32(MinUnsigned(header.numberOfMipmapLevels, 1));
      var arrayElementCount := ToInt32(MinUnsigned(header.numberOfArrayElements, 1));
      var faceCount := ToInt32(MinUnsigned(header.numberOfFaces, 1));
      var pixelDepth := ToInt32(MinUnsigned(header.pixelDepth, 1));
      ghost var h := header.(isBigEndian := isBigEndian);
      assert LoopCount(h.numberOfMipmapLevels) == Trips(mipMapCount);
      assert LoopCount(h.numberOfArrayElements) == Trips(arrayElementCount);
      assert LoopCount(h.numberOfFaces) == Trips(faceCount) && LoopCount(h.pixelDepth) == Trips(pixelDepth);
      r := ReadMipLevels(mipMapCount, arrayElementCount, faceCount, pixelDepth);
    }

    /**
     * One trip of the level loop: `ReadMipLevel`, seen as one step of the accumulator walk over
     * the `remaining` levels after `levels`.
     */
    method WalkMipLevel(subImages: seq<SubImage>, mipMapLevel: nat, arrayElementCount: int, faceCount: int, pixelDepth: int,
                        ghost remaining: nat, ghost levels: seq<Level>)
      returns (r: Result<seq<SubImage>, Error>, ghost level: Level)
      requires remaining > 0 && |levels| == mipMapLevel
      requires subImages == Expand(levels, 0, Trips(arrayElementCount), Trips(faceCount), Trips(pixelDepth))
      modifies this`reader
      ensures r.Err? ==> LevelsAfter(data, old(reader), isBigEndian, remaining, levels) == Err(r.error)
      ensures r.Ok? ==> (LevelsAfter(data, old(reader), isBigEndian, remaining, levels)
                         == LevelsAfter(data, reader, isBigEndian, remaining - 1, levels + [level]))
      ensures r.Ok? ==> r.value == Expand(levels + [level], 0, Trips(arrayElementCount), Trips(faceCount), Trips(pixelDepth))
      ensures SameWindow(reader, old(reader))
    {
      ghost var before := reader;
      r, level := ReadMipLevel(subImages, mipMapLevel, arrayElementCount, faceCount, pixelDepth);
      if r.Err? {
        LevelsAfterFails(data, before, isBigEndian, remaining, levels, r.error);
      } else {
        LevelsAfterStep(data, before, isBigEndian, remaining, levels, level, reader);
        ExpandSnoc(levels, level, Trips(arrayElementCount), Trips(faceCount), Trips(pixelDepth));
      }
    }

    /**
     * The level loop of `readSubImageOffsetsKTX1`: `mipMapCount` levels, each read with
     * `ReadMipLevel`; the first failure ends the walk.
     */
    method ReadMipLevels(mipMapCount: int, arrayElementCount: int, faceCount: int, pixelDepth: int)
      returns (r: Result<seq<SubImage>, Error>)
      modifies this`reader
      ensures r == ValueOf(WalkOf(ReadLevels(data, old(reader), old(isBigEndian), Trips(mipMapCount)),
                                  Trips(arrayElementCount), Trips(faceCount), Trips(pixelDepth)))
      ensures r.Ok? ==> reader == ReadLevels(data, old(reader), old(isBigEndian), Trips(mipMapCount)).value.next
      ensures SameWindow(reader, old(reader))
    {
      ghost var big := isBigEndian;
      ghost var initial := reader;
      ghost var levelCount := Trips(mipMapCount);
      ghost var elements := Trips(arrayElementCount);
      ghost var faces := Trips(faceCount);
      ghost var depth := Trips(pixelDepth);
      ghost var levels: seq<Level> := [];
      ghost var remaining := levelCount;
      ghost var spec := LevelsAfter(data, reader, big, remaining, levels);
      ghost var walk := ReadLevels(data, initial, big, levelCount);
      assert walk == ReadLevels(data, old(reader), old(isBigEndian), Trips(mipMapCount));
      assert spec == walk by {
        LevelsAfterRead(data, reader, big, remaining, levels);
        PrependNothing(ReadLevels(data, reader, big, remaining));
      }
      var subImages: seq<SubImage> := [];
      var mipMapLevel := 0;
      while mipMapLevel < mipMapCount
        invariant 0 <= mipMapLevel <= levelCount && |levels| == mipMapLevel
        invariant remaining == levelCount - mipMapLevel
        invariant spec == LevelsAfter(data, reader, big, remaining, levels)
        invariant subImages == Expand(levels, 0, elements, faces, depth)
        invariant SameWindow(reader, initial)
      {
        var step, level := WalkMipLevel(subImages, mipMapLevel, arrayElementCount, faceCount, pixelDepth, remaining, levels);
        if step.Err? {
          assert WalkOf(walk, elements, faces, depth) == Err(step.error);
          return Err(step.error);
        }
        subImages := step.value;
        assert spec == LevelsAfter(data, reader, big, remaining - 1, levels + [level]);
        levels, remaining := levels + [level], remaining - 1;
        mipMapLevel := mipMapLevel + 1;
      }
      assert remaining == 0 && walk == Ok(Read(levels, reader));
      assert WalkOf(walk, elements, faces, depth) == Ok(Read(subImages, reader));
      return Ok(subImages);
    }

    /**
     * The header block of `executeKTX1`: the 52-byte header window is opened, read and, whether
     * the read succeeds or fails, closed again.
     */
    method ReadHeaderBlock() returns (r: Result<Header, Error>)
      modifies this`reader, this`readerStack, this`closedReaders, this`isBigEndian
      ensures r == ReadHeader(data, old(reader).SubReader("header", HEADER_SIZE))
      ensures r.Ok? ==> isBigEndian == r.value.isBigEndian
      ensures reader == old(reader) && readerStack == old(readerStack)
      ensures closedReaders == old(closedReaders) + ["header"]
    {
      StartReader("header", HEADER_SIZE);
      r := ReadHeaderKTX1();
      PopReader();
    }

    /**
     * `executeKTX1` from just after the identifier: the header in a 52-byte window, the
     * region-size check, the key/value region at offset 64, then the sub-image walk from where
     * the region ended; only a complete parse closes the parser.
     */
    method ExecuteKTX1() returns (r: Result<KTX1File, Error>)
      modifies this`reader, this`readerStack, this`closedReaders, this`isBigEndian, this`closed
      ensures r == FileOf(ParseKTX1(data, old(reader), request))
      ensures r.Ok? ==> reader == ParseKTX1(data, old(reader), request).value.reader
      ensures r.Ok? ==> isBigEndian == r.value.header.isBigEndian
      ensures readerStack == old(readerStack) && SameWindow(reader, old(reader))
      ensures closedReaders == old(closedReaders) + WindowsOpenedKTX1(data, old(reader), request)
      ensures closed == (old(closed) || r.Ok?)
    {
      var header := ReadHeaderBlock();
      if header.Err? {
        return Err(header.error);
      }
      var h := header.value;

      var size := h.bytesOfKeyValueData;
      var limit := request.keyValueRegionLimit;
      if size > limit {
        return Err(LimitExceeded(reader.Absolute(), size, KeyValueRegionSizeLimit));
      }

      var atRegion := reader.SeekTo(KEY_VALUE_OFFSET);
      if atRegion.Err? {
        return Err(atRegion.error);
      }
      reader := atRegion.value;
      var region := ReadKeyValueDataKTX1(h);
      if region.Err? {
        return Err(region.error);
      }
      var keyValues := region.value.0;
      var dataOffset := region.value.1;

      var atData := reader.SeekTo(dataOffset);
      if atData.Err? {
        return Err(atData.error);
      }
      reader := atData.value;
      assert h.(isBigEndian := isBigEndian) == h;
      var images := ReadSubImageOffsetsKTX1(h);
      if images.Err? {
        return Err(images.error);
      }

      closed := true;
      return Ok(KTX1File(h, keyValues, dataOffset));
    }

    /** `executeKTX2`: KTX 2 files are recognised but not supported. */
    method ExecuteKTX2() returns (r: Result<KTX1File, Error>)
      ensures r == Err(UnsupportedFormat)
    {
      return Err(UnsupportedFormat);
    }

    /**
     * `execute`: a closed parser refuses; an open one starts again from the initial reader at
     * offset 0, reads the identifier and dispatches on it.
     */
    method Execute() returns (r: Result<KTX1File, Error>)
      requires readerInitial == InitialReader(data)
      modifies this
      ensures old(closed) ==> r == Err(InvalidState) && unchanged(this)
      ensures !old(closed) ==> r == FileOf(Parse(data, request))
      ensures !old(closed) && r.Ok? ==> reader == Parse(data, request).value.reader
      ensures !old(closed) ==> readerStack == [] && closedReaders == old(closedReaders) + WindowsOpened(data, request)
      ensures !old(closed) ==> SameWindow(reader, readerInitial)
      ensures closed == (old(closed) || r.Ok?)
    {
      if closed {
        return Err(InvalidState);
      }
      readerStack := [];
      reader := readerInitial;

      var start := reader.SeekTo(0);
      if start.Err? {
        return Err(start.error);
      }
      reader := start.value;
      var identifier := reader.ReadBytes(data, 12);
      if identifier.Err? {
        return Err(identifier.error);
      }
      reader := identifier.value.next;

      if identifier.value.value == KTX2_IDENTIFIER {
        r := ExecuteKTX2();
        return;
      }
      if identifier.value.value == KTX1_IDENTIFIER {
        r := ExecuteKTX1();
        return;
      }
      return Err(UnrecognizedFormat(identifier.value.value));
    }

    /** `close`: the first call closes the parser and its current reader; later calls do nothing. */
    method Close()
      modifies this`closed, this`closedReaders
      ensures closed
      ensures closedReaders == if old(closed) then old(closedReaders) else old(closedReaders) + [reader.name]
    {
      if !closed {
        closed := true;
        closedReaders := closedReaders + [reader.name];
      }
    }
  }

  /** The header fields read from `c` in accumulator form: `acc` holds the fields read so far. */
  function FieldsAfter(data: seq<byte>, c: Cursor, big: bool, n: nat, acc: seq<uint32>): Result<Read<seq<uint32>>, Error>
    decreases n
  {
    if n == 0 then Ok(Read(acc, c))
    else
      var first :- c.ReadU32(data, big);
      FieldsAfter(data, first.next, big, n - 1, acc + [first.value])
  }

  /** The accumulator form reads what `ReadFields` reads, after the fields already held. */
  lemma {:induction false} FieldsAfterRead(data: seq<byte>, c: Cursor, big: bool, n: nat, acc: seq<uint32>)
    ensures FieldsAfter(data, c, big, n, acc) == Prepend(acc, ReadFields(data, c, big, n))
    decreases n
  {
    if n == 0 {
      assert acc + [] == acc;
    } else if c.ReadU32(data, big).Ok? {
      var first := c.ReadU32(data, big).value;
      FieldsAfterRead(data, first.next, big, n - 1, acc + [first.value]);
      PrependTwice(acc, [first.value], ReadFields(data, first.next, big, n - 1));
    }
  }

  /** Prepending nothing leaves a read as it was. */
  lemma PrependNothing<T>(r: Result<Read<seq<T>>, Error>)
    ensures Prepend([], r) == r
  {
    if r.Ok? {
      assert [] + r.value.value == r.value.value;
    }
  }

  /** Prepending twice is prepending the two lists joined. */
  lemma PrependTwice<T>(done: seq<T>, more: seq<T>, r: Result<Read<seq<T>>, Error>)
    ensures Prepend(done, Prepend(more, r)) == Prepend(done + more, r)
  {
    if r.Ok? {
      assert done + (more + r.value.value) == done + more + r.value.value;
    }
  }

  /** The records of a window in accumulator form: `acc` holds the records read so far. */
  function RecordsAfter(data: seq<byte>, c: Cursor, big: bool, limit: nat, acc: seq<Record>): Result<Read<seq<Record>>, Error>
    decreases c.size - c.pos
  {
    if c.BytesRemaining().GetOr(0) < 4 then Ok(Read(acc, c))
    else
      var size :- c.ReadU32(data, big);
      if size.value > limit then Err(LimitExceeded(size.next.Absolute(), size.value, KeyValueDatumLimit))
      else if ToInt32(size.value) < 0 then Err(NegativeArraySize(ToInt32(size.value)))
      else
        var payload :- size.next.ReadBytes(data, size.value);
        var record :- SplitRecord(payload.value);
        RecordsAfter(data, payload.next, big, limit, acc + [record])
  }

  /** The accumulator form reads what `Records` reads, after the records already held. */
  lemma {:induction false} RecordsAfterRead(data: seq<byte>, c: Cursor, big: bool, limit: nat, acc: seq<Record>)
    ensures RecordsAfter(data, c, big, limit, acc) == Prepend(acc, Records(data, c, big, limit))
    decreases c.size - c.pos
  {
    if c.BytesRemaining().GetOr(0) < 4 {
      assert acc + [] == acc;
    } else if c.ReadU32(data, big).Ok? {
      var size := c.ReadU32(data, big).value;
      if size.value <= limit && ToInt32(size.value) >= 0 && size.next.ReadBytes(data, size.value).Ok? {
        var payload := size.next.ReadBytes(data, size.value).value;
        if SplitRecord(payload.value).Ok? {
          var record := SplitRecord(payload.value).value;
          RecordsAfterRead(data, payload.next, big, limit, acc + [record]);
          PrependTwice(acc, [record], Records(data, payload.next, big, limit));
        }
      }
    }
  }

  /** The level walk in accumulator form: `acc` holds the levels read so far. */
  function LevelsAfter(data: seq<byte>, c: Cursor, big: bool, count: nat, acc: seq<Level>): Result<Read<seq<Level>>, Error>
    decreases count
  {
    if count == 0 then Ok(Read(acc, c))
    else
      var level :- ReadLevel(data, c, big);
      LevelsAfter(data, level.next, big, count - 1, acc + [level.value])
  }

  /** The sub-image list the levels read make, and the reader after them. */
  function WalkOf(levels: Result<Read<seq<Level>>, Error>, elements: nat, faces: nat, depth: nat): Result<Read<seq<SubImage>>, Error> {
    match levels
    case Err(e) => Err(e)
    case Ok(l) => Ok(Read(Expand(l.value, 0, elements, faces, depth), l.next))
  }

  /** One level of the accumulator walk. */
  lemma LevelsAfterStep(data: seq<byte>, c: Cursor, big: bool, count: nat, acc: seq<Level>, l: Level, next: Cursor)
    requires count > 0 && ReadLevel(data, c, big) == Ok(Read(l, next))
    ensures LevelsAfter(data, c, big, count, acc) == LevelsAfter(data, next, big, count - 1, acc + [l])
  {
  }

  /** A level that fails to read ends the accumulator walk with its error. */
  lemma LevelsAfterFails(data: seq<byte>, c: Cursor, big: bool, count: nat, acc: seq<Level>, e: Error)
    requires count > 0 && ReadLevel(data, c, big) == Err(e)
    ensures LevelsAfter(data, c, big, count, acc) == Err(e)
  {
  }

  /** The accumulator form walks what `ReadLevels` walks, after the levels already held. */
  lemma {:induction false} LevelsAfterRead(data: seq<byte>, c: Cursor, big: bool, count: nat, acc: seq<Level>)
    ensures LevelsAfter(data, c, big, count, acc) == Prepend(acc, ReadLevels(data, c, big, count))
    decreases count
  {
    if count == 0 {
      assert acc + [] == acc;
    } else if ReadLevel(data, c, big).Ok? {
      var level := ReadLevel(data, c, big).value;
      LevelsAfterRead(data, level.next, big, count - 1, acc + [level.value]);
      PrependTwice(acc, [level.value], ReadLevels(data, level.next, big, count - 1));
    }
  }

  /** Inserting one more record is one more map update. */
  lemma {:induction false} InsertAllSnoc(m: KeyValueMap, records: seq<Record>, record: Record)
    ensures InsertAll(m, records + [record]) == InsertAll(m, records)[record.0 := record.1]
    decreases |records|
  {
    if records != [] {
      assert (records + [record])[1..] == records[1..] + [record];
      InsertAllSnoc(m[records[0].0 := records[0].1], records[1..], record);
    }
  }

  /** One more level adds that level's images after those of the earlier levels. */
  lemma {:induction false} ExpandSnoc(levels: seq<Level>, l: Level, elements: nat, faces: nat, depth: nat)
    ensures Expand(levels + [l], 0, elements, faces, depth)
            == Expand(levels, 0, elements, faces, depth) + Elements(l.offset, l.imageSize, |levels|, faces, depth, elements)
  {
    ExpandSnocFrom(levels, l, 0, elements, faces, depth);
  }

  lemma {:induction false} ExpandSnocFrom(levels: seq<Level>, l: Level, first: nat, elements: nat, faces: nat, depth: nat)
    ensures Expand(levels + [l], first, elements, faces, depth)
            == Expand(levels, first, elements, faces, depth)
               + Elements(l.offset, l.imageSize, first + |levels|, faces, depth, elements)
    decreases |levels|
  {
    if levels == [] {
      assert [l][1..] == [];
    } else {
      assert (levels + [l])[1..] == levels[1..] + [l];
      ExpandSnocFrom(levels[1..], l, first + 1, elements, faces, depth);
    }
  }

  /** Every successful parse opens, and closes, the header window and then the key/value window. */
  lemma ParseClosesBothWindows(data: seq<byte>, request: ParseRequest)
    requires Parse(data, request).Ok?
    ensures WindowsOpened(data, request) == ["header", "keyValueData"]
  {
  }

  /** A source whose identifier is not KTX 1 never opens a window. */
  lemma OtherFormatsOpenNoWindow(data: seq<byte>, request: ParseRequest)
    requires |data| < 12 || data[..12] != KTX1_IDENTIFIER
    ensures WindowsOpened(data, request) == []
  {
  }
}

/** How a client sees the parser's life cycle. */
module KTXParserUsage {
  import opened Wrappers
  import opened Bytes
  import opened KTXErrors
  import opened KTX1Types
  import opened KTX1Parse
  import opened KTXParserImpl

  /** A second `execute` after a success is refused; after a failure it fails the same way again. */
  method ExecuteTwice(request: ParseRequest, source: seq<byte>) returns (first: Result<KTX1File, Error>, second: Result<KTX1File, Error>)
    ensures first == FileOf(Parse(source, request))
    ensures second == if first.Ok? then Err(InvalidState) else first
  {
    var parser := new KTXParser(request, source);
    first := parser.Execute();
    second := parser.Execute();
  }

  /** A closed parser refuses to execute. */
  method ExecuteAfterClose(request: ParseRequest, source: seq<byte>) returns (r: Result<KTX1File, Error>)
    ensures r == Err(InvalidState)
  {
    var parser := new KTXParser(request, source);
    parser.Close();
    r := parser.Execute();
  }

  /**
   * `execute` then `close`: after a success the parser is already closed, so `close` closes no
   * reader; after a failure it closes the initial reader, which is current again.
   */
  method ExecuteThenClose(request: ParseRequest, source: seq<byte>) returns (r: Result<KTX1File, Error>, ghost logged: seq<string>)
    ensures r == FileOf(Parse(source, request))
    ensures logged == WindowsOpened(source, request) + (if r.Ok? then [] else [InitialReader(source).name])
  {
    var parser := new KTXParser(request, source);
    r := parser.Execute();
    parser.Close();
    logged := parser.closedReaders;
  }
}
