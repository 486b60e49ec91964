# jaion KTX decoder and subrange channel, in Dafny

This project models two parts of the jaion library:

- **The KTX 1 container decoder (`KTXParser`).** It reads from an immutable byte sequence, in this order:
  - the 12-byte file identifier, rejecting KTX 2;
  - the 52-byte header in its own bounded window: an endianness marker, then twelve 32-bit fields in the byte order the marker announces;
  - a check of the declared key/value region size against the request's region limit;
  - the length-prefixed, NUL-delimited key/value records at offset 64, inside their own bounded window;
  - the sub-image walk over the mip levels, array elements, faces and depth slices.
- **The read-only window channel (`KTXSubrangeByteChannel`).** It exposes the bytes `[base, base + limit)` of a delegate channel. It clamps each read by lowering the destination buffer's limit, translates positions by the base, and refuses writes and truncation.

## How the model is organised

**Pure decoding functions.** Modules `HeaderCodec`, `KeyValueCodec`, `SubImageLayout` and `KTX1Parse` state the decoder as pure functions of the bytes. `KTX1Parse.Parse` composes them into one function for the whole parse. The lemma modules beside them prove what a parse guarantees:
- dispatch on the identifier;
- the header round trip in both byte orders;
- the region and record limits;
- key and value splitting, and last-write-wins insertion;
- the data offset;
- the full sub-image layout: count, order, ranges, 4-byte alignment, each entry after its imageSize field, and each level chained to the previous one by skip-and-align.

**The parser class.** `KTXParserImpl.KTXParser` is the imperative decoder, a class with these fields:
- `reader`;
- `readerStack`, a sequence with its top at index 0;
- `isBigEndian`;
- `closed`;
- `closedReaders`, a ghost log of the reader names closed, in order.

Its methods follow the source's methods and loops:
- the marker read and the twelve `readU32` calls;
- the `while (true)` record loop and its two NUL-scanning loops;
- the level loop and its three nested entry loops.

Each method is proved to compute what the pure function states. The reader-stack discipline is part of the contracts: each window is pushed, then popped on success and on failure, and the parent reader comes back unchanged.

**The bounded reader.** The source reads through a bounded reader from a library that is not part of this model. `BoundedReader.Cursor` states the operations the decoder uses over a window `[start, start + size)`:
- `readBytes`, `readU32LE`/`readU32BE`, `skip`, `align`, `seekTo`, `bytesRemaining`, `offsetCurrentAbsolute` and `createSubReaderAtBounded`;
- a read fails when it would cross the window or the end of the source.

**The channel.** `SubrangeChannel` models the window channel as the class `SubrangeByteChannel` over two in-memory stand-ins for JDK classes:
- a `FileChannel` with fixed contents, a mutable position and an open flag;
- a heap `ByteBuffer`: an array with a position and a limit.

The pure function `SubrangeRead` states one read. `SubrangeChannelLemmas` proves four things:
- a read never delivers a byte past the window's end;
- a read from a delegate standing before the window's start delivers bytes from before the window, because nothing clamps the lower end;
- the buffer cells outside the transferred range keep their contents;
- the limit is left lowered.

It also restates the channel test's three worked reads over "AABBCCDD".

## Where the model follows the code rather than the format's description

- **Record check.** Each record's declared size is checked against the request's region limit, not its datum limit (`KTXParser.java:380`). The failure still names the datum limit. So `KTX1Types.ParseRequest.keyValueDatumLimit` is never consulted.
- **Record padding.** No per-record value padding is skipped. The cursor is aligned to 4 bytes once, after the record loop (`KTXParser.java:416`).
- **Value without a second NUL.** In a record payload without a second NUL, the value stops one byte before the end of the payload, because `dataEnd` defaults to `length - 1` (`KTXParser.java:399`). A payload with no NUL before its last byte fails with a negative string length.
- **`minUnsigned`.** Despite its name, it returns the unsigned maximum (`KTXParser.java:355-363`). So zero face, level, element and depth counts are raised to one.
- **Casts to `int`.** Counts of 2^31 or more turn negative under the casts at `KTXParser.java:310-316`, so their loops do not run. A record size of 2^31 or more fails as a negative array size (`KTXParser.java:387`).
- **Sub-image list.** The list is computed and then discarded (`KTXParser.java:292-296`). Its reads, skips and alignments can still make the parse fail, so it is modelled. `KTX1Types.Parsed` keeps it so that its layout can be stated.
- **Cube maps.** A cube map without array elements gets an empty list and nothing is read (`KTXParser.java:305-307`). The face count the check sees has already been raised to at least one.
- **Failed `execute`.** It does not set `closed`, so `execute` can be run again. It restarts from the initial reader with an empty stack.
- **Region-limit failure offset.** The region-limit failure is reported at the offset of the reader just after the identifier (12), because the header window has already been closed.
- **`close` after `execute`.** A successful `execute` has already set `closed` (`KTXParser.java:295`). So a later `close` fails its `compareAndSet` and closes no reader (`KTXParser.java:455-462`); the reader is left to the returned file. After a failed `execute`, the `finally` blocks (`KTXParser.java:270-272`, `418-420`) have made the initial reader current again, and `close` closes that one.
- **No lower clamp in the window channel.** A read is clamped only at the window's end (`KTXSubrangeByteChannel.java:45-69`). The constructor does not move the delegate (`KTXSubrangeByteChannel.java:32-43`). A window over a delegate that stands before its base therefore reports a negative position and reads bytes from before the window. The channel test positions the window before its first read (`KTXSubrangeByteChannelTest.java:78`).

## Model

| member | source | states |
|---|---|---|
| Bytes.ToInt32 | com.io7m.jaion.vanilla/src/main/java/com/io7m/jaion/vanilla/internal/KTXParser.java:309-316 | the Java `(int)` cast: a signed 32-bit value congruent to its argument modulo 2^32 |
| Bytes.DecodeEncodeU32 | com.io7m.jaion.vanilla/src/main/java/com/io7m/jaion/vanilla/internal/KTXParser.java:439-447 | decoding the encoding of a 32-bit value gives it back, in either byte order |
| Bytes.EncodeDecodeU32 | com.io7m.jaion.vanilla/src/main/java/com/io7m/jaion/vanilla/internal/KTXParser.java:439-447 | four bytes are determined by their decoded value: encoding it gives them back in either byte order |
| Bytes.DecodeU32Reversed | com.io7m.jaion.vanilla/src/main/java/com/io7m/jaion/vanilla/internal/KTXParser.java:443-446 | little-endian decoding is big-endian decoding of the reversed bytes |
| BoundedReader.RoundUp | com.io7m.jaion.vanilla/src/main/java/com/io7m/jaion/vanilla/internal/KTXParser.java:416 | the position `align` moves to is the least multiple not below the position, less than one unit further on |
| BoundedReader.AlignIsAbsolute | com.io7m.jaion.vanilla/src/main/java/com/io7m/jaion/vanilla/internal/KTXParser.java:343 | on a window starting at a multiple of 4, aligning relative to the window is aligning the absolute offset |
| KTX1Types.MinUnsigned | com.io7m.jaion.vanilla/src/main/java/com/io7m/jaion/vanilla/internal/KTXParser.java:355-363 | the result is one of the arguments and at least both: the unsigned maximum |
| HeaderCodec.Endianness | com.io7m.jaion.vanilla/src/main/java/com/io7m/jaion/vanilla/internal/KTXParser.java:219-228 | big-endian exactly for `04 03 02 01`, little-endian exactly for `01 02 03 04`, otherwise the unrecognised-endianness failure naming the marker |
| HeaderCodec.ReadFields | com.io7m.jaion.vanilla/src/main/java/com/io7m/jaion/vanilla/internal/KTXParser.java:230-253 | a successful read of `n` fields yields exactly `n` values |
| HeaderCodecLemmas.ReadFieldsAt | com.io7m.jaion.vanilla/src/main/java/com/io7m/jaion/vanilla/internal/KTXParser.java:230-253 | the fields are the values of the next 4n source bytes when the source holds them, otherwise the failure at the first 4-byte unit missing |
| HeaderCodecLemmas.ReadFieldsHeld | com.io7m.jaion.vanilla/src/main/java/com/io7m/jaion/vanilla/internal/KTXParser.java:230-253 | fields the source holds in full are their bytes' values, and the cursor moves by 4n |
| HeaderCodecLemmas.ReadFieldsCut | com.io7m.jaion.vanilla/src/main/java/com/io7m/jaion/vanilla/internal/KTXParser.java:230-253 | fields the source cuts short fail at the first 4-byte unit it does not hold |
| HeaderCodecLemmas.ReadHeaderAt | com.io7m.jaion.vanilla/src/main/java/com/io7m/jaion/vanilla/internal/KTXParser.java:216-269 | the header window in closed form: each failure case with its offset and the decoded header otherwise |
| HeaderCodecLemmas.DecodeEncodeFields | com.io7m.jaion.vanilla/src/main/java/com/io7m/jaion/vanilla/internal/KTXParser.java:230-253 | decoding consecutive encodings gives back the values |
| HeaderCodecLemmas.ReadEncodedHeader | com.io7m.jaion.vanilla/src/main/java/com/io7m/jaion/vanilla/internal/KTXParser.java:216-269 | a window holding an encoded header decodes to it in either byte order, except that zero faces become one |
| HeaderCodecLemmas.ByteOrderIrrelevant | com.io7m.jaion.vanilla/src/main/java/com/io7m/jaion/vanilla/internal/KTXParser.java:219-269 | big- and little-endian encodings of the same fields decode to headers that differ only in the byte-order flag |
| KeyValueCodec.IndexOfNul | com.io7m.jaion.vanilla/src/main/java/com/io7m/jaion/vanilla/internal/KTXParser.java:390-406 | the first NUL at or after the start, with none before it; none exactly when no NUL follows |
| KeyValueCodec.SplitRecord | com.io7m.jaion.vanilla/src/main/java/com/io7m/jaion/vanilla/internal/KTXParser.java:390-411 | fails exactly when no byte before the last is NUL; otherwise the key is the bytes before the first NUL and the value runs to the next NUL or to one byte before the end |
| KeyValueCodecLemmas.SplitTerminatedRecord | com.io7m.jaion.vanilla/src/main/java/com/io7m/jaion/vanilla/internal/KTXParser.java:390-411 | key, NUL, value, NUL and any padding split back into the key and the value |
| KeyValueCodecLemmas.SplitUnterminatedRecord | com.io7m.jaion.vanilla/src/main/java/com/io7m/jaion/vanilla/internal/KTXParser.java:399-411 | without a second NUL the value loses the payload's last byte |
| KeyValueCodecLemmas.InsertAllKeys | com.io7m.jaion.vanilla/src/main/java/com/io7m/jaion/vanilla/internal/KTXParser.java:413 | the map's keys are the old keys plus exactly the records' keys |
| KeyValueCodecLemmas.InsertAllLastWins | com.io7m.jaion.vanilla/src/main/java/com/io7m/jaion/vanilla/internal/KTXParser.java:413 | a key maps to the value of its last record |
| KeyValueCodecLemmas.InsertAllUntouched | com.io7m.jaion.vanilla/src/main/java/com/io7m/jaion/vanilla/internal/KTXParser.java:413 | a key no record names keeps its value |
| KeyValueCodecLemmas.RecordsStayInWindow | com.io7m.jaion.vanilla/src/main/java/com/io7m/jaion/vanilla/internal/KTXParser.java:373-377 | the record loop ends in its own window, no earlier than it began, with fewer than 4 bytes left |
| KeyValueCodecLemmas.DataOffsetInRegion | com.io7m.jaion.vanilla/src/main/java/com/io7m/jaion/vanilla/internal/KTXParser.java:416-417 | the data offset is 4-aligned, within the last 3 bytes of the declared region or at its end, exactly at its end when its size is a multiple of 4 |
| KeyValueCodecLemmas.RecordOverLimit | com.io7m.jaion.vanilla/src/main/java/com/io7m/jaion/vanilla/internal/KTXParser.java:379-385 | a record size above the limit fails as exceeding the datum limit, just after the size field |
| KeyValueCodecLemmas.RecordPastWindow | com.io7m.jaion.vanilla/src/main/java/com/io7m/jaion/vanilla/internal/KTXParser.java:387-388 | a payload longer than what is left of the window fails as out of bounds |
| SubImageLayout.LoopCount | com.io7m.jaion.vanilla/src/main/java/com/io7m/jaion/vanilla/internal/KTXParser.java:309-318 | a count below 2^31 runs its loop max(count, 1) times; a larger one runs it never |
| SubImageLayout.Trips | com.io7m.jaion.vanilla/src/main/java/com/io7m/jaion/vanilla/internal/KTXParser.java:318 | a `for` loop up to `m` runs `m` times when `m` is positive and never otherwise |
| SubImageLayout.Slices | com.io7m.jaion.vanilla/src/main/java/com/io7m/jaion/vanilla/internal/KTXParser.java:328-339 | one entry per depth slice, numbered in order, all at the same offset and size |
| SubImageLayout.FacesLength | com.io7m.jaion.vanilla/src/main/java/com/io7m/jaion/vanilla/internal/KTXParser.java:327-340 | one element contributes faces times depth entries |
| SubImageLayout.FacesShape | com.io7m.jaion.vanilla/src/main/java/com/io7m/jaion/vanilla/internal/KTXParser.java:327-340 | one element's entries are in file order, share its offset, size, level and element, and have faces and slices in range |
| SubImageLayout.ElementsLength | com.io7m.jaion.vanilla/src/main/java/com/io7m/jaion/vanilla/internal/KTXParser.java:326-341 | one level contributes elements times faces times depth entries |
| SubImageLayout.ElementsShape | com.io7m.jaion.vanilla/src/main/java/com/io7m/jaion/vanilla/internal/KTXParser.java:326-341 | one level's entries share its offset, size and level, with every coordinate in range |
| SubImageLayout.ElementsOrdered | com.io7m.jaion.vanilla/src/main/java/com/io7m/jaion/vanilla/internal/KTXParser.java:326-341 | one level's entries are strictly in file order |
| SubImageLayoutLemmas.ReadLevelShape | com.io7m.jaion.vanilla/src/main/java/com/io7m/jaion/vanilla/internal/KTXParser.java:319-343 | a level's imageSize is the four bytes at the cursor, its images start after them and end inside the window, and the walk goes on at the next 4-byte boundary |
| SubImageLayoutLemmas.ReadLevelOffset | com.io7m.jaion.vanilla/src/main/java/com/io7m/jaion/vanilla/internal/KTXParser.java:319-331 | a level's images start right after its imageSize field |
| SubImageLayoutLemmas.ReadLevelAligned | com.io7m.jaion.vanilla/src/main/java/com/io7m/jaion/vanilla/internal/KTXParser.java:342-343 | from an aligned position a level starts aligned and leaves the cursor aligned in the same window |
| SubImageLayoutLemmas.ReadLevelNext | com.io7m.jaion.vanilla/src/main/java/com/io7m/jaion/vanilla/internal/KTXParser.java:342-343 | the next level begins at the 4-byte boundary after the images |
| SubImageLayoutLemmas.ReadLevelsStep | com.io7m.jaion.vanilla/src/main/java/com/io7m/jaion/vanilla/internal/KTXParser.java:318-344 | a successful walk is its first level followed by the walk from where that level left the cursor |
| SubImageLayoutLemmas.ReadLevelsCount | com.io7m.jaion.vanilla/src/main/java/com/io7m/jaion/vanilla/internal/KTXParser.java:318 | the walk reads exactly `count` levels, the first at the cursor |
| SubImageLayoutLemmas.ReadLevelsFields | com.io7m.jaion.vanilla/src/main/java/com/io7m/jaion/vanilla/internal/KTXParser.java:318-344 | every level lies inside the window and follows its own imageSize field |
| SubImageLayoutLemmas.ReadLevelsChained | com.io7m.jaion.vanilla/src/main/java/com/io7m/jaion/vanilla/internal/KTXParser.java:342-343 | each level starts four bytes after the 4-byte boundary following the previous level's images |
| SubImageLayoutLemmas.ReadLevelsAligned | com.io7m.jaion.vanilla/src/main/java/com/io7m/jaion/vanilla/internal/KTXParser.java:342-343 | on an aligned window and cursor every level starts at a multiple of 4 |
| SubImageLayoutLemmas.ExpandCount | com.io7m.jaion.vanilla/src/main/java/com/io7m/jaion/vanilla/internal/KTXParser.java:318-344 | one entry per (level, element, face, slice) |
| SubImageLayoutLemmas.ExpandFromLevels | com.io7m.jaion.vanilla/src/main/java/com/io7m/jaion/vanilla/internal/KTXParser.java:329-338 | every entry takes its offset and size from its own level |
| SubImageLayoutLemmas.ExpandRange | com.io7m.jaion.vanilla/src/main/java/com/io7m/jaion/vanilla/internal/KTXParser.java:318-341 | every coordinate lies within its loop's range |
| SubImageLayoutLemmas.ExpandOrdered | com.io7m.jaion.vanilla/src/main/java/com/io7m/jaion/vanilla/internal/KTXParser.java:318-341 | the entries are strictly ordered by level, element, face and slice |
| SubImageLayoutLemmas.FieldsFromLevels | com.io7m.jaion.vanilla/src/main/java/com/io7m/jaion/vanilla/internal/KTXParser.java:319-338 | entries made from the levels lie after their imageSize fields, as the levels do |
| SubImageLayoutLemmas.ChainedFromLevels | com.io7m.jaion.vanilla/src/main/java/com/io7m/jaion/vanilla/internal/KTXParser.java:342-343 | entries of consecutive levels are chained as the levels are |
| SubImageLayoutLemmas.AlignedFromLevels | com.io7m.jaion.vanilla/src/main/java/com/io7m/jaion/vanilla/internal/KTXParser.java:342-343 | entries are aligned when their levels are |
| SubImageLayoutLemmas.SubImageOffsetsLevels | com.io7m.jaion.vanilla/src/main/java/com/io7m/jaion/vanilla/internal/KTXParser.java:309-346 | outside the cube-map case the list is the expansion of the levels the walk reads |
| SubImageLayoutLemmas.SubImageOffsetsShape | com.io7m.jaion.vanilla/src/main/java/com/io7m/jaion/vanilla/internal/KTXParser.java:299-353 | a cube map without array elements gives nothing and reads nothing; otherwise levels times elements times faces times depth entries (each raised to one), strictly in file order, in range |
| SubImageLayoutLemmas.SubImageOffsetsFields | com.io7m.jaion.vanilla/src/main/java/com/io7m/jaion/vanilla/internal/KTXParser.java:318-343 | every entry lies in the window right after the imageSize field it carries; the first level follows the first field |
| SubImageLayoutLemmas.SubImageOffsetsChained | com.io7m.jaion.vanilla/src/main/java/com/io7m/jaion/vanilla/internal/KTXParser.java:342-343 | each level's entries start four bytes after the aligned end of the previous level's images |
| SubImageLayoutLemmas.SubImageOffsetsAligned | com.io7m.jaion.vanilla/src/main/java/com/io7m/jaion/vanilla/internal/KTXParser.java:342-343 | from an aligned start every entry is 4-aligned |
| SubImageLayoutLemmas.SubImageOffsetsLaidOut | com.io7m.jaion.vanilla/src/main/java/com/io7m/jaion/vanilla/internal/KTXParser.java:299-353 | the list satisfies the whole layout predicate `LaidOut` |
| KTX1ParseLemmas.ParseDispatch | com.io7m.jaion.vanilla/src/main/java/com/io7m/jaion/vanilla/internal/KTXParser.java:197-208 | a short source fails at offset 0; the KTX 2 identifier is unsupported; KTX 1 leads to the KTX 1 path after the identifier; anything else is unrecognised |
| KTX1ParseLemmas.HeaderDecidedByPrefix | com.io7m.jaion.vanilla/src/main/java/com/io7m/jaion/vanilla/internal/KTXParser.java:216-253 | the header depends only on the first 64 bytes |
| KTX1ParseLemmas.RegionLimitChecked | com.io7m.jaion.vanilla/src/main/java/com/io7m/jaion/vanilla/internal/KTXParser.java:274-282 | a declared region above the region limit fails with that limit at offset 12, whatever follows the header |
| KTX1ParseLemmas.TruncatedHeader | com.io7m.jaion.vanilla/src/main/java/com/io7m/jaion/vanilla/internal/KTXParser.java:230-253 | a file cut inside its header fails at the first missing 4-byte unit |
| KTX1ParseLemmas.UnknownEndianness | com.io7m.jaion.vanilla/src/main/java/com/io7m/jaion/vanilla/internal/KTXParser.java:219-228 | an unknown marker fails naming the marker |
| KTX1ParseLemmas.ParseSteps | com.io7m.jaion.vanilla/src/main/java/com/io7m/jaion/vanilla/internal/KTXParser.java:211-297 | a successful parse is the KTX 1 identifier, the header, the size check, the region at 64 and the walk from the data offset |
| KTX1ParseLemmas.ParsedFile | com.io7m.jaion.vanilla/src/main/java/com/io7m/jaion/vanilla/internal/KTXParser.java:255-290 | the returned header is the one in bytes 12..64, big-endian exactly for the big marker, with at least one face, a region within the limit, and a 4-aligned data offset at most 3 bytes before the region's end and no later than it (exactly at it when the region size is a multiple of 4) |
| KTX1ParseLemmas.HeaderWindowFacts | com.io7m.jaion.vanilla/src/main/java/com/io7m/jaion/vanilla/internal/KTXParser.java:219-269 | a decoded header takes its byte order from the marker and has at least one face |
| KTX1ParseLemmas.MinimalFile | com.io7m.jaion.vanilla/src/main/java/com/io7m/jaion/vanilla/internal/KTXParser.java:211-297 | the smallest KTX 1 file is 68 bytes: identifier, an all-zero little-endian header, one 4-byte imageSize of 0 |
| KTX1ParseLemmas.MinimalFileParses | com.io7m.jaion.vanilla/src/main/java/com/io7m/jaion/vanilla/internal/KTXParser.java:186-297 | the smallest file parses under any request: faces raised to one, no pairs, data at offset 64, one sub-image of size 0 at 68, the reader at the end |
| KTX1ParseLemmas.MinimalLayoutParses | com.io7m.jaion.vanilla/src/main/java/com/io7m/jaion/vanilla/internal/KTXParser.java:186-297 | any 68 bytes laid out as that file parse as it does |
| KTX1ParseLemmas.EmptyRegion | com.io7m.jaion.vanilla/src/main/java/com/io7m/jaion/vanilla/internal/KTXParser.java:365-421 | a key/value region of size 0 at offset 64 holds no pairs and the image data starts at 64 |
| KTX1ParseLemmas.EmptyLevel | com.io7m.jaion.vanilla/src/main/java/com/io7m/jaion/vanilla/internal/KTXParser.java:299-347 | one level of size 0 at offset 64 of a 68-byte source gives a single sub-image at 68 |
| KTX1ParseLemmas.EmptyLevelWalk | com.io7m.jaion.vanilla/src/main/java/com/io7m/jaion/vanilla/internal/KTXParser.java:318-344 | the level walk of that source reads one level of size 0 at 68 and stops at 68 |
| KTX1ParseLemmas.SingleLevelOffsets | com.io7m.jaion.vanilla/src/main/java/com/io7m/jaion/vanilla/internal/KTXParser.java:318-341 | when every loop count is one and one level is read, that level gives the only sub-image, numbered all zero |
| KTX1ParseLemmas.ExpandSingle | com.io7m.jaion.vanilla/src/main/java/com/io7m/jaion/vanilla/internal/KTXParser.java:326-341 | the sub-images of a single level are that level's elements at level 0 |
| KTX1ParseLemmas.ParsedSubImages | com.io7m.jaion.vanilla/src/main/java/com/io7m/jaion/vanilla/internal/KTXParser.java:290-293 | the sub-image list of a successful parse is laid out from the data offset to the end of the source |
| KTXParserImpl.SplitPayload | com.io7m.jaion.vanilla/src/main/java/com/io7m/jaion/vanilla/internal/KTXParser.java:390-411 | the two NUL-scanning loops and string bounds compute `SplitRecord` |
| KTXParserImpl.AddLevelSubImages | com.io7m.jaion.vanilla/src/main/java/com/io7m/jaion/vanilla/internal/KTXParser.java:326-341 | the three nested loops append one level's entries, in file order |
| KTXParserImpl.AddElementSubImages | com.io7m.jaion.vanilla/src/main/java/com/io7m/jaion/vanilla/internal/KTXParser.java:327-340 | the face loop appends one element's entries |
| KTXParserImpl.AddFaceSubImages | com.io7m.jaion.vanilla/src/main/java/com/io7m/jaion/vanilla/internal/KTXParser.java:328-339 | the slice loop appends one face's entries |
| KTXParserImpl.KTXParser.constructor | com.io7m.jaion.vanilla/src/main/java/com/io7m/jaion/vanilla/internal/KTXParser.java:87-101 | an open parser whose current reader is the initial one, with an empty stack |
| KTXParserImpl.KTXParser.StartReader | com.io7m.jaion.vanilla/src/main/java/com/io7m/jaion/vanilla/internal/KTXParser.java:430-437 | the current reader is pushed and a child window at its position becomes current |
| KTXParserImpl.KTXParser.PopReader | com.io7m.jaion.vanilla/src/main/java/com/io7m/jaion/vanilla/internal/KTXParser.java:423-428 | the current reader is closed and the top of the stack becomes current |
| KTXParserImpl.KTXParser.ReadU32 | com.io7m.jaion.vanilla/src/main/java/com/io7m/jaion/vanilla/internal/KTXParser.java:439-447 | a 32-bit field in the file's byte order; the reader advances only on success |
| KTXParserImpl.KTXParser.ReadField | com.io7m.jaion.vanilla/src/main/java/com/io7m/jaion/vanilla/internal/KTXParser.java:230-253 | one header field read keeps the outcome of the whole header read determined by the fields still to read |
| KTXParserImpl.KTXParser.ReadHeaderKTX1 | com.io7m.jaion.vanilla/src/main/java/com/io7m/jaion/vanilla/internal/KTXParser.java:219-269 | the marker and twelve fields compute `ReadHeader`, and fix the byte order |
| KTXParserImpl.KTXParser.ReadHeaderFields | com.io7m.jaion.vanilla/src/main/java/com/io7m/jaion/vanilla/internal/KTXParser.java:230-253 | the twelve `readU32` calls read the header fields in file order |
| KTXParserImpl.KTXParser.ReadKeyValueWindow | com.io7m.jaion.vanilla/src/main/java/com/io7m/jaion/vanilla/internal/KTXParser.java:373-417 | the record loop and final alignment compute `KeyValueWindow` |
| KTXParserImpl.KTXParser.ReadKeyValueDataKTX1 | com.io7m.jaion.vanilla/src/main/java/com/io7m/jaion/vanilla/internal/KTXParser.java:365-421 | computes `KeyValueRegion`, and on every path closes its window and restores reader and stack |
| KTXParserImpl.KTXParser.ReadSubImageOffsetsCubeMapKTX1 | com.io7m.jaion.vanilla/src/main/java/com/io7m/jaion/vanilla/internal/KTXParser.java:349-353 | the empty list |
| KTXParserImpl.KTXParser.ReadMipLevel | com.io7m.jaion.vanilla/src/main/java/com/io7m/jaion/vanilla/internal/KTXParser.java:319-343 | one level iteration reads what `ReadLevel` reads and appends that level's entries; the reader stays in the window it started in, whether the level reads or fails |
| KTXParserImpl.KTXParser.ReadSubImageOffsetsKTX1 | com.io7m.jaion.vanilla/src/main/java/com/io7m/jaion/vanilla/internal/KTXParser.java:299-347 | computes `SubImageOffsets` and leaves the reader where it ends; on every path the reader stays in the window it started in |
| KTXParserImpl.KTXParser.ReadMipLevels | com.io7m.jaion.vanilla/src/main/java/com/io7m/jaion/vanilla/internal/KTXParser.java:318-346 | the level loop computes the expansion of `ReadLevels`; on every path the reader stays in the window it started in |
| KTXParserImpl.KTXParser.WalkMipLevel | com.io7m.jaion.vanilla/src/main/java/com/io7m/jaion/vanilla/internal/KTXParser.java:318-344 | one trip of the level loop is one step of the accumulator walk: its failure is the walk's failure, its success advances the walk by the level read and appends that level's entries, and the window is kept |
| KTXParserImpl.LevelsAfterFails | com.io7m.jaion.vanilla/src/main/java/com/io7m/jaion/vanilla/internal/KTXParser.java:318-319 | a level that cannot be read ends the rest of the walk with its error |
| KTXParserImpl.KTXParser.ReadHeaderBlock | com.io7m.jaion.vanilla/src/main/java/com/io7m/jaion/vanilla/internal/KTXParser.java:216-272 | computes the header read in a 52-byte window, which is closed whether the read succeeds or fails |
| KTXParserImpl.KTXParser.ExecuteKTX1 | com.io7m.jaion.vanilla/src/main/java/com/io7m/jaion/vanilla/internal/KTXParser.java:211-297 | computes `ParseKTX1`, closes exactly the windows it opened, keeps the stack, leaves the reader in the window it started in on every path, and closes the parser only on success |
| KTXParserImpl.KTXParser.ExecuteKTX2 | com.io7m.jaion.vanilla/src/main/java/com/io7m/jaion/vanilla/internal/KTXParser.java:449-453 | always the unsupported-format failure |
| KTXParserImpl.KTXParser.Execute | com.io7m.jaion.vanilla/src/main/java/com/io7m/jaion/vanilla/internal/KTXParser.java:186-209 | a closed parser refuses and changes nothing; an open one computes `Parse`, ends with an empty stack, has the initial reader's window current again whether it succeeds or fails, and is closed exactly on success |
| KTXParserImpl.KTXParser.Close | com.io7m.jaion.vanilla/src/main/java/com/io7m/jaion/vanilla/internal/KTXParser.java:455-462 | the parser is closed; only the first call closes the current reader |
| KTXParserImpl.FieldsAfterRead | com.io7m.jaion.vanilla/src/main/java/com/io7m/jaion/vanilla/internal/KTXParser.java:230-253 | the field-by-field header read is the fields already read followed by `ReadFields` |
| KTXParserImpl.RecordsAfterRead | com.io7m.jaion.vanilla/src/main/java/com/io7m/jaion/vanilla/internal/KTXParser.java:373-414 | the record loop's progress is the records already read followed by `Records` |
| KTXParserImpl.LevelsAfterRead | com.io7m.jaion.vanilla/src/main/java/com/io7m/jaion/vanilla/internal/KTXParser.java:318-344 | the level loop's progress is the levels already read followed by `ReadLevels` |
| KTXParserImpl.InsertAllSnoc | com.io7m.jaion.vanilla/src/main/java/com/io7m/jaion/vanilla/internal/KTXParser.java:413 | one more `put` is one more map update |
| KTXParserImpl.ExpandSnoc | com.io7m.jaion.vanilla/src/main/java/com/io7m/jaion/vanilla/internal/KTXParser.java:318-341 | one more level appends that level's entries after the earlier ones |
| KTXParserImpl.ParseClosesBothWindows | com.io7m.jaion.vanilla/src/main/java/com/io7m/jaion/vanilla/internal/KTXParser.java:216-288 | a successful parse opens and closes the header window, then the key/value window |
| KTXParserImpl.OtherFormatsOpenNoWindow | com.io7m.jaion.vanilla/src/main/java/com/io7m/jaion/vanilla/internal/KTXParser.java:197-208 | a source without the KTX 1 identifier opens no window |
| KTXParserUsage.ExecuteTwice | com.io7m.jaion.vanilla/src/main/java/com/io7m/jaion/vanilla/internal/KTXParser.java:190-205 | a second `execute` after a success is refused; after a failure it fails the same way |
| KTXParserUsage.ExecuteAfterClose | com.io7m.jaion.vanilla/src/main/java/com/io7m/jaion/vanilla/internal/KTXParser.java:455-462 | `execute` after `close` is refused |
| KTXParserUsage.ExecuteThenClose | com.io7m.jaion.vanilla/src/main/java/com/io7m/jaion/vanilla/internal/KTXParser.java:455-462 | `close` after a successful `execute` closes no reader; after a failed one it closes the initial reader, and nothing else beyond the windows `execute` closed |
| SubrangeChannel.Min | com.io7m.jaion.vanilla/src/main/java/com/io7m/jaion/vanilla/internal/KTXSubrangeByteChannel.java:60-61 | the lesser of two values |
| SubrangeChannel.Narrow32 | com.io7m.jaion.vanilla/src/main/java/com/io7m/jaion/vanilla/internal/KTXSubrangeByteChannel.java:64-65 | the `(int)` cast: in range, congruent modulo 2^32, identity on values already in range |
| SubrangeChannel.LimitedTo | com.io7m.jaion.vanilla/src/main/java/com/io7m/jaion/vanilla/internal/KTXSubrangeByteChannel.java:67 | a limit below 0 or above the capacity is refused exactly; otherwise the limit is set, the contents kept and the position pulled back to it |
| SubrangeChannel.ReadCount | com.io7m.jaion.vanilla/src/main/java/com/io7m/jaion/vanilla/internal/KTXSubrangeByteChannel.java:68 | 0 without room, -1 at end of file, otherwise as many bytes as both room and file allow |
| SubrangeChannel.FileRead | com.io7m.jaion.vanilla/src/main/java/com/io7m/jaion/vanilla/internal/KTXSubrangeByteChannel.java:68 | a delegate read keeps the buffer valid, its limit and its capacity |
| SubrangeChannel.ClampedLimit | com.io7m.jaion.vanilla/src/main/java/com/io7m/jaion/vanilla/internal/KTXSubrangeByteChannel.java:56-65 | the limit stays when the window has room for the buffer, else becomes position plus what the window has left |
| SubrangeChannel.ByteBuffer.Allocate | com.io7m.jaion.tests/src/test/java/com/io7m/jaion/tests/KTXSubrangeByteChannelTest.java:74 | a zero-filled fresh buffer at position 0 with the limit at its capacity |
| SubrangeChannel.ByteBuffer.Remaining | com.io7m.jaion.vanilla/src/main/java/com/io7m/jaion/vanilla/internal/KTXSubrangeByteChannel.java:56-57 | limit minus position, never negative |
| SubrangeChannel.ByteBuffer.SetLimit | com.io7m.jaion.vanilla/src/main/java/com/io7m/jaion/vanilla/internal/KTXSubrangeByteChannel.java:67 | the buffer becomes `LimitedTo` its old state, or is unchanged and the call refused |
| SubrangeChannel.ByteBuffer.Rewind | com.io7m.jaion.tests/src/test/java/com/io7m/jaion/tests/KTXSubrangeByteChannelTest.java:93 | the position is 0 |
| SubrangeChannel.ByteBuffer.Fill | com.io7m.jaion.tests/src/test/java/com/io7m/jaion/tests/KTXSubrangeByteChannelTest.java:76 | every cell holds the value |
| SubrangeChannel.FileChannel.Open | com.io7m.jaion.tests/src/test/java/com/io7m/jaion/tests/KTXSubrangeByteChannelTest.java:65-66 | an open channel over the contents at position 0 |
| SubrangeChannel.FileChannel.Position | com.io7m.jaion.vanilla/src/main/java/com/io7m/jaion/vanilla/internal/KTXSubrangeByteChannel.java:48 | the position when open, the closed-channel failure otherwise |
| SubrangeChannel.FileChannel.SetPosition | com.io7m.jaion.vanilla/src/main/java/com/io7m/jaion/vanilla/internal/KTXSubrangeByteChannel.java:90 | refused when closed, then when negative; otherwise the position is set and the channel returned |
| SubrangeChannel.FileChannel.Read | com.io7m.jaion.vanilla/src/main/java/com/io7m/jaion/vanilla/internal/KTXSubrangeByteChannel.java:68 | the result, new position and buffer are those of `FileRead` |
| SubrangeChannel.FileChannel.IsOpen | com.io7m.jaion.vanilla/src/main/java/com/io7m/jaion/vanilla/internal/KTXSubrangeByteChannel.java:109 | the open flag |
| SubrangeChannel.FileChannel.Close | com.io7m.jaion.tests/src/test/java/com/io7m/jaion/tests/KTXSubrangeByteChannelTest.java:125 | the channel is closed |
| SubrangeChannel.SubrangeByteChannel.constructor | com.io7m.jaion.vanilla/src/main/java/com/io7m/jaion/vanilla/internal/KTXSubrangeByteChannel.java:32-43 | the delegate, base and length as given, and the end at base plus length |
| SubrangeChannel.SubrangeByteChannel.ChannelRemaining | com.io7m.jaion.vanilla/src/main/java/com/io7m/jaion/vanilla/internal/KTXSubrangeByteChannel.java:45-49 | the window's end minus the delegate's position, or the closed-channel failure |
| SubrangeChannel.SubrangeByteChannel.Read | com.io7m.jaion.vanilla/src/main/java/com/io7m/jaion/vanilla/internal/KTXSubrangeByteChannel.java:51-69 | the result, delegate position and buffer are those of `SubrangeRead` |
| SubrangeChannel.SubrangeByteChannel.Write | com.io7m.jaion.vanilla/src/main/java/com/io7m/jaion/vanilla/internal/KTXSubrangeByteChannel.java:71-76 | always refused as non-writable, changing nothing |
| SubrangeChannel.SubrangeByteChannel.Position | com.io7m.jaion.vanilla/src/main/java/com/io7m/jaion/vanilla/internal/KTXSubrangeByteChannel.java:78-83 | the delegate's position minus the base |
| SubrangeChannel.SubrangeByteChannel.SetPosition | com.io7m.jaion.vanilla/src/main/java/com/io7m/jaion/vanilla/internal/KTXSubrangeByteChannel.java:85-91 | the delegate moves to base plus the position, under the delegate's own checks, and the delegate is returned |
| SubrangeChannel.SubrangeByteChannel.Size | com.io7m.jaion.vanilla/src/main/java/com/io7m/jaion/vanilla/internal/KTXSubrangeByteChannel.java:93-97 | the configured length, whatever the delegate holds |
| SubrangeChannel.SubrangeByteChannel.Truncate | com.io7m.jaion.vanilla/src/main/java/com/io7m/jaion/vanilla/internal/KTXSubrangeByteChannel.java:99-104 | always refused as non-writable, changing nothing |
| SubrangeChannel.SubrangeByteChannel.IsOpen | com.io7m.jaion.vanilla/src/main/java/com/io7m/jaion/vanilla/internal/KTXSubrangeByteChannel.java:106-110 | the delegate's open state |
| SubrangeChannel.SubrangeByteChannel.Close | com.io7m.jaion.vanilla/src/main/java/com/io7m/jaion/vanilla/internal/KTXSubrangeByteChannel.java:112-116 | the delegate is unchanged, so it stays open |
| SubrangeChannelLemmas.ReadInsideWindow | com.io7m.jaion.vanilla/src/main/java/com/io7m/jaion/vanilla/internal/KTXSubrangeByteChannel.java:56-68 | from inside the window an open delegate's read never fails, reads into room min(buffer room, window left), and leaves the limit lowered by the difference |
| SubrangeChannelLemmas.ReadStaysInWindow | com.io7m.jaion.vanilla/src/main/java/com/io7m/jaion/vanilla/internal/KTXSubrangeByteChannel.java:45-69 | delivered bytes come from the delegate's position, end by the window's end and the file's, fit the room and land at the buffer's position; all other cells keep their contents |
| SubrangeChannelLemmas.ReadAtWindowEnd | com.io7m.jaion.tests/src/test/java/com/io7m/jaion/tests/KTXSubrangeByteChannelTest.java:109-122 | at the window's end a read returns 0 whatever the file holds, leaving the buffer as it was with its limit at its position |
| SubrangeChannelLemmas.ReadPastWindowEnd | com.io7m.jaion.vanilla/src/main/java/com/io7m/jaion/vanilla/internal/KTXSubrangeByteChannel.java:56-68 | past the window's end nothing is delivered: position and limit are pulled back, or the limit is refused when it would be negative |
| SubrangeChannelLemmas.ReadBeforeWindowStart | com.io7m.jaion.vanilla/src/main/java/com/io7m/jaion/vanilla/internal/KTXSubrangeByteChannel.java:45-69 | a delegate before the window's start, with room in the buffer and bytes in the file, delivers at least one byte, the first being the byte at its position, outside the window |
| SubrangeChannelLemmas.FreshWindowPosition | com.io7m.jaion.vanilla/src/main/java/com/io7m/jaion/vanilla/internal/KTXSubrangeByteChannel.java:32-43 | a window over a freshly opened delegate reports the position `-base` |
| SubrangeChannelLemmas.PositionRoundTrip | com.io7m.jaion.vanilla/src/main/java/com/io7m/jaion/vanilla/internal/KTXSubrangeByteChannel.java:78-91 | setting the position then reading it gives back the position set |
| SubrangeChannelLemmas.WorkedRead | com.io7m.jaion.tests/src/test/java/com/io7m/jaion/tests/KTXSubrangeByteChannelTest.java:78-106 | a read of `k` bytes at buffer position 0 puts the delegate's next `k` bytes first, keeps the rest, and sets position and limit to `k` |
| SubrangeChannelLemmas.FirstWorkedRead | com.io7m.jaion.tests/src/test/java/com/io7m/jaion/tests/KTXSubrangeByteChannelTest.java:78-90 | from window position 0: six bytes "ABBCCD", the last two cells still 0xff, the delegate at the window's end |
| SubrangeChannelLemmas.SecondWorkedRead | com.io7m.jaion.tests/src/test/java/com/io7m/jaion/tests/KTXSubrangeByteChannelTest.java:93-106 | from window position 1: five bytes "BBCCD", the rest still 0xff, the delegate at the window's end |
| SubrangeChannelLemmas.ThirdWorkedRead | com.io7m.jaion.tests/src/test/java/com/io7m/jaion/tests/KTXSubrangeByteChannelTest.java:109-122 | from window position 6: nothing read, every cell still 0xff |

## Left out

- **I/O and the bounded-reader library.** These are outside the model. The source is an immutable byte sequence. The bounded reader's behaviour is stated only for the operations the decoder calls, and its I/O failures are not modelled.
- **Error message text.** The text built by `errorUnrecognizedFileIdentifier`, `errorUnrecognizedEndianness`, `errorLimitExceeded` and `formatBytes` is not modelled. Errors are datatype constructors that carry the offset, the sizes and a limit tag.
- **UTF-8 decoding.** Keys and values are kept as their bytes.
- **`AtomicBoolean`.** `closed` is a plain boolean, because concurrency is not modelled.
- **KTX 2 decoding.** It is unimplemented in the source; only its failure is modelled.
- **The parse-request builder.** `KTX1Types.ParseRequest` holds the two limits and the builder's defaults.
- **The `KTX1FileReadable` holder.** A successful parse returns a record of the header, the map and the data offset.
- **Width and height shifts.** The shifts at `KTXParser.java:321-324` are not modelled, because their results are never used.
- **`long` arithmetic.** Unsigned `long` comparisons are comparisons of unbounded naturals, and the sums of sizes and offsets are not reduced modulo 2^64. They cannot overflow for sources shorter than 2^63 bytes.
- KTXParserImpl.KTXParser.ReadKeyValueDataKTX1: returns the map rather than filling in place a map its caller owns.
- KTXParserImpl.KTXParser.ExecuteKTX1: the returned file does not carry the reader it would read images through.
- KTXParserImpl.KTXParser.Execute: requires that the initial reader covers the whole source; in the source it is whatever reader the caller hands in.
- **Split methods.** The header block (`ReadHeaderBlock`, `ReadHeaderFields`) and the level loop (`ReadMipLevels`, `ReadMipLevel`, `AddLevelSubImages`, `AddElementSubImages`, `AddFaceSubImages`) are split into methods of their own. They run the same statements in the same order. The offset of a level's entries is passed in rather than re-read in the innermost loop, because the reader does not move there.
- KTXParserImpl.KTXParser.PopReader: requires a non-empty stack, where `ArrayDeque.pop` would throw; every call site has a matching push.
- **Sub-reader creation never fails.** The library can refuse a child window that is larger than its parent's remaining bytes. The model creates the window and lets the first read past the parent's data fail instead.
- **JDK classes.** The JDK `FileChannel` and `ByteBuffer` are in-memory stand-ins, with these limits:
  - a file read transfers as much as both the room and the file allow, with no short reads;
  - file reads have no I/O errors;
  - the buffer's mark and its other methods are not modelled.
- SubrangeChannelLemmas.ReadStaysInWindow: holds only when the delegate is at most 2^31 plus the buffer's position bytes past the window's end. Further past, the `(int)` narrowing wraps the new limit around and a read can deliver bytes past the window; `SubrangeChannel.Narrow32` models that wrap exactly.
- **The channel test as calls.** The test's three reads are stated on `SubrangeRead` values, with the rewinds and refills as the buffer state before each read, rather than by driving the objects through the calls; `SubrangeChannel.SubrangeByteChannel.Read` ties each call to `SubrangeRead`.
