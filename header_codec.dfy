/** Decoding the 52-byte KTX 1 header: the endianness marker, then twelve 32-bit fields. */
module HeaderCodec {
  import opened Wrappers
  import opened Bytes
  import opened KTXErrors
  import opened BoundedReader
  import opened KTX1Types

  /** The byte order a marker announces: big-endian is `true`. */
  function Endianness(marker: seq<byte>): (r: Result<bool, Error>)
    ensures r == Ok(true) <==> marker == ENDIAN_BIG
    ensures r == Ok(false) <==> marker == ENDIAN_LITTLE
    ensures r.Err? <==> r == Err(UnrecognizedEndianness(marker))
  {
    if marker == ENDIAN_BIG then Ok(true)
    else if marker == ENDIAN_LITTLE then Ok(false)
    else Err(UnrecognizedEndianness(marker))
  }

  /**
   * `n` consecutive 32-bit fields in the given byte order; the decoder reads the twelve header
   * fields one after another, each failing if it would cross the header window.
   */
  function ReadFields(data: seq<byte>, c: Cursor, big: bool, n: nat): (r: Result<Read<seq<uint32>>, Error>)
    ensures r.Ok? ==> |r.value.value| == n
    decreases n
  {
    if n == 0 then Ok(Read([], c))
    else
      var first :- c.ReadU32(data, big);
      var rest :- ReadFields(data, first.next, big, n - 1);
      Ok(Read([first.value] + rest.value, rest.next))
  }

  /**
   * The header built from the twelve fields in file order: glType, glTypeSize, glFormat,
   * glInternalFormat, glBaseInternalFormat, pixelWidth, pixelHeight, pixelDepth,
   * numberOfArrayElements, numberOfFaces (raised to at least one), numberOfMipmapLevels and
   * bytesOfKeyValueData.
   */
  function HeaderOfFields(big: bool, f: seq<uint32>): Header
    requires |f| == 12
  {
    Header(big, f[0], f[1], f[2], f[3], f[4], f[5], f[6], f[7], f[8], MinUnsigned(f[9], 1), f[10], f[11])
  }

  /** The number of 32-bit fields after the endianness marker. */
  const HEADER_FIELD_COUNT: nat := 12

  /** The header as the decoder reads it through the header window `c`. */
  function ReadHeader(data: seq<byte>, c: Cursor): Result<Header, Error> {
    var marker :- c.ReadBytes(data, 4);
    var big :- Endianness(marker.value);
    var fields :- ReadFields(data, marker.next, big, HEADER_FIELD_COUNT);
    Ok(HeaderOfFields(big, fields.value))
  }

  /** The byte order the header window fixes, if its marker can be read and is recognised. */
  function HeaderByteOrder(data: seq<byte>, c: Cursor): Option<bool> {
    match c.ReadBytes(data, 4)
    case Err(_) => None
    case Ok(marker) => if Endianness(marker.value).Ok? then Some(Endianness(marker.value).value) else None
  }

  /** The values of consecutive 4-byte units. */
  function DecodeFields(b: seq<byte>, big: bool): (r: seq<uint32>)
    requires |b| % 4 == 0
    ensures |r| == |b| / 4
  {
    if b == [] then [] else [DecodeU32(b[..4], big)] + DecodeFields(b[4..], big)
  }

  /** The twelve header fields in file order, as stored (numberOfFaces included as it is). */
  function FieldsOf(h: Header): (f: seq<uint32>)
    ensures |f| == 12
  {
    [h.glType, h.glTypeSize, h.glFormat, h.glInternalFormat, h.glBaseInternalFormat,
     h.pixelWidth, h.pixelHeight, h.pixelDepth, h.numberOfArrayElements, h.numberOfFaces,
     h.numberOfMipmapLevels, h.bytesOfKeyValueData]
  }

  /** Consecutive 4-byte encodings of the values. */
  function EncodeFields(f: seq<uint32>, big: bool): (b: seq<byte>)
    ensures |b| == 4 * |f|
  {
    if f == [] then [] else EncodeU32(f[0], big) + EncodeFields(f[1..], big)
  }

  /** The 52 bytes that encode a header: its marker, then its twelve fields in its byte order. */
  function EncodeHeader(h: Header): (b: seq<byte>)
    ensures |b| == HEADER_SIZE
  {
    (if h.isBigEndian then ENDIAN_BIG else ENDIAN_LITTLE) + EncodeFields(FieldsOf(h), h.isBigEndian)
  }
}

module HeaderCodecLemmas {
  import opened Wrappers
  import opened Bytes
  import opened KTXErrors
  import opened BoundedReader
  import opened KTX1Types
  import opened HeaderCodec

  /**
   * Reading `n` fields inside a window with room for them gives the values of the next 4n source
   * bytes when the source holds them, and otherwise fails at the first 4-byte unit the source
   * does not hold in full.
   */
  lemma ReadFieldsAt(data: seq<byte>, c: Cursor, big: bool, n: nat)
    requires c.pos + 4 * n <= c.size && c.Absolute() <= |data|
    ensures ReadFields(data, c, big, n)
      == if c.Absolute() + 4 * n <= |data|
         then Ok(Read(DecodeFields(data[c.Absolute() .. c.Absolute() + 4 * n], big), c.(pos := c.pos + 4 * n)))
         else Err(OutOfBounds(c.Absolute() + 4 * ((|data| - c.Absolute()) / 4), 4))
  {
    if c.Absolute() + 4 * n <= |data| {
      ReadFieldsHeld(data, c, big, n);
    } else {
      ReadFieldsCut(data, c, big, n);
    }
  }

  /** The fields a source holds in full are the values of its next 4n bytes. */
  lemma {:induction false} ReadFieldsHeld(data: seq<byte>, c: Cursor, big: bool, n: nat)
    requires c.pos + 4 * n <= c.size && c.Absolute() + 4 * n <= |data|
    ensures ReadFields(data, c, big, n)
      == Ok(Read(DecodeFields(data[c.Absolute() .. c.Absolute() + 4 * n], big), c.(pos := c.pos + 4 * n)))
    decreases n
  {
    if n > 0 {
      var a := c.Absolute();
      var next := c.(pos := c.pos + 4);
      ReadFieldsHeld(data, next, big, n - 1);
      var b := data[a .. a + 4 * n];
      assert b[..4] == data[a .. a + 4];
      assert b[4..] == data[a + 4 .. a + 4 * n];
    }
  }

  /** Fields a source cuts short fail at the first 4-byte unit it does not hold in full. */
  lemma {:induction false} ReadFieldsCut(data: seq<byte>, c: Cursor, big: bool, n: nat)
    requires c.pos + 4 * n <= c.size && c.Absolute() <= |data| < c.Absolute() + 4 * n
    ensures ReadFields(data, c, big, n) == Err(OutOfBounds(c.Absolute() + 4 * ((|data| - c.Absolute()) / 4), 4))
    decreases n
  {
    var a := c.Absolute();
    if a + 4 <= |data| {
      var next := c.(pos := c.pos + 4);
      ReadFieldsCut(data, next, big, n - 1);
      assert (|data| - a) / 4 == 1 + (|data| - (a + 4)) / 4;
    } else {
      assert (|data| - a) / 4 == 0;
    }
  }

  /**
   * The header window at absolute offset `s` in closed form: a source that ends before the marker,
   * or an unknown marker, or a source that ends inside the fields fails at the first 4-byte unit
   * that is missing; otherwise the fields are the values of the bytes at offsets s+4 .. s+52.
   */
  lemma ReadHeaderAt(data: seq<byte>, c: Cursor)
    requires c.pos == 0 && c.size == HEADER_SIZE
    ensures ReadHeader(data, c)
      == if |data| < c.start + 4 then Err(OutOfBounds(c.start, 4))
         else if Endianness(data[c.start .. c.start + 4]).Err? then Err(UnrecognizedEndianness(data[c.start .. c.start + 4]))
         else if |data| < c.start + HEADER_SIZE then Err(OutOfBounds(c.start + 4 * ((|data| - c.start) / 4), 4))
         else Ok(HeaderOfFields(Endianness(data[c.start .. c.start + 4]).value,
                                DecodeFields(data[c.start + 4 .. c.start + HEADER_SIZE], Endianness(data[c.start .. c.start + 4]).value)))
  {
    var s := c.start;
    if |data| >= s + 4 && Endianness(data[s .. s + 4]).Ok? {
      ReadFieldsAt(data, c.(pos := 4), Endianness(data[s .. s + 4]).value, 12);
      if |data| < s + HEADER_SIZE {
        assert 4 * ((|data| - (s + 4)) / 4) + 4 == 4 * ((|data| - s) / 4);
      }
    }
  }

  /** Decoding consecutive encodings gives back the values. */
  lemma {:induction false} DecodeEncodeFields(f: seq<uint32>, big: bool)
    ensures DecodeFields(EncodeFields(f, big), big) == f
  {
    if f != [] {
      var b := EncodeFields(f, big);
      assert b[..4] == EncodeU32(f[0], big);
      assert b[4..] == EncodeFields(f[1..], big);
      DecodeEncodeU32(f[0], big);
      DecodeEncodeFields(f[1..], big);
    }
  }

  /**
   * A header window holding the encoding of `h` decodes to `h`, in either byte order, except that
   * a zero face count comes back as one.
   */
  lemma ReadEncodedHeader(data: seq<byte>, c: Cursor, h: Header)
    requires c.pos == 0 && c.size == HEADER_SIZE && c.start + HEADER_SIZE <= |data|
    requires data[c.start .. c.start + HEADER_SIZE] == EncodeHeader(h)
    ensures ReadHeader(data, c) == Ok(h.(numberOfFaces := MinUnsigned(h.numberOfFaces, 1)))
  {
    var s := c.start;
    var enc := EncodeHeader(h);
    ReadHeaderAt(data, c);
    assert data[s .. s + 4] == enc[..4];
    assert enc[..4] == if h.isBigEndian then ENDIAN_BIG else ENDIAN_LITTLE;
    assert data[s + 4 .. s + HEADER_SIZE] == enc[4..];
    assert enc[4..] == EncodeFields(FieldsOf(h), h.isBigEndian);
    DecodeEncodeFields(FieldsOf(h), h.isBigEndian);
  }

  /**
   * The same field values written big-endian and little-endian decode to headers that differ
   * only in the byte-order flag.
   */
  lemma ByteOrderIrrelevant(big: seq<byte>, little: seq<byte>, c: Cursor, h: Header)
    requires c.pos == 0 && c.size == HEADER_SIZE && c.start + HEADER_SIZE <= |big| && c.start + HEADER_SIZE <= |little|
    requires big[c.start .. c.start + HEADER_SIZE] == EncodeHeader(h.(isBigEndian := true))
    requires little[c.start .. c.start + HEADER_SIZE] == EncodeHeader(h.(isBigEndian := false))
    ensures ReadHeader(big, c).Ok? && ReadHeader(little, c).Ok?
    ensures ReadHeader(big, c).value.isBigEndian && !ReadHeader(little, c).value.isBigEndian
    ensures ReadHeader(big, c).value.(isBigEndian := false) == ReadHeader(little, c).value
  {
    ReadEncodedHeader(big, c, h.(isBigEndian := true));
    ReadEncodedHeader(little, c, h.(isBigEndian := false));
  }
}
