/** The values a KTX 1 parse produces, and the fixed byte patterns it recognises. */
module KTX1Types {
  import opened Bytes
  import opened BoundedReader

  /** The 12-byte file identifier of KTX 1.1. */
  const KTX1_IDENTIFIER: seq<byte> := [0xAB, 0x4B, 0x54, 0x58, 0x20, 0x31, 0x31, 0xBB, 0x0D, 0x0A, 0x1A, 0x0A]

  /** The 12-byte file identifier of KTX 2.0. */
  const KTX2_IDENTIFIER: seq<byte> := [0xAB, 0x4B, 0x54, 0x58, 0x20, 0x32, 0x30, 0xBB, 0x0D, 0x0A, 0x1A, 0x0A]

  /** The endianness marker as it appears in a file written big-endian. */
  const ENDIAN_BIG: seq<byte> := [0x04, 0x03, 0x02, 0x01]

  /** The endianness marker as it appears in a file written little-endian. */
  const ENDIAN_LITTLE: seq<byte> := [0x01, 0x02, 0x03, 0x04]

  /** The bounded header window: the marker and twelve 32-bit fields. */
  const HEADER_SIZE: nat := 52

  /** The absolute offset of the key/value region: identifier (12) plus header (52). */
  const KEY_VALUE_OFFSET: nat := 64

  /** The default limits of a parse request. */
  const DEFAULT_KEY_VALUE_REGION_LIMIT: uint64 := 10_000_000
  const DEFAULT_KEY_VALUE_DATUM_LIMIT: uint64 := 1_000_000

  /**
   * The limits a parse request carries, each compared unsigned. The decoder consults only the
   * region limit, for the region and for every record alike.
   */
  datatype ParseRequest = ParseRequest(keyValueRegionLimit: uint64, keyValueDatumLimit: uint64)

  /** A request built without setting the limits. */
  const DEFAULT_REQUEST: ParseRequest := ParseRequest(DEFAULT_KEY_VALUE_REGION_LIMIT, DEFAULT_KEY_VALUE_DATUM_LIMIT)

  /** The decoded KTX 1 header. */
  datatype Header = Header(
    isBigEndian: bool,
    glType: uint32,
    glTypeSize: uint32,
    glFormat: uint32,
    glInternalFormat: uint32,
    glBaseInternalFormat: uint32,
    pixelWidth: uint32,
    pixelHeight: uint32,
    pixelDepth: uint32,
    numberOfArrayElements: uint32,
    numberOfFaces: uint32,
    numberOfMipmapLevels: uint32,
    bytesOfKeyValueData: uint32)

  /** Keys and values are kept as the bytes of their UTF-8 text. */
  type KeyValueMap = map<seq<byte>, seq<byte>>

  /** Where one (mip level, array element, face, depth slice) image begins, and its declared size. */
  datatype SubImage = SubImage(
    offset: nat,
    size: uint32,
    mipMapLevel: nat,
    arrayElement: nat,
    face: nat,
    zSlice: nat)

  /** What a successful parse hands back: header, key/value data and where the image data starts. */
  datatype KTX1File = KTX1File(header: Header, keyValues: KeyValueMap, dataOffset: nat)

  /** The outcome of the KTX 1 path: the file, the sub-image list it computed, and the final reader. */
  datatype Parsed = Parsed(file: KTX1File, subImages: seq<SubImage>, reader: Cursor)

  /**
   * `minUnsigned`: despite its name, the unsigned MAXIMUM of its arguments. The decoder relies on
   * this to raise zero face, level, element and depth counts to one.
   */
  function MinUnsigned(x: uint32, y: uint32): (r: uint32)
    ensures r >= x && r >= y
    ensures r == x || r == y
  {
    if x > y then x else y
  }
}
