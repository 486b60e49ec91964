/** Bytes and the unsigned 32-bit integers of the KTX 1 container, in either byte order. */
module Bytes {

  type byte = x: int | 0 <= x < 0x100

  /** An unsigned 32-bit magnitude; the source keeps these in a Java `long`. */
  type uint32 = x: int | 0 <= x < 0x1_0000_0000

  /** A Java `long` read as unsigned, as `Long.compareUnsigned` reads it. */
  type uint64 = x: int | 0 <= x < 0x1_0000_0000_0000_0000

  /**
   * The Java narrowing cast `(int)`: the value congruent to `x` modulo 2^32 in the signed 32-bit
   * range.
   */
  function ToInt32(x: int): (r: int)
    ensures -0x8000_0000 <= r < 0x8000_0000
    ensures (x - r) % 0x1_0000_0000 == 0
  {
    (x + 0x8000_0000) % 0x1_0000_0000 - 0x8000_0000
  }

  /** The value of four bytes read most significant first (`readU32BE`). */
  function DecodeU32BE(b: seq<byte>): uint32
    requires |b| == 4
  {
    (b[0] as int) * 0x100_0000 + (b[1] as int) * 0x1_0000 + (b[2] as int) * 0x100 + b[3] as int
  }

  /** The value of four bytes read least significant first (`readU32LE`). */
  function DecodeU32LE(b: seq<byte>): uint32
    requires |b| == 4
  {
    (b[3] as int) * 0x100_0000 + (b[2] as int) * 0x1_0000 + (b[1] as int) * 0x100 + b[0] as int
  }

  function DecodeU32(b: seq<byte>, bigEndian: bool): uint32
    requires |b| == 4
  {
    if bigEndian then DecodeU32BE(b) else DecodeU32LE(b)
  }

  /** The four bytes that encode `x` in the given byte order. */
  function EncodeU32(x: uint32, bigEndian: bool): (b: seq<byte>)
    ensures |b| == 4
  {
    var be: seq<byte> := [x / 0x100_0000, (x / 0x1_0000) % 0x100, (x / 0x100) % 0x100, x % 0x100];
    if bigEndian then be else [be[3], be[2], be[1], be[0]]
  }

  /** The two byte orders read the same bytes in reverse. */
  lemma DecodeU32Reversed(b: seq<byte>)
    requires |b| == 4
    ensures DecodeU32(b, false) == DecodeU32([b[3], b[2], b[1], b[0]], true)
  {
  }

  /** Decoding what was encoded gives back the value, in either byte order. */
  lemma DecodeEncodeU32(x: uint32, bigEndian: bool)
    ensures DecodeU32(EncodeU32(x, bigEndian), bigEndian) == x
  {
    var q1 := x / 0x100;
    var q2 := q1 / 0x100;
    var q3 := q2 / 0x100;
    var low16 := (q1 % 0x100) * 0x100 + x % 0x100;
    assert x == q2 * 0x1_0000 + low16;
    DivModShift16(q2, low16);
    assert x == q3 * 0x100_0000 + ((q2 % 0x100) * 0x1_0000 + low16);
    DivModShift24(q3, (q2 % 0x100) * 0x1_0000 + low16);
    var b0, b1, b2, b3 := x / 0x100_0000, (x / 0x1_0000) % 0x100, (x / 0x100) % 0x100, x % 0x100;
    assert b0 == q3 && b1 == q2 % 0x100 && b2 == q1 % 0x100;
    assert x == b0 * 0x100_0000 + b1 * 0x1_0000 + b2 * 0x100 + b3;
  }

  /** Splitting `q * 2^k + r` by `2^k` gives back `q` and `r`, for the shifts a 32-bit value uses. */
  lemma DivModShift8(q: nat, r: nat)
    requires r < 0x100
    ensures (q * 0x100 + r) / 0x100 == q && (q * 0x100 + r) % 0x100 == r
  {
  }

  lemma DivModShift16(q: nat, r: nat)
    requires r < 0x1_0000
    ensures (q * 0x1_0000 + r) / 0x1_0000 == q
  {
  }

  lemma DivModShift24(q: nat, r: nat)
    requires r < 0x100_0000
    ensures (q * 0x100_0000 + r) / 0x100_0000 == q
  {
  }

  /** The four bytes of a value are the ones it was built from (most significant first). */
  lemma BytesOfValue(b0: byte, b1: byte, b2: byte, b3: byte)
    ensures var x := (b0 as int) * 0x100_0000 + (b1 as int) * 0x1_0000 + (b2 as int) * 0x100 + b3 as int;
      x / 0x100_0000 == b0 && (x / 0x1_0000) % 0x100 == b1 && (x / 0x100) % 0x100 == b2 && x % 0x100 == b3
  {
    var x := (b0 as int) * 0x100_0000 + (b1 as int) * 0x1_0000 + (b2 as int) * 0x100 + b3 as int;
    var hi16 := (b0 as int) * 0x100 + b1;
    var hi24 := hi16 * 0x100 + b2;
    assert x == hi24 * 0x100 + b3;
    assert x == hi16 * 0x1_0000 + ((b2 as int) * 0x100 + b3);
    DivModShift24(b0, (b1 as int) * 0x1_0000 + (b2 as int) * 0x100 + b3);
    DivModShift16(hi16, (b2 as int) * 0x100 + b3);
    DivModShift8(b0, b1);
    DivModShift8(hi24, b3);
    DivModShift8(hi16, b2);
  }

  /** Four bytes are determined by their value: encoding the decoded value gives them back. */
  lemma EncodeDecodeU32(b: seq<byte>, bigEndian: bool)
    requires |b| == 4
    ensures EncodeU32(DecodeU32(b, bigEndian), bigEndian) == b
  {
    if bigEndian {
      BytesOfValue(b[0], b[1], b[2], b[3]);
    } else {
      BytesOfValue(b[3], b[2], b[1], b[0]);
    }
  }
}
