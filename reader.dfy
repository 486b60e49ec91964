/**
 * The bounded random-access reader the decoder reads through. Its library is not part of this
 * model; only the cursor operations the decoder uses are stated here. A cursor is a window
 * `[start, start + size)` of the source bytes with a position relative to `start`. Reads fail
 * when they would cross the window or the end of the source; skips, seeks and alignment fail
 * when they would cross the window.
 */
module BoundedReader {
  import opened Wrappers
  import opened Bytes
  import opened KTXErrors

  /** A value read from a cursor, and the cursor after the read. */
  datatype Read<+T> = Read(value: T, next: Cursor)

  datatype Cursor = Cursor(name: string, start: nat, size: nat, pos: nat) {

    /** `offsetCurrentAbsolute`: the position in the whole source. */
    function Absolute(): nat {
      start + pos
    }

    /** `bytesRemaining`: the bytes left before the bound, absent at the bound. */
    function BytesRemaining(): Option<nat> {
      if pos < size then Some(size - pos) else None
    }

    /** `readBytes` of `n` bytes. */
    function ReadBytes(data: seq<byte>, n: nat): Result<Read<seq<byte>>, Error> {
      if pos + n <= size && start + pos + n <= |data| then
        Ok(Read(data[start + pos .. start + pos + n], this.(pos := pos + n)))
      else
        Err(OutOfBounds(Absolute(), n))
    }

    /** `readU32BE` or `readU32LE`. */
    function ReadU32(data: seq<byte>, bigEndian: bool): Result<Read<uint32>, Error> {
      var b :- ReadBytes(data, 4);
      Ok(Read(DecodeU32(b.value, bigEndian), b.next))
    }

    /** `skip` of `n` bytes. */
    function Skip(n: nat): Result<Cursor, Error> {
      if pos + n <= size then Ok(this.(pos := pos + n)) else Err(OutOfBounds(Absolute(), n))
    }

    /** `align(n)`: advance to the next multiple of `n` relative to the window's start. */
    function Align(n: nat): Result<Cursor, Error>
      requires n > 0
    {
      var target := RoundUp(pos, n);
      if target <= size then Ok(this.(pos := target)) else Err(OutOfBounds(Absolute(), target - pos))
    }

    /** `seekTo` a position relative to the window's start. */
    function SeekTo(p: nat): Result<Cursor, Error> {
      if p <= size then Ok(this.(pos := p)) else Err(OutOfBounds(Absolute(), p))
    }

    /** `createSubReaderAtBounded(label, 0, n)`: a child window of `n` bytes at the current position. */
    function SubReader(childName: string, n: nat): Cursor {
      Cursor(childName, start + pos, n, 0)
    }
  }

  /** The least multiple of `n` that is at least `p`. */
  function RoundUp(p: nat, n: nat): (r: nat)
    requires n > 0
    ensures p <= r < p + n
    ensures n == 4 ==> r % 4 == 0
  {
    if p % n == 0 then p else p + (n - p % n)
  }

  /** On a window that starts at a multiple of 4, aligning relative to the start is aligning absolutely. */
  lemma AlignIsAbsolute(c: Cursor)
    requires c.start % 4 == 0
    ensures c.start + RoundUp(c.pos, 4) == RoundUp(c.Absolute(), 4)
  {
  }
}
