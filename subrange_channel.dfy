/**
 * A read-only window `[baseStart, baseStart + limit)` over a seekable channel. Reads are clamped
 * by lowering the destination buffer's limit before the delegate fills it; positions are
 * translated by the window's base; writing and truncation are refused.
 *
 * The delegate is a file channel over a fixed byte sequence with a mutable position and an open
 * flag, and the destination is a heap byte buffer: an array with a position and a limit.
 */
module SubrangeChannel {
  import opened Wrappers
  import opened Bytes

  /** The exceptions the channel operations can raise. */
  datatype ChannelError =
    | ClosedChannel        // ClosedChannelException from the delegate
    | IllegalArgument      // IllegalArgumentException: a buffer limit or file position out of range
    | NonWritableChannel   // NonWritableChannelException

  /** Java arrays and buffer indices are `int`: non-negative values below 2^31. */
  const INT_LIMIT: int := 0x8000_0000

  function Min(a: int, b: int): (r: int)
    ensures r <= a && r <= b && (r == a || r == b)
  {
    if a <= b then a else b
  }

  /** Java's `(int)` cast of a `long`: the low 32 bits, read as a two's-complement integer. */
  function Narrow32(x: int): (r: int)
    ensures -INT_LIMIT <= r < INT_LIMIT
    ensures (x - r) % 0x1_0000_0000 == 0
    ensures -INT_LIMIT <= x < INT_LIMIT ==> r == x
  {
    var low := x % 0x1_0000_0000;
    if low >= INT_LIMIT then low - 0x1_0000_0000 else low
  }

  /** The contents, position and limit of a byte buffer. */
  datatype BufferState = BufferState(bytes: seq<byte>, position: int, limit: int)

  /** The invariant every buffer keeps: 0 <= position <= limit <= capacity < 2^31. */
  predicate ValidBuffer(b: BufferState) {
    0 <= b.position <= b.limit <= |b.bytes| < INT_LIMIT
  }

  /**
   * `limit(newLimit)` on a buffer: a limit below zero or above the capacity is refused; otherwise
   * the limit is set and a position beyond it is pulled back to it.
   */
  function LimitedTo(b: BufferState, newLimit: int): (r: Result<BufferState, ChannelError>)
    ensures r.Err? <==> newLimit < 0 || newLimit > |b.bytes|
    ensures r.Err? ==> r.error == IllegalArgument
    ensures r.Ok? ==> r.value.bytes == b.bytes && r.value.limit == newLimit
    ensures r.Ok? ==> r.value.position == Min(b.position, newLimit)
    ensures r.Ok? && ValidBuffer(b) ==> ValidBuffer(r.value)
  {
    if newLimit > |b.bytes| || newLimit < 0 then Err(IllegalArgument)
    else Ok(b.(limit := newLimit, position := if b.position > newLimit then newLimit else b.position))
  }

  /**
   * What a file channel's read returns for a buffer with `room` bytes remaining: 0 when there is
   * no room, -1 at or past the end of the file, and otherwise as many bytes as both allow.
   */
  function ReadCount(size: nat, pos: nat, room: int): (n: int)
    ensures room <= 0 ==> n == 0
    ensures room > 0 && pos >= size ==> n == -1
    ensures room > 0 && pos < size ==> 0 < n <= room && pos + n <= size && (n == room || pos + n == size)
  {
    if room <= 0 then 0
    else if pos >= size then -1
    else Min(room, size - pos)
  }

  /** `buf` with `src` written over it starting at index `at`. */
  function Overwrite(buf: seq<byte>, at: nat, src: seq<byte>): (r: seq<byte>)
    requires at + |src| <= |buf|
    ensures |r| == |buf|
    ensures forall i | 0 <= i < |r| :: r[i] == if at <= i < at + |src| then src[i - at] else buf[i]
  {
    buf[..at] + src + buf[at + |src|..]
  }

  /** The result of a read, the delegate's new position and the destination buffer afterwards. */
  datatype ReadOutcome = ReadOutcome(result: Result<int, ChannelError>, filePosition: nat, buffer: BufferState)

  /**
   * A file channel's read into buffer `b` from file position `pos`: a closed channel refuses;
   * otherwise the bytes counted by `ReadCount` are copied to the buffer at its position, and both
   * positions advance by that many.
   */
  function FileRead(file: seq<byte>, open: bool, pos: nat, b: BufferState): (o: ReadOutcome)
    requires ValidBuffer(b)
    ensures ValidBuffer(o.buffer) && o.buffer.limit == b.limit && |o.buffer.bytes| == |b.bytes|
  {
    if !open then ReadOutcome(Err(ClosedChannel), pos, b)
    else
      var n := ReadCount(|file|, pos, b.limit - b.position);
      if n <= 0 then ReadOutcome(Ok(n), pos, b)
      else ReadOutcome(Ok(n), pos + n,
                       b.(bytes := Overwrite(b.bytes, b.position, file[pos .. pos + n]), position := b.position + n))
  }

  /**
   * The limit `read` gives the destination: unchanged when the window has at least as much left
   * as the buffer has room for, and otherwise the buffer's position plus what is left of the
   * window, narrowed to a Java `int`.
   */
  function ClampedLimit(position: int, limit: int, channelRemaining: int): (r: int)
    ensures -INT_LIMIT <= limit < INT_LIMIT && channelRemaining >= limit - position ==> r == limit
    ensures -INT_LIMIT <= position + channelRemaining < INT_LIMIT && channelRemaining < limit - position ==>
      r == position + channelRemaining
  {
    var bufferRemaining := limit - position;
    var remaining := Min(bufferRemaining, channelRemaining);
    var bufferDifference := bufferRemaining - remaining;
    Narrow32(limit - bufferDifference)
  }

  /**
   * The window's read from delegate position `pos`, the window ending at `baseEnd`: a closed
   * delegate refuses; otherwise the buffer's limit is lowered to `ClampedLimit` (which can be
   * refused) and the delegate reads into what the buffer then has room for. The limit is not
   * restored.
   */
  function SubrangeRead(file: seq<byte>, open: bool, pos: nat, baseEnd: int, b: BufferState): ReadOutcome
    requires ValidBuffer(b)
  {
    if !open then ReadOutcome(Err(ClosedChannel), pos, b)
    else
      match LimitedTo(b, ClampedLimit(b.position, b.limit, baseEnd - pos))
      case Err(e) => ReadOutcome(Err(e), pos, b)
      case Ok(clamped) => FileRead(file, open, pos, clamped)
  }

  /** A heap byte buffer: its backing array, position and limit. */
  class ByteBuffer {
    const hb: array<byte>
    var position: int
    var limit: int

    ghost predicate Valid()
      reads this
    {
      0 <= position <= limit <= hb.Length < INT_LIMIT
    }

    /** The buffer as a value. */
    function State(): (s: BufferState)
      reads this, hb
      ensures Valid() ==> ValidBuffer(s)
    {
      BufferState(hb[..], position, limit)
    }

    /** `allocate(capacity)`: a zero-filled buffer, positioned at 0, with the limit at its capacity. */
    constructor Allocate(capacity: int)
      requires 0 <= capacity < INT_LIMIT
      ensures Valid() && fresh(hb)
      ensures hb[..] == seq(capacity, _ => 0) && position == 0 && limit == capacity
    {
      hb := new byte[capacity](_ => 0);
      position := 0;
      limit := capacity;
    }

    /** `remaining()`: the room between position and limit, never negative. */
    function Remaining(): (r: int)
      reads this
      ensures r >= 0
      ensures Valid() ==> r == limit - position
    {
      if limit - position > 0 then limit - position else 0
    }

    /** `limit(newLimit)`. */
    method SetLimit(newLimit: int) returns (r: Result<(), ChannelError>)
      modifies this`position, this`limit
      ensures LimitedTo(old(State()), newLimit).Ok? ==> r == Ok(()) && State() == LimitedTo(old(State()), newLimit).value
      ensures LimitedTo(old(State()), newLimit).Err? ==> r == Err(IllegalArgument) && State() == old(State())
    {
      if newLimit > hb.Length || newLimit < 0 {
        return Err(IllegalArgument);
      }
      limit := newLimit;
      if position > newLimit {
        position := newLimit;
      }
      return Ok(());
    }

    /** `rewind()`: back to position 0, the limit as it is. */
    method Rewind()
      modifies this`position
      ensures position == 0
    {
      position := 0;
    }

    /** `Arrays.fill` on the backing array. */
    method Fill(value: byte)
      modifies hb
      ensures hb[..] == seq(hb.Length, _ => value)
    {
      forall i | 0 <= i < hb.Length {
        hb[i] := value;
      }
    }
  }

  /** The delegate: a file channel over fixed contents, with a position and an open flag. */
  class FileChannel {
    const content: seq<byte>
    var position: nat
    var open: bool

    /** `FileChannel.open(file, READ)`: an open channel at position 0. */
    constructor Open(bytes: seq<byte>)
      ensures content == bytes && position == 0 && open
    {
      content := bytes;
      position := 0;
      open := true;
    }

    /** `position()`. */
    method Position() returns (r: Result<int, ChannelError>)
      ensures open ==> r == Ok(position)
      ensures !open ==> r == Err(ClosedChannel)
    {
      if !open {
        return Err(ClosedChannel);
      }
      return Ok(position);
    }

    /** `position(newPosition)`: a closed channel refuses first, then a negative position; returns the channel. */
    method SetPosition(newPosition: int) returns (r: Result<FileChannel, ChannelError>)
      modifies this`position
      ensures !open ==> r == Err(ClosedChannel) && position == old(position)
      ensures open && newPosition < 0 ==> r == Err(IllegalArgument) && position == old(position)
      ensures open && newPosition >= 0 ==> r == Ok(this) && position == newPosition
    {
      if !open {
        return Err(ClosedChannel);
      }
      if newPosition < 0 {
        return Err(IllegalArgument);
      }
      position := newPosition;
      return Ok(this);
    }

    /** `read(dst)`. */
    method Read(dst: ByteBuffer) returns (r: Result<int, ChannelError>)
      requires dst.Valid()
      modifies this`position, dst`position, dst.hb
      ensures var o := FileRead(content, open, old(position), old(dst.State()));
        r == o.result && position == o.filePosition && dst.State() == o.buffer
      ensures dst.Valid()
    {
      if !open {
        return Err(ClosedChannel);
      }
      var n := ReadCount(|content|, position, dst.Remaining());
      if n > 0 {
        var at := dst.position;
        ghost var before := dst.hb[..];
        forall i | at <= i < at + n {
          dst.hb[i] := content[position + (i - at)];
        }
        assert dst.hb[..] == Overwrite(before, at, content[position .. position + n]);
        dst.position := at + n;
        position := position + n;
      }
      return Ok(n);
    }

    /** `isOpen()`. */
    function IsOpen(): (r: bool)
      reads this
      ensures r <==> open
    {
      open
    }

    /** `close()`. */
    method Close()
      modifies this`open
      ensures !open
    {
      open := false;
    }
  }

  /** `KTXSubrangeByteChannel`: the window `[baseStart, baseEnd)` of a delegate channel. */
  class SubrangeByteChannel {
    const delegate: FileChannel
    const baseStart: int
    const limit: int
    const baseEnd: int

    /** The window of `inLimit` bytes from absolute offset `inBase`. */
    constructor (inDelegate: FileChannel, inBase: int, inLimit: int)
      ensures delegate == inDelegate && baseStart == inBase && limit == inLimit
      ensures baseEnd == inBase + inLimit
    {
      delegate := inDelegate;
      baseStart := inBase;
      baseEnd := inBase + inLimit;
      limit := inLimit;
    }

    /** `channelRemaining`: how far the delegate is from the window's end, negative past it. */
    method ChannelRemaining() returns (r: Result<int, ChannelError>)
      ensures delegate.open ==> r == Ok(baseEnd - delegate.position)
      ensures !delegate.open ==> r == Err(ClosedChannel)
    {
      var position :- delegate.Position();
      return Ok(baseEnd - position);
    }

    /** `read(dst)`: clamp the buffer's limit to the window, then let the delegate read. */
    method Read(dst: ByteBuffer) returns (r: Result<int, ChannelError>)
      requires dst.Valid()
      modifies dst`position, dst`limit, dst.hb, delegate`position
      ensures var o := SubrangeRead(delegate.content, delegate.open, old(delegate.position), baseEnd, old(dst.State()));
        r == o.result && delegate.position == o.filePosition && dst.State() == o.buffer
      ensures dst.Valid()
    {
      var bufferRemaining := dst.Remaining();
      var channelRemaining :- ChannelRemaining();
      var remaining := Min(bufferRemaining, channelRemaining);
      var bufferDifference := bufferRemaining - remaining;
      var newLimit := Narrow32(dst.limit - bufferDifference);
      var limited := dst.SetLimit(newLimit);
      if limited.Err? {
        return Err(limited.error);
      }
      r := delegate.Read(dst);
    }

    /** `write(src)`: always refused. */
    method Write(src: ByteBuffer) returns (r: Result<int, ChannelError>)
      ensures r == Err(NonWritableChannel)
    {
      return Err(NonWritableChannel);
    }

    /** `position()`: the delegate's position relative to the window's base. */
    method Position() returns (r: Result<int, ChannelError>)
      ensures delegate.open ==> r == Ok(delegate.position - baseStart)
      ensures !delegate.open ==> r == Err(ClosedChannel)
    {
      var position :- delegate.Position();
      return Ok(position - baseStart);
    }

    /**
     * `position(newPosition)`: the delegate is moved to `baseStart + newPosition`, with no check of
     * its own, and the delegate (not the window) is returned.
     */
    method SetPosition(newPosition: int) returns (r: Result<FileChannel, ChannelError>)
      modifies delegate`position
      ensures !delegate.open ==> r == Err(ClosedChannel) && delegate.position == old(delegate.position)
      ensures delegate.open && baseStart + newPosition < 0 ==>
        r == Err(IllegalArgument) && delegate.position == old(delegate.position)
      ensures delegate.open && baseStart + newPosition >= 0 ==>
        r == Ok(delegate) && delegate.position == baseStart + newPosition
    {
      r := delegate.SetPosition(baseStart + newPosition);
    }

    /** `size()`: the configured length, whatever the delegate holds. */
    function Size(): (r: int)
      ensures r == limit
    {
      limit
    }

    /** `truncate(size)`: always refused. */
    method Truncate(size: int) returns (r: Result<SubrangeByteChannel, ChannelError>)
      ensures r == Err(NonWritableChannel)
    {
      return Err(NonWritableChannel);
    }

    /** `isOpen()`: the delegate's open state. */
    function IsOpen(): (r: bool)
      reads delegate
      ensures r <==> delegate.open
    {
      delegate.IsOpen()
    }

    /** `close()`: does nothing; in particular the delegate stays open. */
    method Close()
      ensures unchanged(delegate)
    {
    }
  }
}

/** What a windowed read guarantees. */
module SubrangeChannelLemmas {
  import opened Wrappers
  import opened Bytes
  import opened SubrangeChannel

  /** The number of bytes a read delivered: its result when positive, otherwise none. */
  function Delivered(o: ReadOutcome): nat {
    if o.result.Ok? && o.result.value > 0 then o.result.value else 0
  }

  /**
   * From inside the window, a read never fails on an open delegate: it reads as the delegate does
   * into a buffer with room for the lesser of its room and what is left of the window, and leaves
   * the limit lowered by the difference.
   */
  lemma ReadInsideWindow(file: seq<byte>, pos: nat, baseEnd: int, b: BufferState)
    requires ValidBuffer(b) && pos <= baseEnd
    ensures var o := SubrangeRead(file, true, pos, baseEnd, b);
      var room := Min(b.limit - b.position, baseEnd - pos);
      && o.result == Ok(ReadCount(|file|, pos, room))
      && o.buffer.limit == b.limit - ((b.limit - b.position) - room)
  {
    var room := Min(b.limit - b.position, baseEnd - pos);
    var newLimit := ClampedLimit(b.position, b.limit, baseEnd - pos);
    assert newLimit == b.position + room;
    var clamped := LimitedTo(b, newLimit).value;
    assert clamped.position == b.position && clamped.limit - clamped.position == room;
  }

  /**
   * No byte past the window's end is delivered: what a read delivers comes from the delegate's
   * position onwards, ends at or before the window's end and the end of the file, fits the
   * buffer's room, and lands at the buffer's position; every other cell of the buffer keeps its
   * contents, and the delegate moves by exactly what was delivered.
   */
  lemma ReadStaysInWindow(file: seq<byte>, open: bool, pos: nat, baseEnd: int, b: BufferState)
    requires ValidBuffer(b) && b.position + (baseEnd - pos) >= -INT_LIMIT
    ensures var o := SubrangeRead(file, open, pos, baseEnd, b);
      var k := Delivered(o);
      && |o.buffer.bytes| == |b.bytes|
      && o.filePosition == pos + k
      && (k > 0 ==>
            && pos + k <= baseEnd && pos + k <= |file| && k <= b.limit - b.position
            && o.buffer.position == b.position + k
            && o.buffer.bytes[b.position .. b.position + k] == file[pos .. pos + k])
      && forall i | 0 <= i < |b.bytes| && !(b.position <= i < b.position + k) :: o.buffer.bytes[i] == b.bytes[i]
  {
    var o := SubrangeRead(file, open, pos, baseEnd, b);
    if open {
      var newLimit := ClampedLimit(b.position, b.limit, baseEnd - pos);
      if LimitedTo(b, newLimit).Ok? {
        var clamped := LimitedTo(b, newLimit).value;
        if Delivered(o) > 0 {
          var k := Delivered(o);
          assert clamped.limit - clamped.position >= k;
          assert newLimit <= b.position + (baseEnd - pos);
          assert clamped.position == b.position;
          var bytes := o.buffer.bytes;
          assert bytes == Overwrite(b.bytes, b.position, file[pos .. pos + k]);
          assert forall i | b.position <= i < b.position + k :: bytes[i] == file[pos + (i - b.position)];
        }
      }
    }
  }

  /**
   * At the window's end a read on an open delegate returns 0, never end-of-file's -1 and
   * whatever the file still holds, and leaves the buffer's limit at its position.
   */
  lemma ReadAtWindowEnd(file: seq<byte>, pos: nat, b: BufferState)
    requires ValidBuffer(b)
    ensures SubrangeRead(file, true, pos, pos, b) == ReadOutcome(Ok(0), pos, b.(limit := b.position))
  {
    assert ClampedLimit(b.position, b.limit, 0) == b.position;
  }

  /**
   * A delegate already past the window's end reads nothing: the buffer's position and limit are
   * both pulled back to its position plus the (negative) distance to the window's end, and the
   * result is 0, or the limit is refused when that would be below zero.
   */
  lemma ReadPastWindowEnd(file: seq<byte>, pos: nat, baseEnd: int, b: BufferState)
    requires ValidBuffer(b) && pos > baseEnd && b.position + (baseEnd - pos) >= -INT_LIMIT
    ensures var o := SubrangeRead(file, true, pos, baseEnd, b);
      var target := b.position + (baseEnd - pos);
      && o.filePosition == pos && o.buffer.bytes == b.bytes
      && (target >= 0 ==> o.result == Ok(0) && o.buffer.position == target && o.buffer.limit == target)
      && (target < 0 ==> o.result == Err(IllegalArgument) && o.buffer == b)
  {
    var target := b.position + (baseEnd - pos);
    assert ClampedLimit(b.position, b.limit, baseEnd - pos) == target;
  }

  /**
   * The window has no lower clamp: a delegate standing before the window's start, with room in the
   * buffer and bytes left in the file, delivers at least one byte, and the first is the byte at
   * the delegate's position, outside the window.
   */
  lemma ReadBeforeWindowStart(file: seq<byte>, pos: nat, baseStart: int, baseEnd: int, b: BufferState)
    requires ValidBuffer(b) && pos < baseStart <= baseEnd && pos < |file| && b.position < b.limit
    ensures var o := SubrangeRead(file, true, pos, baseEnd, b);
      && Delivered(o) > 0 && o.filePosition == pos + Delivered(o)
      && o.buffer.bytes[b.position] == file[pos]
  {
    ReadInsideWindow(file, pos, baseEnd, b);
    ReadStaysInWindow(file, true, pos, baseEnd, b);
    var o := SubrangeRead(file, true, pos, baseEnd, b);
    assert o.buffer.bytes[b.position .. b.position + Delivered(o)][0] == file[pos .. pos + Delivered(o)][0];
  }

  /**
   * A window over a freshly opened delegate is not positioned at its start: the delegate stands
   * at 0, so the window reports the position `-base`, before its own start whenever `base > 0`.
   */
  method FreshWindowPosition(content: seq<byte>, base: int, size: int) returns (r: Result<int, ChannelError>)
    ensures r == Ok(-base)
  {
    var delegate := new FileChannel.Open(content);
    var channel := new SubrangeByteChannel(delegate, base, size);
    r := channel.Position();
  }

  /**
   * Setting the window's position and reading it back gives the position set, whenever the
   * delegate is open and accepts the translated position.
   */
  method PositionRoundTrip(channel: SubrangeByteChannel, p: int) returns (r: Result<int, ChannelError>)
    requires channel.delegate.open && channel.baseStart + p >= 0
    modifies channel.delegate`position
    ensures r == Ok(p)
  {
    var moved := channel.SetPosition(p);
    r := channel.Position();
  }

  /** "AABBCCDD". */
  const HELLO0: seq<byte> := [0x41, 0x41, 0x42, 0x42, 0x43, 0x43, 0x44, 0x44]

  const FILLED: seq<byte> := [0xff, 0xff, 0xff, 0xff, 0xff, 0xff, 0xff, 0xff]

  /**
   * A read from inside the window, landing at buffer position 0, of `k` bytes: the first `k` cells
   * hold the delegate's next `k` bytes, the rest is as it was, and position and limit are both `k`.
   */
  lemma WorkedRead(file: seq<byte>, pos: nat, baseEnd: int, b: BufferState, k: nat)
    requires ValidBuffer(b) && b.position == 0 && pos <= baseEnd
    requires 0 < k == b.limit - ((b.limit - b.position) - Min(b.limit - b.position, baseEnd - pos))
    requires pos + k <= |file|
    ensures SubrangeRead(file, true, pos, baseEnd, b)
      == ReadOutcome(Ok(k), pos + k, BufferState(file[pos .. pos + k] + b.bytes[k..], k, k))
  {
    ReadInsideWindow(file, pos, baseEnd, b);
    ReadStaysInWindow(file, true, pos, baseEnd, b);
    var o := SubrangeRead(file, true, pos, baseEnd, b);
    var expected := file[pos .. pos + k] + b.bytes[k..];
    assert |o.buffer.bytes| == |expected|;
    forall i | 0 <= i < |expected| ensures o.buffer.bytes[i] == expected[i] {
      if i < k {
        assert o.buffer.bytes[i] == o.buffer.bytes[0 .. k][i];
      }
    }
  }

  /*
   * The window of 6 bytes at offset 1 of "AABBCCDD" (it ends at offset 7), read through an 8-byte
   * buffer filled with 0xff, as the three reads of the channel's test see it.
   */

  /** From window position 0 (delegate at 1): six bytes "ABBCCD"; the limit stays lowered to 6. */
  lemma FirstWorkedRead()
    ensures SubrangeRead(HELLO0, true, 1, 7, BufferState(FILLED, 0, 8))
      == ReadOutcome(Ok(6), 7, BufferState([0x41, 0x42, 0x42, 0x43, 0x43, 0x44, 0xff, 0xff], 6, 6))
  {
    WorkedRead(HELLO0, 1, 7, BufferState(FILLED, 0, 8), 6);
    assert HELLO0[1 .. 7] + FILLED[6..] == [0x41, 0x42, 0x42, 0x43, 0x43, 0x44, 0xff, 0xff];
  }

  /** After a rewind, from window position 1 (delegate at 2): five bytes "BBCCD", limit 5. */
  lemma SecondWorkedRead()
    ensures SubrangeRead(HELLO0, true, 2, 7, BufferState(FILLED, 0, 6))
      == ReadOutcome(Ok(5), 7, BufferState([0x42, 0x42, 0x43, 0x43, 0x44, 0xff, 0xff, 0xff], 5, 5))
  {
    WorkedRead(HELLO0, 2, 7, BufferState(FILLED, 0, 6), 5);
    assert HELLO0[2 .. 7] + FILLED[5..] == [0x42, 0x42, 0x43, 0x43, 0x44, 0xff, 0xff, 0xff];
  }

  /** After a rewind, from window position 6 (delegate at 7, the window's end): nothing, limit 0. */
  lemma ThirdWorkedRead()
    ensures SubrangeRead(HELLO0, true, 7, 7, BufferState(FILLED, 0, 5)) == ReadOutcome(Ok(0), 7, BufferState(FILLED, 0, 0))
  {
    ReadAtWindowEnd(HELLO0, 7, BufferState(FILLED, 0, 5));
  }
}
