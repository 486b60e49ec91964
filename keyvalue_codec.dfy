/** Decoding the KTX 1 key/value region: length-prefixed, NUL-delimited key/value records. */
module KeyValueCodec {
  import opened Wrappers
  import opened Bytes
  import opened KTXErrors
  import opened BoundedReader
  import opened KTX1Types

  /** A key and its value, as bytes. */
  type Record = (seq<byte>, seq<byte>)

  /** The first index at or after `from` that holds a NUL, if any. */
  function IndexOfNul(p: seq<byte>, from: nat): (r: Option<nat>)
    ensures r.Some? ==> from <= r.value < |p| && p[r.value] == 0
    ensures r.Some? ==> forall i | from <= i < r.value :: p[i] != 0
    ensures r.None? ==> forall i | from <= i < |p| :: p[i] != 0
    decreases |p| - from
  {
    if from >= |p| then None
    else if p[from] == 0 then Some(from)
    else IndexOfNul(p, from + 1)
  }

  /**
   * How a record payload `p` splits: the key is every byte before the first NUL; the value starts
   * just after it and stops at the next NUL or, when there is none, one byte before the end.
   */
  predicate SplitsAs(p: seq<byte>, key: seq<byte>, value: seq<byte>) {
    var k := |key|;
    var e := k + 1 + |value|;
    && e < |p|
    && key == p[..k] && p[k] == 0 && 0 !in key
    && value == p[k + 1 .. e] && 0 !in value
    && (p[e] == 0 || e == |p| - 1)
  }

  /**
   * The key and value of a record payload. The source scans for the first NUL (its end is
   * `dataStart`, 0 when there is none), then for the next NUL from there (`dataEnd`, `length - 1`
   * when there is none), and takes the key as bytes [0, dataStart - 1) and the value as bytes
   * [dataStart, dataEnd); a negative length fails.
   */
  function SplitRecord(p: seq<byte>): (r: Result<Record, Error>)
    ensures r.Err? <==> forall i | 0 <= i < |p| - 1 :: p[i] != 0
    ensures r.Ok? ==> SplitsAs(p, r.value.0, r.value.1)
  {
    var dataStart := match IndexOfNul(p, 0) case Some(i) => i + 1 case None => 0;
    var dataEnd := match IndexOfNul(p, dataStart) case Some(j) => j case None => |p| - 1;
    if dataStart - 1 < 0 then Err(StringIndexOutOfBounds(0, dataStart - 1))
    else if dataEnd - dataStart < 0 then Err(StringIndexOutOfBounds(dataStart, dataEnd - dataStart))
    else Ok((p[..dataStart - 1], p[dataStart .. dataEnd]))
  }

  /** Inserting records in order into a map, as the decoder's `put` calls do. */
  function InsertAll(m: KeyValueMap, records: seq<Record>): KeyValueMap
    decreases |records|
  {
    if records == [] then m else InsertAll(m[records[0].0 := records[0].1], records[1..])
  }

  /**
   * The records of the key/value window `c`, read while at least 4 bytes remain in the window:
   * a 32-bit size (which must not exceed `limit`), then that many payload bytes split into a key
   * and a value. No padding after a record is skipped.
   */
  function Records(data: seq<byte>, c: Cursor, big: bool, limit: nat): Result<Read<seq<Record>>, Error>
    decreases c.size - c.pos
  {
    if c.BytesRemaining().GetOr(0) < 4 then Ok(Read([], c))
    else
      var size :- c.ReadU32(data, big);
      if size.value > limit then Err(LimitExceeded(size.next.Absolute(), size.value, KeyValueDatumLimit))
      else if ToInt32(size.value) < 0 then Err(NegativeArraySize(ToInt32(size.value)))
      else
        var payload :- size.next.ReadBytes(data, size.value);
        var record :- SplitRecord(payload.value);
        var rest :- Records(data, payload.next, big, limit);
        Ok(Read([record] + rest.value, rest.next))
  }

  /**
   * The key/value region of `regionSize` bytes at the current position of `c`: its records, read
   * inside a bounded window, a final alignment to 4 bytes, and the absolute offset reached, which
   * is where the image data begins.
   */
  function KeyValueRegion(data: seq<byte>, c: Cursor, big: bool, limit: nat, regionSize: uint32)
    : Result<(KeyValueMap, nat), Error>
  {
    KeyValueWindow(data, c.SubReader("keyValueData", regionSize), big, limit)
  }

  /** The work done inside the key/value window: the records, then alignment to 4 bytes. */
  function KeyValueWindow(data: seq<byte>, window: Cursor, big: bool, limit: nat): Result<(KeyValueMap, nat), Error> {
    var records :- Records(data, window, big, limit);
    var aligned :- records.next.Align(4);
    Ok((InsertAll(map[], records.value), aligned.Absolute()))
  }
}

module KeyValueCodecLemmas {
  import opened Wrappers
  import opened Bytes
  import opened KTXErrors
  import opened BoundedReader
  import opened KTX1Types
  import opened KeyValueCodec

  /** A key, a NUL, a value, a NUL and any padding split back into the key and the value. */
  lemma SplitTerminatedRecord(key: seq<byte>, value: seq<byte>, padding: seq<byte>)
    requires 0 !in key && 0 !in value
    ensures SplitRecord(key + [0] + value + [0] + padding) == Ok((key, value))
  {
    var p := key + [0] + value + [0] + padding;
    var k := |key|;
    assert p[k] == 0;
    assert p[k + 1 + |value|] == 0;
    assert forall i | 0 <= i < k :: p[i] == key[i];
    assert forall i | k < i < k + 1 + |value| :: p[i] == value[i - k - 1];
    assert p[..k] == key;
    assert p[k + 1 .. k + 1 + |value|] == value;
  }

  /** Without a second NUL the value loses the payload's last byte. */
  lemma SplitUnterminatedRecord(key: seq<byte>, value: seq<byte>, last: byte)
    requires 0 !in key && 0 !in value && last != 0
    ensures SplitRecord(key + [0] + value + [last]) == Ok((key, value))
  {
    var p := key + [0] + value + [last];
    var k := |key|;
    assert p[k] == 0;
    assert forall i | 0 <= i < k :: p[i] == key[i];
    assert forall i | k < i < k + 1 + |value| :: p[i] == value[i - k - 1];
    assert p[..k] == key;
    assert p[k + 1 .. k + 1 + |value|] == value;
  }

  /** Inserting records keeps the old keys and adds exactly the records' keys. */
  lemma {:induction false} InsertAllKeys(m: KeyValueMap, records: seq<Record>)
    ensures InsertAll(m, records).Keys == m.Keys + set i | 0 <= i < |records| :: records[i].0
    decreases |records|
  {
    if records != [] {
      InsertAllKeys(m[records[0].0 := records[0].1], records[1..]);
      var tail := set i | 0 <= i < |records[1..]| :: records[1..][i].0;
      var all := set i | 0 <= i < |records| :: records[i].0;
      assert all == {records[0].0} + tail by {
        forall x | x in all ensures x in {records[0].0} + tail {
          var i :| 0 <= i < |records| && records[i].0 == x;
          if i > 0 {
            assert records[1..][i - 1].0 == x;
          }
        }
      }
    }
  }

  /** Last write wins: a key takes the value of its last record. */
  lemma {:induction false} InsertAllLastWins(m: KeyValueMap, records: seq<Record>, i: nat)
    requires i < |records|
    requires forall j | i < j < |records| :: records[j].0 != records[i].0
    ensures records[i].0 in InsertAll(m, records)
    ensures InsertAll(m, records)[records[i].0] == records[i].1
    decreases |records|
  {
    if i == 0 {
      InsertAllUntouched(m[records[0].0 := records[0].1], records[1..], records[0].0);
    } else {
      InsertAllLastWins(m[records[0].0 := records[0].1], records[1..], i - 1);
    }
  }

  /** A key that no record mentions keeps the value it had. */
  lemma {:induction false} InsertAllUntouched(m: KeyValueMap, records: seq<Record>, key: seq<byte>)
    requires key in m
    requires forall j | 0 <= j < |records| :: records[j].0 != key
    ensures key in InsertAll(m, records) && InsertAll(m, records)[key] == m[key]
    decreases |records|
  {
    if records != [] {
      assert records[0].0 != key;
      InsertAllUntouched(m[records[0].0 := records[0].1], records[1..], key);
    }
  }

  /**
   * The record loop stays inside its window: it ends in the same window, no earlier than it
   * started, at most at the bound, with fewer than 4 bytes left.
   */
  lemma {:induction false} RecordsStayInWindow(data: seq<byte>, c: Cursor, big: bool, limit: nat)
    requires c.pos <= c.size
    requires Records(data, c, big, limit).Ok?
    ensures var next := Records(data, c, big, limit).value.next;
      && next.name == c.name && next.start == c.start && next.size == c.size
      && c.pos <= next.pos <= next.size && next.size - next.pos < 4
    decreases c.size - c.pos
  {
    if c.BytesRemaining().GetOr(0) >= 4 {
      var size := c.ReadU32(data, big).value;
      var payload := size.next.ReadBytes(data, size.value).value;
      RecordsStayInWindow(data, payload.next, big, limit);
    }
  }

  /**
   * The region ends at a 4-byte aligned absolute offset within its declared bytes, and no more
   * than 3 bytes before their end; a region whose size is a multiple of 4 ends exactly at its end.
   */
  lemma DataOffsetInRegion(data: seq<byte>, c: Cursor, big: bool, limit: nat, regionSize: uint32)
    requires c.Absolute() % 4 == 0
    requires KeyValueRegion(data, c, big, limit, regionSize).Ok?
    ensures var offset := KeyValueRegion(data, c, big, limit, regionSize).value.1;
      && offset % 4 == 0
      && c.Absolute() + regionSize - 3 <= offset <= c.Absolute() + regionSize
      && (regionSize % 4 == 0 ==> offset == c.Absolute() + regionSize)
  {
    var window := c.SubReader("keyValueData", regionSize);
    RecordsStayInWindow(data, window, big, limit);
    var next := Records(data, window, big, limit).value.next;
    var target := RoundUp(next.pos, 4);
    assert KeyValueRegion(data, c, big, limit, regionSize).value.1 == c.Absolute() + target;
    AlignedSum(c.Absolute(), target, regionSize);
  }

  lemma AlignedSum(a: nat, t: nat, n: nat)
    requires a % 4 == 0 && t % 4 == 0 && n - 3 <= t <= n
    ensures (a + t) % 4 == 0
    ensures n % 4 == 0 ==> t == n
  {
  }

  /** A record whose declared size exceeds the limit fails, naming the datum limit. */
  lemma RecordOverLimit(data: seq<byte>, c: Cursor, big: bool, limit: nat)
    requires c.BytesRemaining().GetOr(0) >= 4 && c.Absolute() + 4 <= |data|
    requires DecodeU32(data[c.Absolute() .. c.Absolute() + 4], big) > limit
    ensures Records(data, c, big, limit)
      == Err(LimitExceeded(c.Absolute() + 4, DecodeU32(data[c.Absolute() .. c.Absolute() + 4], big), KeyValueDatumLimit))
  {
  }

  /** A record whose payload does not fit in what is left of the window fails as out of bounds. */
  lemma RecordPastWindow(data: seq<byte>, c: Cursor, big: bool, limit: nat)
    requires c.BytesRemaining().GetOr(0) >= 4 && c.Absolute() + 4 <= |data|
    requires var size := DecodeU32(data[c.Absolute() .. c.Absolute() + 4], big);
      size <= limit && size < 0x8000_0000 && c.pos + 4 + size > c.size
    ensures Records(data, c, big, limit)
      == Err(OutOfBounds(c.Absolute() + 4, DecodeU32(data[c.Absolute() .. c.Absolute() + 4], big)))
  {
  }
}
