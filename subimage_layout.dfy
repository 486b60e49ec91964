/**
 * The KTX 1 sub-image layout walk: for each mip level, a 32-bit imageSize, then the images of
 * every array element, face and depth slice of that level, then padding to 4 bytes.
 */
module SubImageLayout {
  import opened Wrappers
  import opened Bytes
  import opened KTXErrors
  import opened BoundedReader
  import opened KTX1Types

  /**
   * How many times `for (int i = 0; i < (int) minUnsigned(x, 1L); ++i)` runs: at least once for
   * counts below 2^31, and never for larger ones, which the `(int)` cast makes negative.
   */
  function LoopCount(x: uint32): (n: nat)
    ensures x < 0x8000_0000 ==> n >= 1 && n >= x && (x > 0 ==> n == x)
    ensures x >= 0x8000_0000 ==> n == 0
  {
    Trips(ToInt32(MinUnsigned(x, 1)))
  }

  /** How many times `for (int i = 0; i < m; ++i)` runs. */
  function Trips(m: int): (n: nat)
    ensures m > 0 ==> n == m
    ensures m <= 0 ==> n == 0
  {
    if m > 0 then m else 0
  }

  /** File order: by mip level, then array element, then face, then depth slice. */
  predicate Before(x: SubImage, y: SubImage) {
    || x.mipMapLevel < y.mipMapLevel
    || (x.mipMapLevel == y.mipMapLevel && x.arrayElement < y.arrayElement)
    || (x.mipMapLevel == y.mipMapLevel && x.arrayElement == y.arrayElement && x.face < y.face)
    || (x.mipMapLevel == y.mipMapLevel && x.arrayElement == y.arrayElement && x.face == y.face
        && x.zSlice < y.zSlice)
  }

  /** Strictly increasing in file order, so also free of duplicates. */
  predicate Ordered(s: seq<SubImage>) {
    forall i, j | 0 <= i < j < |s| :: Before(s[i], s[j])
  }

  /** The innermost loop: depth slices 0 .. z-1 of one face. */
  function Slices(offset: nat, size: uint32, level: nat, element: nat, face: nat, z: nat): (r: seq<SubImage>)
    ensures |r| == z
    ensures forall i | 0 <= i < |r| :: r[i] == SubImage(offset, size, level, element, face, i)
    decreases z
  {
    if z == 0 then [] else Slices(offset, size, level, element, face, z - 1) + [SubImage(offset, size, level, element, face, z - 1)]
  }

  /** The middle loop: faces 0 .. f-1 of one array element, each with `depth` slices. */
  function Faces(offset: nat, size: uint32, level: nat, element: nat, depth: nat, f: nat): seq<SubImage>
    decreases f
  {
    if f == 0 then [] else Faces(offset, size, level, element, depth, f - 1) + Slices(offset, size, level, element, f - 1, depth)
  }

  /** The outer loop of a level: array elements 0 .. a-1, each with `faces` faces. */
  function Elements(offset: nat, size: uint32, level: nat, faces: nat, depth: nat, a: nat): seq<SubImage>
    decreases a
  {
    if a == 0 then [] else Elements(offset, size, level, faces, depth, a - 1) + Faces(offset, size, level, a - 1, depth, faces)
  }

  lemma MulStep(n: nat, k: nat)
    requires n > 0
    ensures n * k == k + (n - 1) * k
  {
  }

  /** The faces of one element: `f * depth` entries. */
  lemma {:induction false} FacesLength(offset: nat, size: uint32, level: nat, element: nat, depth: nat, f: nat)
    ensures |Faces(offset, size, level, element, depth, f)| == f * depth
    decreases f
  {
    if f > 0 {
      FacesLength(offset, size, level, element, depth, f - 1);
      MulStep(f, depth);
    }
  }

  /** The faces of one element share offset, size, level and element, and are in file order. */
  lemma {:induction false} FacesShape(offset: nat, size: uint32, level: nat, element: nat, depth: nat, f: nat)
    ensures Ordered(Faces(offset, size, level, element, depth, f))
    ensures Within(Faces(offset, size, level, element, depth, f), offset, size, level, element + 1, f, depth)
    ensures forall i | 0 <= i < |Faces(offset, size, level, element, depth, f)| ::
      Faces(offset, size, level, element, depth, f)[i].arrayElement == element
    decreases f
  {
    if f > 0 {
      var prefix := Faces(offset, size, level, element, depth, f - 1);
      var last := Slices(offset, size, level, element, f - 1, depth);
      FacesShape(offset, size, level, element, depth, f - 1);
      assert forall i, j | 0 <= i < |prefix| && 0 <= j < |last| :: Before(prefix[i], last[j]);
      OrderedConcat(prefix, last);
      WithinConcat(prefix, last, offset, size, level, element + 1, f, depth);
      var r: seq<SubImage> := prefix + last;
      forall i | 0 <= i < |r| ensures r[i].arrayElement == element {
        if i < |prefix| {
          assert r[i] == prefix[i];
        } else {
          assert r[i] == last[i - |prefix|];
        }
      }
    }
  }

  /** The images of one level: `a * (faces * depth)` entries. */
  lemma {:induction false} ElementsLength(offset: nat, size: uint32, level: nat, faces: nat, depth: nat, a: nat)
    ensures |Elements(offset, size, level, faces, depth, a)| == a * (faces * depth)
    decreases a
  {
    if a > 0 {
      ElementsLength(offset, size, level, faces, depth, a - 1);
      FacesLength(offset, size, level, a - 1, depth, faces);
      MulStep(a, faces * depth);
    }
  }

  /** The images of one level share offset, size and level. */
  lemma {:induction false} ElementsShape(offset: nat, size: uint32, level: nat, faces: nat, depth: nat, a: nat)
    ensures Within(Elements(offset, size, level, faces, depth, a), offset, size, level, a, faces, depth)
    decreases a
  {
    if a > 0 {
      var prefix := Elements(offset, size, level, faces, depth, a - 1);
      var last := Faces(offset, size, level, a - 1, depth, faces);
      ElementsShape(offset, size, level, faces, depth, a - 1);
      FacesShape(offset, size, level, a - 1, depth, faces);
      WithinConcat(prefix, last, offset, size, level, a, faces, depth);
    }
  }

  /** The images of one level are in file order. */
  lemma {:induction false} ElementsOrdered(offset: nat, size: uint32, level: nat, faces: nat, depth: nat, a: nat)
    ensures Ordered(Elements(offset, size, level, faces, depth, a))
    decreases a
  {
    if a > 0 {
      var prefix := Elements(offset, size, level, faces, depth, a - 1);
      var last := Faces(offset, size, level, a - 1, depth, faces);
      ElementsOrdered(offset, size, level, faces, depth, a - 1);
      ElementsShape(offset, size, level, faces, depth, a - 1);
      FacesShape(offset, size, level, a - 1, depth, faces);
      assert forall i, j | 0 <= i < |prefix| && 0 <= j < |last| :: Before(prefix[i], last[j]);
      OrderedConcat(prefix, last);
    }
  }

  /**
   * Every entry shares `offset`, `size` and `level`, and its element, face and slice lie
   * below `elements`, `faces` and `depth`.
   */
  predicate Within(s: seq<SubImage>, offset: nat, size: uint32, level: nat, elements: nat, faces: nat, depth: nat) {
    forall i | 0 <= i < |s| ::
      && s[i].offset == offset && s[i].size == size && s[i].mipMapLevel == level
      && s[i].arrayElement < elements && s[i].face < faces && s[i].zSlice < depth
  }

  lemma WithinConcat(x: seq<SubImage>, y: seq<SubImage>, offset: nat, size: uint32, level: nat,
                     elements: nat, faces: nat, depth: nat)
    requires Within(x, offset, size, level, elements, faces, depth)
    requires Within(y, offset, size, level, elements, faces, depth)
    ensures Within(x + y, offset, size, level, elements, faces, depth)
  {
    var s := x + y;
    forall i | 0 <= i < |s|
      ensures && s[i].offset == offset && s[i].size == size && s[i].mipMapLevel == level
              && s[i].arrayElement < elements && s[i].face < faces && s[i].zSlice < depth
    {
      if i < |x| {
        assert s[i] == x[i];
      } else {
        assert s[i] == y[i - |x|];
      }
    }
  }

  /** Two ordered runs, every element of the first before every element of the second, make one. */
  lemma OrderedConcat(x: seq<SubImage>, y: seq<SubImage>)
    requires Ordered(x) && Ordered(y)
    requires forall i, j | 0 <= i < |x| && 0 <= j < |y| :: Before(x[i], y[j])
    ensures Ordered(x + y)
  {
    var s := x + y;
    forall i, j | 0 <= i < j < |s| ensures Before(s[i], s[j]) {
      if j < |x| {
        assert Before(x[i], x[j]);
      } else if i < |x| {
        assert Before(x[i], y[j - |x|]);
      } else {
        assert Before(y[i - |x|], y[j - |x|]);
      }
    }
  }

  /** One mip level's imageSize field, and the absolute offset right after it where its images start. */
  datatype Level = Level(imageSize: uint32, offset: nat)

  /**
   * One iteration of the level loop: read imageSize, note where the images start, skip the image
   * data and align to 4 bytes.
   */
  function ReadLevel(data: seq<byte>, c: Cursor, big: bool): Result<Read<Level>, Error> {
    var imageSize :- c.ReadU32(data, big);
    var skipped :- imageSize.next.Skip(imageSize.value);
    var aligned :- skipped.Align(4);
    Ok(Read(Level(imageSize.value, imageSize.next.Absolute()), aligned))
  }

  /** `count` iterations of the level loop; the first failure ends the walk. */
  function ReadLevels(data: seq<byte>, c: Cursor, big: bool, count: nat): Result<Read<seq<Level>>, Error>
    decreases count
  {
    if count == 0 then Ok(Read([], c))
    else
      var level :- ReadLevel(data, c, big);
      var rest :- ReadLevels(data, level.next, big, count - 1);
      Ok(Read([level.value] + rest.value, rest.next))
  }

  /**
   * The entries the loop adds for the levels `levels`, numbered from `first`: all images of a
   * level start at that level's offset and carry its imageSize.
   */
  function Expand(levels: seq<Level>, first: nat, elements: nat, faces: nat, depth: nat): seq<SubImage>
    decreases |levels|
  {
    if levels == [] then []
    else
      Elements(levels[0].offset, levels[0].imageSize, first, faces, depth, elements)
        + Expand(levels[1..], first + 1, elements, faces, depth)
  }

  /** Every entry's level lies in `[lo, hi)` and its other coordinates below the loop counts. */
  predicate InRange(s: seq<SubImage>, lo: nat, hi: nat, elements: nat, faces: nat, depth: nat) {
    forall i | 0 <= i < |s| ::
      && lo <= s[i].mipMapLevel < hi
      && s[i].arrayElement < elements && s[i].face < faces && s[i].zSlice < depth
  }

  /**
   * Every entry starts at or after `from + 4`, ends by `end`, and carries the imageSize field
   * held in the four bytes just before its offset.
   */
  predicate SizeFieldsBefore(data: seq<byte>, s: seq<SubImage>, big: bool, from: nat, end: nat) {
    forall i | 0 <= i < |s| ::
      && from + 4 <= s[i].offset <= |data|
      && s[i].offset + s[i].size <= end
      && s[i].size == DecodeU32(data[s[i].offset - 4 .. s[i].offset], big)
  }

  /** Every entry belongs to one of `levels` (numbered from `first`) and carries its offset and size. */
  predicate FromLevels(s: seq<SubImage>, levels: seq<Level>, first: nat) {
    forall i | 0 <= i < |s| ::
      && first <= s[i].mipMapLevel < first + |levels|
      && s[i].offset == levels[s[i].mipMapLevel - first].offset
      && s[i].size == levels[s[i].mipMapLevel - first].imageSize
  }

  /** Every level starts at or after `from + 4`, ends by `end`, and is preceded by its imageSize field. */
  predicate LevelFieldsBefore(data: seq<byte>, levels: seq<Level>, big: bool, from: nat, end: nat) {
    forall k | 0 <= k < |levels| ::
      && from + 4 <= levels[k].offset <= |data|
      && levels[k].offset + levels[k].imageSize <= end
      && levels[k].imageSize == DecodeU32(data[levels[k].offset - 4 .. levels[k].offset], big)
  }

  /** Each level's images start four bytes after the boundary that follows the previous level's data. */
  predicate LevelsChained(levels: seq<Level>) {
    forall k | 0 <= k < |levels| - 1 ::
      levels[k + 1].offset == RoundUp(levels[k].offset + levels[k].imageSize, 4) + 4
  }

  /**
   * Each level starts four bytes (its imageSize field) after the 4-byte boundary that follows
   * the previous level's image data.
   */
  predicate Chained(s: seq<SubImage>) {
    forall i, j | 0 <= i < |s| && 0 <= j < |s| && s[j].mipMapLevel == s[i].mipMapLevel + 1 ::
      s[j].offset == RoundUp(s[i].offset + s[i].size, 4) + 4
  }

  /** Every entry starts at a multiple of 4. */
  predicate AllAligned(s: seq<SubImage>) {
    forall i | 0 <= i < |s| :: s[i].offset % 4 == 0
  }

  /** Every level starts at a multiple of 4. */
  predicate LevelsAligned(levels: seq<Level>) {
    forall k | 0 <= k < |levels| :: levels[k].offset % 4 == 0
  }

  /** A cube map without array elements is not laid out: the list is empty and nothing is read. */
  predicate IsUnlaidCubeMap(h: Header) {
    h.numberOfFaces == 6 && h.numberOfArrayElements == 0
  }

  /**
   * What the decoder's sub-image list `s` for header `h`, walked from absolute offset `from` in a
   * source ending at `end`, looks like: empty for a cube map without array elements; otherwise
   * one entry per combination of the raised counts, strictly in file order, every coordinate in
   * range, every entry 4-aligned, inside the source and right after the imageSize field it
   * carries, the first level right after the field at `from`, and each later level four bytes
   * after the 4-byte boundary that follows the previous level's data.
   */
  predicate LaidOut(data: seq<byte>, s: seq<SubImage>, h: Header, from: nat, end: nat) {
    && (IsUnlaidCubeMap(h) ==> s == [])
    && (!IsUnlaidCubeMap(h) ==>
          |s| == LoopCount(h.numberOfMipmapLevels)
            * (LoopCount(h.numberOfArrayElements) * (LoopCount(h.numberOfFaces) * LoopCount(h.pixelDepth))))
    && Ordered(s)
    && InRange(s, 0, LoopCount(h.numberOfMipmapLevels), LoopCount(h.numberOfArrayElements),
               LoopCount(h.numberOfFaces), LoopCount(h.pixelDepth))
    && SizeFieldsBefore(data, s, h.isBigEndian, from, end)
    && Chained(s)
    && AllAligned(s)
    && forall i | 0 <= i < |s| && s[i].mipMapLevel == 0 :: s[i].offset == from + 4
  }

  /** The sub-image list the decoder computes from the image data at `c`. */
  function SubImageOffsets(data: seq<byte>, c: Cursor, h: Header): Result<Read<seq<SubImage>>, Error> {
    if IsUnlaidCubeMap(h) then Ok(Read([], c))
    else
      var levels :- ReadLevels(data, c, h.isBigEndian, LoopCount(h.numberOfMipmapLevels));
      Ok(Read(Expand(levels.value, 0, LoopCount(h.numberOfArrayElements), LoopCount(h.numberOfFaces),
                     LoopCount(h.pixelDepth)),
              levels.next))
  }
}


/** What the sub-image walk guarantees about the list it produces. */
module SubImageLayoutLemmas {
  import opened Wrappers
  import opened Bytes
  import opened KTXErrors
  import opened BoundedReader
  import opened KTX1Types
  import opened SubImageLayout

  /**
   * One level: its imageSize is the four bytes at the cursor, its images start right after them
   * and end inside the window, and the walk goes on at the next 4-byte boundary of the window.
   */
  lemma ReadLevelShape(data: seq<byte>, c: Cursor, big: bool)
    requires ReadLevel(data, c, big).Ok?
    ensures ReadLevel(data, c, big).value.value.offset == c.Absolute() + 4 <= |data|
    ensures ReadLevel(data, c, big).value.value.imageSize
            == DecodeU32(data[c.Absolute() .. c.Absolute() + 4], big)
    ensures ReadLevel(data, c, big).value.value.offset + ReadLevel(data, c, big).value.value.imageSize
            <= c.start + c.size
    ensures ReadLevel(data, c, big).value.next
            == c.(pos := RoundUp(c.pos + 4 + ReadLevel(data, c, big).value.value.imageSize, 4))
  {
  }

  /** A level's images start right after its imageSize field. */
  lemma ReadLevelOffset(data: seq<byte>, c: Cursor, big: bool)
    requires ReadLevel(data, c, big).Ok?
    ensures ReadLevel(data, c, big).value.value.offset == c.Absolute() + 4
  {
  }

  /** From a 4-aligned position in a 4-aligned window, a level starts and ends 4-aligned. */
  lemma ReadLevelAligned(data: seq<byte>, c: Cursor, big: bool)
    requires c.start % 4 == 0 && c.pos % 4 == 0
    requires ReadLevel(data, c, big).Ok?
    ensures ReadLevel(data, c, big).value.value.offset % 4 == 0
    ensures ReadLevel(data, c, big).value.next.start == c.start
    ensures ReadLevel(data, c, big).value.next.pos % 4 == 0
  {
    ReadLevelOffset(data, c, big);
    Mod4Sum(c.start, c.pos);
  }

  lemma Mod4Sum(a: nat, b: nat)
    requires a % 4 == 0 && b % 4 == 0
    ensures (a + b + 4) % 4 == 0
  {
  }

  /** In a window starting at a multiple of 4, the next level begins at the boundary after the images. */
  lemma ReadLevelNext(data: seq<byte>, c: Cursor, big: bool)
    requires c.start % 4 == 0
    requires ReadLevel(data, c, big).Ok?
    ensures ReadLevel(data, c, big).value.next.Absolute()
            == RoundUp(ReadLevel(data, c, big).value.value.offset + ReadLevel(data, c, big).value.value.imageSize, 4)
  {
    ReadLevelShape(data, c, big);
    AlignIsAbsolute(c.(pos := c.pos + 4 + ReadLevel(data, c, big).value.value.imageSize));
  }

  /** One step of the walk: the first level, then the walk from where it left the cursor. */
  lemma ReadLevelsStep(data: seq<byte>, c: Cursor, big: bool, count: nat)
    requires count > 0 && ReadLevels(data, c, big, count).Ok?
    ensures ReadLevel(data, c, big).Ok?
    ensures ReadLevels(data, ReadLevel(data, c, big).value.next, big, count - 1).Ok?
    ensures ReadLevels(data, c, big, count).value.value
            == [ReadLevel(data, c, big).value.value]
               + ReadLevels(data, ReadLevel(data, c, big).value.next, big, count - 1).value.value
  {
  }

  /** The walk reads exactly `count` levels, the first at the cursor. */
  lemma {:induction false} ReadLevelsCount(data: seq<byte>, c: Cursor, big: bool, count: nat)
    requires ReadLevels(data, c, big, count).Ok?
    ensures |ReadLevels(data, c, big, count).value.value| == count
    ensures count > 0 ==> ReadLevels(data, c, big, count).value.value[0] == ReadLevel(data, c, big).value.value
    decreases count
  {
    if count > 0 {
      ReadLevelsCount(data, ReadLevel(data, c, big).value.next, big, count - 1);
    }
  }

  lemma FieldsCons(data: seq<byte>, l: Level, rest: seq<Level>, big: bool, from: nat, end: nat)
    requires from + 4 <= l.offset <= |data| && l.offset + l.imageSize <= end
    requires l.imageSize == DecodeU32(data[l.offset - 4 .. l.offset], big)
    requires LevelFieldsBefore(data, rest, big, from, end)
    ensures LevelFieldsBefore(data, [l] + rest, big, from, end)
  {
    var levels := [l] + rest;
    forall k | 0 <= k < |levels|
      ensures && from + 4 <= levels[k].offset <= |data|
              && levels[k].offset + levels[k].imageSize <= end
              && levels[k].imageSize == DecodeU32(data[levels[k].offset - 4 .. levels[k].offset], big)
    {
      if k > 0 {
        assert levels[k] == rest[k - 1];
      }
    }
  }

  lemma ChainedCons(l: Level, rest: seq<Level>)
    requires |rest| > 0 ==> rest[0].offset == RoundUp(l.offset + l.imageSize, 4) + 4
    requires LevelsChained(rest)
    ensures LevelsChained([l] + rest)
  {
    var levels := [l] + rest;
    forall k | 0 <= k < |levels| - 1
      ensures levels[k + 1].offset == RoundUp(levels[k].offset + levels[k].imageSize, 4) + 4
    {
      assert levels[k + 1] == rest[k];
      if k > 0 {
        assert levels[k] == rest[k - 1];
      }
    }
  }

  lemma AlignedCons(l: Level, rest: seq<Level>)
    requires l.offset % 4 == 0 && LevelsAligned(rest)
    ensures LevelsAligned([l] + rest)
  {
    var levels := [l] + rest;
    forall k | 0 <= k < |levels| ensures levels[k].offset % 4 == 0 {
      if k > 0 {
        assert levels[k] == rest[k - 1];
      }
    }
  }

  /** Every level lies inside the window and follows its own imageSize field. */
  lemma {:induction false} ReadLevelsFields(data: seq<byte>, c: Cursor, big: bool, count: nat)
    requires ReadLevels(data, c, big, count).Ok?
    ensures LevelFieldsBefore(data, ReadLevels(data, c, big, count).value.value, big, c.Absolute(), c.start + c.size)
    decreases count
  {
    if count > 0 {
      ReadLevelsStep(data, c, big, count);
      var level := ReadLevel(data, c, big).value;
      ReadLevelShape(data, c, big);
      ReadLevelsFields(data, level.next, big, count - 1);
      var rest := ReadLevels(data, level.next, big, count - 1).value.value;
      assert LevelFieldsBefore(data, rest, big, c.Absolute(), c.start + c.size);
      FieldsCons(data, level.value, rest, big, c.Absolute(), c.start + c.size);
    }
  }

  /** In a window starting at a multiple of 4, consecutive levels are chained by skip-and-align. */
  lemma {:induction false} ReadLevelsChained(data: seq<byte>, c: Cursor, big: bool, count: nat)
    requires c.start % 4 == 0
    requires ReadLevels(data, c, big, count).Ok?
    ensures LevelsChained(ReadLevels(data, c, big, count).value.value)
    decreases count
  {
    if count > 0 {
      ReadLevelsStep(data, c, big, count);
      var level := ReadLevel(data, c, big).value;
      var rest := ReadLevels(data, level.next, big, count - 1).value.value;
      ReadLevelNext(data, c, big);
      var boundary := RoundUp(level.value.offset + level.value.imageSize, 4);
      assert level.next.Absolute() == boundary;
      ReadLevelsChained(data, level.next, big, count - 1);
      ReadLevelsCount(data, level.next, big, count - 1);
      if count > 1 {
        ReadLevelOffset(data, level.next, big);
        assert rest[0] == ReadLevel(data, level.next, big).value.value;
        assert rest[0].offset == boundary + 4;
      }
      ChainedCons(level.value, rest);
    }
  }

  /** On a 4-aligned window and cursor, every level starts at a multiple of 4. */
  lemma {:induction false} ReadLevelsAligned(data: seq<byte>, c: Cursor, big: bool, count: nat)
    requires c.start % 4 == 0 && c.pos % 4 == 0
    requires ReadLevels(data, c, big, count).Ok?
    ensures LevelsAligned(ReadLevels(data, c, big, count).value.value)
    decreases count
  {
    if count > 0 {
      ReadLevelsStep(data, c, big, count);
      var level := ReadLevel(data, c, big).value;
      ReadLevelAligned(data, c, big);
      ReadLevelsAligned(data, level.next, big, count - 1);
      AlignedCons(level.value, ReadLevels(data, level.next, big, count - 1).value.value);
    }
  }

  /** One entry per (level, array element, face, depth slice). */
  lemma {:induction false} ExpandCount(levels: seq<Level>, first: nat, elements: nat, faces: nat, depth: nat)
    ensures |Expand(levels, first, elements, faces, depth)| == |levels| * (elements * (faces * depth))
    decreases |levels|
  {
    if levels != [] {
      ElementsLength(levels[0].offset, levels[0].imageSize, first, faces, depth, elements);
      ExpandCount(levels[1..], first + 1, elements, faces, depth);
      MulStep(|levels|, elements * (faces * depth));
    }
  }

  lemma FromLevelsCons(images: seq<SubImage>, rest: seq<SubImage>, l: Level, tail: seq<Level>, first: nat,
                       elements: nat, faces: nat, depth: nat)
    requires Within(images, l.offset, l.imageSize, first, elements, faces, depth)
    requires FromLevels(rest, tail, first + 1)
    ensures FromLevels(images + rest, [l] + tail, first)
  {
    var s := images + rest;
    var levels := [l] + tail;
    forall i | 0 <= i < |s|
      ensures && first <= s[i].mipMapLevel < first + |levels|
              && s[i].offset == levels[s[i].mipMapLevel - first].offset
              && s[i].size == levels[s[i].mipMapLevel - first].imageSize
    {
      if i < |images| {
        assert s[i] == images[i];
      } else {
        assert s[i] == rest[i - |images|];
        assert levels[s[i].mipMapLevel - first] == tail[s[i].mipMapLevel - (first + 1)];
      }
    }
  }

  lemma InRangeCons(images: seq<SubImage>, rest: seq<SubImage>, offset: nat, size: uint32, lo: nat, hi: nat,
                    elements: nat, faces: nat, depth: nat)
    requires lo < hi
    requires Within(images, offset, size, lo, elements, faces, depth)
    requires InRange(rest, lo + 1, hi, elements, faces, depth)
    ensures InRange(images + rest, lo, hi, elements, faces, depth)
  {
    var s := images + rest;
    forall i | 0 <= i < |s|
      ensures && lo <= s[i].mipMapLevel < hi
              && s[i].arrayElement < elements && s[i].face < faces && s[i].zSlice < depth
    {
      if i < |images| {
        assert s[i] == images[i];
      } else {
        assert s[i] == rest[i - |images|];
      }
    }
  }

  /** Every entry takes its offset and size from its own level. */
  lemma {:induction false} ExpandFromLevels(levels: seq<Level>, first: nat, elements: nat, faces: nat, depth: nat)
    ensures FromLevels(Expand(levels, first, elements, faces, depth), levels, first)
    decreases |levels|
  {
    if levels != [] {
      ElementsShape(levels[0].offset, levels[0].imageSize, first, faces, depth, elements);
      ExpandFromLevels(levels[1..], first + 1, elements, faces, depth);
      assert levels == [levels[0]] + levels[1..];
      FromLevelsCons(Elements(levels[0].offset, levels[0].imageSize, first, faces, depth, elements),
        Expand(levels[1..], first + 1, elements, faces, depth), levels[0], levels[1..], first, elements, faces, depth);
    }
  }

  /** Every entry's coordinates lie within the loop ranges. */
  lemma {:induction false} ExpandRange(levels: seq<Level>, first: nat, elements: nat, faces: nat, depth: nat)
    ensures InRange(Expand(levels, first, elements, faces, depth), first, first + |levels|, elements, faces, depth)
    decreases |levels|
  {
    if levels != [] {
      ElementsShape(levels[0].offset, levels[0].imageSize, first, faces, depth, elements);
      ExpandRange(levels[1..], first + 1, elements, faces, depth);
      InRangeCons(Elements(levels[0].offset, levels[0].imageSize, first, faces, depth, elements),
        Expand(levels[1..], first + 1, elements, faces, depth), levels[0].offset, levels[0].imageSize,
        first, first + |levels|, elements, faces, depth);
    }
  }

  /** The entries are strictly in file order. */
  lemma {:induction false} ExpandOrdered(levels: seq<Level>, first: nat, elements: nat, faces: nat, depth: nat)
    ensures Ordered(Expand(levels, first, elements, faces, depth))
    decreases |levels|
  {
    if levels != [] {
      var images := Elements(levels[0].offset, levels[0].imageSize, first, faces, depth, elements);
      var rest := Expand(levels[1..], first + 1, elements, faces, depth);
      ElementsShape(levels[0].offset, levels[0].imageSize, first, faces, depth, elements);
      ElementsOrdered(levels[0].offset, levels[0].imageSize, first, faces, depth, elements);
      ExpandRange(levels[1..], first + 1, elements, faces, depth);
      ExpandOrdered(levels[1..], first + 1, elements, faces, depth);
      assert forall i, j | 0 <= i < |images| && 0 <= j < |rest| :: Before(images[i], rest[j]);
      OrderedConcat(images, rest);
    }
  }

  /** Level placement carries over to the entries made from the levels. */
  lemma FieldsFromLevels(data: seq<byte>, s: seq<SubImage>, levels: seq<Level>, big: bool, from: nat, end: nat)
    requires FromLevels(s, levels, 0) && LevelFieldsBefore(data, levels, big, from, end)
    ensures SizeFieldsBefore(data, s, big, from, end)
  {
  }

  /** Level chaining carries over to the entries made from the levels. */
  lemma ChainedFromLevels(s: seq<SubImage>, levels: seq<Level>)
    requires FromLevels(s, levels, 0) && LevelsChained(levels)
    ensures Chained(s)
  {
    forall i, j | 0 <= i < |s| && 0 <= j < |s| && s[j].mipMapLevel == s[i].mipMapLevel + 1
      ensures s[j].offset == RoundUp(s[i].offset + s[i].size, 4) + 4
    {
      var k := s[i].mipMapLevel;
      assert levels[k + 1].offset == RoundUp(levels[k].offset + levels[k].imageSize, 4) + 4;
    }
  }

  /** Level alignment carries over to the entries made from the levels. */
  lemma AlignedFromLevels(s: seq<SubImage>, levels: seq<Level>)
    requires FromLevels(s, levels, 0) && LevelsAligned(levels)
    ensures AllAligned(s)
  {
  }

  /** Outside the cube-map case the list is the expansion of the levels read. */
  lemma SubImageOffsetsLevels(data: seq<byte>, c: Cursor, h: Header)
    requires SubImageOffsets(data, c, h).Ok? && !IsUnlaidCubeMap(h)
    ensures ReadLevels(data, c, h.isBigEndian, LoopCount(h.numberOfMipmapLevels)).Ok?
    ensures SubImageOffsets(data, c, h).value.value
            == Expand(ReadLevels(data, c, h.isBigEndian, LoopCount(h.numberOfMipmapLevels)).value.value, 0,
                      LoopCount(h.numberOfArrayElements), LoopCount(h.numberOfFaces), LoopCount(h.pixelDepth))
  {
  }

  /**
   * The shape of the whole list: a cube map without array elements yields nothing and leaves the
   * reader where it was; otherwise there is one entry per combination of the raised counts,
   * strictly in file order, with every coordinate in range.
   */
  lemma SubImageOffsetsShape(data: seq<byte>, c: Cursor, h: Header)
    requires SubImageOffsets(data, c, h).Ok?
    ensures IsUnlaidCubeMap(h) ==> SubImageOffsets(data, c, h).value == Read([], c)
    ensures !IsUnlaidCubeMap(h) ==>
      |SubImageOffsets(data, c, h).value.value| == LoopCount(h.numberOfMipmapLevels)
        * (LoopCount(h.numberOfArrayElements) * (LoopCount(h.numberOfFaces) * LoopCount(h.pixelDepth)))
    ensures Ordered(SubImageOffsets(data, c, h).value.value)
    ensures InRange(SubImageOffsets(data, c, h).value.value, 0, LoopCount(h.numberOfMipmapLevels),
                    LoopCount(h.numberOfArrayElements), LoopCount(h.numberOfFaces), LoopCount(h.pixelDepth))
  {
    if !IsUnlaidCubeMap(h) {
      var m, a, f, d := LoopCount(h.numberOfMipmapLevels), LoopCount(h.numberOfArrayElements),
        LoopCount(h.numberOfFaces), LoopCount(h.pixelDepth);
      var levels := ReadLevels(data, c, h.isBigEndian, m).value.value;
      ReadLevelsCount(data, c, h.isBigEndian, m);
      ExpandCount(levels, 0, a, f, d);
      ExpandRange(levels, 0, a, f, d);
      ExpandOrdered(levels, 0, a, f, d);
    }
  }

  /**
   * Every entry lies inside the reader's window, right after the imageSize field it carries,
   * and the first level starts right after the first such field.
   */
  lemma SubImageOffsetsFields(data: seq<byte>, c: Cursor, h: Header)
    requires SubImageOffsets(data, c, h).Ok?
    ensures SizeFieldsBefore(data, SubImageOffsets(data, c, h).value.value, h.isBigEndian, c.Absolute(), c.start + c.size)
    ensures forall i | 0 <= i < |SubImageOffsets(data, c, h).value.value| &&
                       SubImageOffsets(data, c, h).value.value[i].mipMapLevel == 0 ::
              SubImageOffsets(data, c, h).value.value[i].offset == c.Absolute() + 4
  {
    if !IsUnlaidCubeMap(h) {
      var m := LoopCount(h.numberOfMipmapLevels);
      SubImageOffsetsLevels(data, c, h);
      var levels := ReadLevels(data, c, h.isBigEndian, m).value.value;
      ReadLevelsCount(data, c, h.isBigEndian, m);
      ReadLevelsFields(data, c, h.isBigEndian, m);
      ExpandFromLevels(levels, 0, LoopCount(h.numberOfArrayElements), LoopCount(h.numberOfFaces), LoopCount(h.pixelDepth));
      if m > 0 {
        ReadLevelOffset(data, c, h.isBigEndian);
      }
      FieldsFromLevels(data, SubImageOffsets(data, c, h).value.value, levels, h.isBigEndian, c.Absolute(), c.start + c.size);
    }
  }

  /**
   * In a window that starts at a multiple of 4, each level starts four bytes after the 4-byte
   * boundary that follows the previous level's image data.
   */
  lemma SubImageOffsetsChained(data: seq<byte>, c: Cursor, h: Header)
    requires c.start % 4 == 0
    requires SubImageOffsets(data, c, h).Ok?
    ensures Chained(SubImageOffsets(data, c, h).value.value)
  {
    if !IsUnlaidCubeMap(h) {
      var m := LoopCount(h.numberOfMipmapLevels);
      SubImageOffsetsLevels(data, c, h);
      var levels := ReadLevels(data, c, h.isBigEndian, m).value.value;
      ReadLevelsChained(data, c, h.isBigEndian, m);
      ExpandFromLevels(levels, 0, LoopCount(h.numberOfArrayElements), LoopCount(h.numberOfFaces), LoopCount(h.pixelDepth));
      ChainedFromLevels(SubImageOffsets(data, c, h).value.value, levels);
    }
  }

  /** From a 4-aligned position in a window that starts at a multiple of 4, every entry is 4-aligned. */
  lemma SubImageOffsetsAligned(data: seq<byte>, c: Cursor, h: Header)
    requires c.start % 4 == 0 && c.pos % 4 == 0
    requires SubImageOffsets(data, c, h).Ok?
    ensures AllAligned(SubImageOffsets(data, c, h).value.value)
  {
    if !IsUnlaidCubeMap(h) {
      var m := LoopCount(h.numberOfMipmapLevels);
      SubImageOffsetsLevels(data, c, h);
      var levels := ReadLevels(data, c, h.isBigEndian, m).value.value;
      ReadLevelsAligned(data, c, h.isBigEndian, m);
      ExpandFromLevels(levels, 0, LoopCount(h.numberOfArrayElements), LoopCount(h.numberOfFaces), LoopCount(h.pixelDepth));
      AlignedFromLevels(SubImageOffsets(data, c, h).value.value, levels);
    }
  }

  /** From a 4-aligned offset in a window starting at a multiple of 4, the list is laid out. */
  lemma SubImageOffsetsLaidOut(data: seq<byte>, c: Cursor, h: Header)
    requires c.start % 4 == 0 && c.pos % 4 == 0
    requires SubImageOffsets(data, c, h).Ok?
    ensures LaidOut(data, SubImageOffsets(data, c, h).value.value, h, c.Absolute(), c.start + c.size)
  {
    SubImageOffsetsShape(data, c, h);
    SubImageOffsetsFields(data, c, h);
    SubImageOffsetsChained(data, c, h);
    SubImageOffsetsAligned(data, c, h);
  }
}
