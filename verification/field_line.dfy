/**
 * One scanline of captured video state (ch22-core/src/video/field_line.rs):
 * a packed record of flags, ULA control, character counts, the ULA palette
 * and up to 100 bytes of character data, which the renderer reads as 116
 * bytes per line.
 *
 * The flags byte and the character data are bytes (`bv8`). The palette is
 * kept as the eight bytes of its `u64` in memory order (little-endian); how
 * its sixteen nibbles are packed is part of the video registers.
 */
module FieldLines {
  /** Room for character data in one line. */
  const MaxChars: nat := 100

  /** The renderer's bytes per line (`FIELD_DATA_SOURCE_BYTES_PER_LINE`). */
  const RendererBytesPerLine: nat := 116

  // The flag bits.
  const Displayed: bv8 := 0x01
  const HasBytes: bv8 := 0x02
  const InvalidRange: bv8 := 0x04
  const InterlaceVideoAndSync: bv8 := 0x08
  const CursorRasterEven: bv8 := 0x10
  const CursorRasterOdd: bv8 := 0x20

  datatype FieldLine = FieldLine(
    flags: bv8,
    ulaControl: bv8,
    totalChars: bv8,
    backPorch: bv8,
    cursorChar: bv8,
    ulaPalette: seq<bv8>,
    charData: seq<bv8>)

  /** The palette is the eight bytes of a `u64` and the character data is exactly 100 bytes. */
  predicate Valid(l: FieldLine) {
    |l.ulaPalette| == 8 && |l.charData| == MaxChars
  }

  function Zeros(n: nat): (r: seq<bv8>)
    ensures |r| == n && forall i :: 0 <= i < n ==> r[i] == 0
  {
    seq(n, _ => 0)
  }

  /** The all-zero line of `Default::default`. */
  function DefaultLine(): (l: FieldLine)
    ensures Valid(l)
  {
    FieldLine(0, 0, 0, 0, 0, Zeros(8), Zeros(MaxChars))
  }

  // ----------------------------------------------------------------- flags

  /** Whether every bit of `bit` is set in `f`. */
  predicate HasFlag(f: bv8, bit: bv8) {
    f & bit == bit
  }

  /** The bits of `f` outside `bits`. */
  function Others(f: bv8, bits: bv8): bv8 {
    f & !bits
  }

  function WithFlag(f: bv8, bit: bv8): bv8 {
    f | bit
  }

  /** Bits 4 and 5 replaced by `even` and `odd`. */
  function CursorFlags(f: bv8, even: bool, odd: bool): bv8 {
    Others(f, CursorRasterEven | CursorRasterOdd)
      | (if even then CursorRasterEven else 0)
      | (if odd then CursorRasterOdd else 0)
  }

  function Clear(l: FieldLine): FieldLine {
    l.(flags := 0)
  }

  function SetDisplayed(l: FieldLine): FieldLine {
    l.(flags := WithFlag(l.flags, Displayed))
  }

  function SetInvalidRange(l: FieldLine): FieldLine {
    l.(flags := WithFlag(l.flags, InvalidRange))
  }

  function SetInterlaceVideoAndSync(l: FieldLine): FieldLine {
    l.(flags := WithFlag(l.flags, InterlaceVideoAndSync))
  }

  function SetCursorRasterFlags(l: FieldLine, even: bool, odd: bool): FieldLine {
    l.(flags := CursorFlags(l.flags, even, odd))
  }

  /** The flag bits in order, bit 0 to bit 5. */
  const FlagBits: seq<bv8> := [Displayed, HasBytes, InvalidRange, InterlaceVideoAndSync, CursorRasterEven, CursorRasterOdd]

  /** The six flags are single bits, no two of them the same. */
  lemma FlagsDistinctBits()
    ensures forall i :: 0 <= i < |FlagBits| ==> FlagBits[i] != 0 && FlagBits[i] & (FlagBits[i] - 1) == 0
    ensures forall i, j :: 0 <= i < j < |FlagBits| ==> FlagBits[i] & FlagBits[j] == 0
  {
  }

  /** OR-ing in a single bit sets that bit and keeps every other bit. */
  lemma WithFlagOwnBit(f: bv8, bit: bv8)
    ensures HasFlag(WithFlag(f, bit), bit)
    ensures Others(WithFlag(f, bit), bit) == Others(f, bit)
  {
  }

  /** `clear` zeroes the flags and keeps everything else. */
  lemma ClearOnlyFlags(l: FieldLine)
    ensures Clear(l).flags == 0
    ensures Clear(l) == l.(flags := Clear(l).flags)
  {
  }

  lemma SetDisplayedOnlyItsBit(l: FieldLine)
    ensures HasFlag(SetDisplayed(l).flags, Displayed)
    ensures Others(SetDisplayed(l).flags, Displayed) == Others(l.flags, Displayed)
    ensures SetDisplayed(l) == l.(flags := SetDisplayed(l).flags)
  {
    WithFlagOwnBit(l.flags, Displayed);
  }

  lemma SetInvalidRangeOnlyItsBit(l: FieldLine)
    ensures HasFlag(SetInvalidRange(l).flags, InvalidRange)
    ensures Others(SetInvalidRange(l).flags, InvalidRange) == Others(l.flags, InvalidRange)
    ensures SetInvalidRange(l) == l.(flags := SetInvalidRange(l).flags)
  {
    WithFlagOwnBit(l.flags, InvalidRange);
  }

  lemma SetInterlaceOnlyItsBit(l: FieldLine)
    ensures HasFlag(SetInterlaceVideoAndSync(l).flags, InterlaceVideoAndSync)
    ensures Others(SetInterlaceVideoAndSync(l).flags, InterlaceVideoAndSync) == Others(l.flags, InterlaceVideoAndSync)
    ensures SetInterlaceVideoAndSync(l) == l.(flags := SetInterlaceVideoAndSync(l).flags)
  {
    WithFlagOwnBit(l.flags, InterlaceVideoAndSync);
  }

  /** Bits 4 and 5 become `even` and `odd`; the other six bits are kept. */
  lemma CursorFlagsBits(f: bv8, even: bool, odd: bool)
    ensures HasFlag(CursorFlags(f, even, odd), CursorRasterEven) <==> even
    ensures HasFlag(CursorFlags(f, even, odd), CursorRasterOdd) <==> odd
    ensures Others(CursorFlags(f, even, odd), CursorRasterEven | CursorRasterOdd) == Others(f, CursorRasterEven | CursorRasterOdd)
  {
  }

  lemma SetCursorRasterFlagsEffect(l: FieldLine, even: bool, odd: bool)
    ensures HasFlag(SetCursorRasterFlags(l, even, odd).flags, CursorRasterEven) <==> even
    ensures HasFlag(SetCursorRasterFlags(l, even, odd).flags, CursorRasterOdd) <==> odd
    ensures Others(SetCursorRasterFlags(l, even, odd).flags, CursorRasterEven | CursorRasterOdd)
      == Others(l.flags, CursorRasterEven | CursorRasterOdd)
    ensures SetCursorRasterFlags(l, even, odd) == l.(flags := SetCursorRasterFlags(l, even, odd).flags)
  {
    CursorFlagsBits(l.flags, even, odd);
  }

  // -------------------------------------------------------- character data

  datatype Slice = NoSlice | Slice(bytes: seq<bv8>)

  function SliceLength(s: Slice): nat {
    if s.Slice? then |s.bytes| else 0
  }

  /** `dest[at..at + |src|].copy_from_slice(src)`: the bytes of `src` at `at`, the rest kept. */
  method CopyFromSlice(dest: seq<bv8>, at: nat, src: seq<bv8>) returns (r: seq<bv8>)
    requires at + |src| <= |dest|
    ensures |r| == |dest|
    ensures forall i :: 0 <= i < |src| ==> r[at + i] == src[i]
    ensures forall i :: 0 <= i < |dest| && !(at <= i < at + |src|) ==> r[i] == dest[i]
  {
    r := dest;
    var k := 0;
    while k < |src|
      invariant 0 <= k <= |src|
      invariant |r| == |dest|
      invariant forall i :: 0 <= i < k ==> r[at + i] == src[i]
      invariant forall i :: 0 <= i < |dest| && !(at <= i < at + k) ==> r[i] == dest[i]
    {
      r := r[at + k := src[k]];
      k := k + 1;
    }
  }

  /**
   * The first slice at the start of the character data and the second
   * straight after it; HAS_BYTES is set and nothing else changes.
   */
  method SetCharData(l: FieldLine, first: seq<bv8>, second: Slice) returns (r: FieldLine)
    requires Valid(l)
    requires |first| + SliceLength(second) <= MaxChars
    ensures Valid(r)
    ensures r.flags == WithFlag(l.flags, HasBytes)
    ensures r == l.(flags := r.flags, charData := r.charData)
    ensures forall i :: 0 <= i < |first| ==> r.charData[i] == first[i]
    ensures second.Slice? ==> forall i :: 0 <= i < |second.bytes| ==> r.charData[|first| + i] == second.bytes[i]
    ensures forall i :: |first| + SliceLength(second) <= i < MaxChars ==> r.charData[i] == l.charData[i]
  {
    var data := CopyFromSlice(l.charData, 0, first);
    if second.Slice? {
      data := CopyFromSlice(data, |first|, second.bytes);
    }
    r := l.(flags := WithFlag(l.flags, HasBytes), charData := data);
  }

  /**
   * `copy_into_stride_8`: byte `offset` of each eight-byte group of `source`
   * into consecutive bytes of `dest` from `start`; returns the index after
   * the last one written.
   */
  method CopyIntoStride8(dest: seq<bv8>, start: nat, source: seq<bv8>, offset: bv8) returns (r: seq<bv8>, end: nat)
    requires |source| % 8 == 0
    requires start + |source| / 8 <= |dest|
    requires offset < 8 || |source| == 0
    ensures end == start + |source| / 8
    ensures |r| == |dest|
    ensures forall i :: 0 <= i < |source| / 8 ==> r[start + i] == source[8 * i + offset as int]
    ensures forall i :: 0 <= i < |dest| && !(start <= i < end) ==> r[i] == dest[i]
  {
    end := start + |source| / 8;
    r := dest;
    var k := 0;
    while k < |source| / 8
      invariant 0 <= k <= |source| / 8
      invariant |r| == |dest|
      invariant forall i :: 0 <= i < k ==> r[start + i] == source[8 * i + offset as int]
      invariant forall i :: 0 <= i < |dest| && !(start <= i < start + k) ==> r[i] == dest[i]
    {
      r := r[start + k := source[8 * k + offset as int]];
      k := k + 1;
    }
  }

  /**
   * One raster line of high-resolution character data: byte `rasterLine` of
   * each eight-byte character cell, the first slice's cells then the
   * second's; HAS_BYTES is set.
   */
  method SetCharDataForRaster(l: FieldLine, first: seq<bv8>, second: Slice, rasterLine: bv8) returns (r: FieldLine)
    requires Valid(l)
    requires |first| % 8 == 0 && SliceLength(second) % 8 == 0
    requires |first| / 8 + SliceLength(second) / 8 <= MaxChars
    requires rasterLine < 8 || |first| + SliceLength(second) == 0
    ensures Valid(r)
    ensures r.flags == WithFlag(l.flags, HasBytes)
    ensures r == l.(flags := r.flags, charData := r.charData)
    ensures forall i :: 0 <= i < |first| / 8 ==> r.charData[i] == first[8 * i + rasterLine as int]
    ensures second.Slice? ==> forall i :: 0 <= i < |second.bytes| / 8 ==>
      r.charData[|first| / 8 + i] == second.bytes[8 * i + rasterLine as int]
    ensures forall i :: |first| / 8 + SliceLength(second) / 8 <= i < MaxChars ==> r.charData[i] == l.charData[i]
  {
    var data, firstEnd := CopyIntoStride8(l.charData, 0, first, rasterLine);
    if second.Slice? {
      data, firstEnd := CopyIntoStride8(data, firstEnd, second.bytes, rasterLine);
    }
    r := l.(flags := WithFlag(l.flags, HasBytes), charData := data);
  }

  // ---------------------------------------------------------------- layout

  /** The packed line as the renderer reads it: five bytes, three of padding, the palette, the characters. */
  function Serialise(l: FieldLine): (b: seq<bv8>)
    requires Valid(l)
    ensures |b| == RendererBytesPerLine
  {
    [l.flags, l.ulaControl, l.totalChars, l.backPorch, l.cursorChar] + Zeros(3) + l.ulaPalette + l.charData
  }

  /** Reads a packed line back, ignoring the padding. */
  function Parse(b: seq<bv8>): (l: FieldLine)
    requires |b| == RendererBytesPerLine
    ensures Valid(l)
  {
    FieldLine(b[0], b[1], b[2], b[3], b[4], b[8..16], b[16..116])
  }

  /** The field sizes of the packed record add up to the renderer's line width, a whole number of 32-bit words. */
  lemma LayoutSize()
    ensures 1 + 1 + 1 + 1 + 1 + 3 + 8 + MaxChars == RendererBytesPerLine
    ensures RendererBytesPerLine % 4 == 0
  {
  }

  /** Every field is at its packed offset: parsing the bytes gives the line back. */
  lemma ParseSerialise(l: FieldLine)
    requires Valid(l)
    ensures Parse(Serialise(l)) == l
  {
    var b := Serialise(l);
    assert b[8..16] == l.ulaPalette;
    assert b[16..116] == l.charData;
  }

  /** Bytes whose padding is zero are exactly the bytes of the line they parse to. */
  lemma SerialiseParse(b: seq<bv8>)
    requires |b| == RendererBytesPerLine
    ensures Serialise(Parse(b)) == b <==> b[5..8] == [0, 0, 0]
  {
    var l := Parse(b);
    var s := Serialise(l);
    assert s[5..8] == Zeros(3);
    if b[5..8] == [0, 0, 0] {
      assert b == b[..5] + b[5..8] + b[8..16] + b[16..];
    }
  }
}
