/**
 * CRTC to RAM address translation (ch22-core/src/video/video_memory_access.rs).
 *
 * The 6845 CRTC puts out 14-bit character addresses. In the BBC Micro's
 * high-resolution modes (CRTC addresses below 0x2000) each character is
 * eight scanline bytes, so an address maps to eight times itself. Addresses
 * at 0x1000 and above wrap round to the start of the screen, whose size the
 * two IC32 latch bits 4 and 5 select. In teletext mode (0x2000 and above)
 * each character is one byte of a 1 KiB page at 0x3c00 or 0x7c00, chosen by
 * address bit 11.
 *
 * Addresses and lengths are integers bounded by the source's `u16` and `u8`;
 * nothing here can overflow, because a 14-bit address plus a byte length is
 * below 0x10000.
 */
module VideoMemoryAccess {
  type U8 = x: int | 0 <= x < 0x100
  type U16 = x: int | 0 <= x < 0x10000

  /** What kind of memory a run of CRTC addresses reads. */
  datatype CrtcRangeType = HiRes | Teletext | Mixed | Empty

  /** `a & 0x3fff`: the CRTC address is fourteen bits wide. */
  function Masked(a: nat): nat {
    a % 0x4000
  }

  /**
   * The kind of a run of `length` CRTC addresses from `start`, judged by its
   * first and last (inclusive) address.
   */
  function RangeType(start: U16, length: U8): (t: CrtcRangeType)
    ensures t == Empty <==> length == 0
  {
    if length == 0 then Empty
    else
      var s := Masked(start);
      var e := Masked(s + length - 1);
      if s < 0x2000 && e < 0x2000 then HiRes
      else if s >= 0x2000 && e >= 0x2000 then Teletext
      else Mixed
  }

  /** A half-open range of RAM addresses (`Range<u16>`). */
  datatype Span = Span(start: int, end: int)

  /** A RAM address with the region of RAM it belongs to. */
  datatype Translated = Translated(address: int, region: Span)

  datatype SecondSpan = NoSecond | Second(span: Span)

  /** The RAM a run of CRTC addresses reads: one range, or two when it wraps. */
  datatype MemoryRanges = MemoryRanges(first: Span, second: SecondSpan)

  /** IC32 latch bits 5 and 4, which select the screen size. */
  function ScreenMode(latch: U8): int {
    (latch / 16) % 4
  }

  /** The CRTC addresses by which a wrapping screen is pulled back: a screen of 8 times this many bytes. */
  function Adjustment(mode: int): int {
    if mode == 0 then 0x800
    else if mode == 1 then 0x400
    else if mode == 2 then 0xa00
    else 0x500
  }

  /** The screen's first RAM address: 0x4000, 0x6000, 0x3000 or 0x5800. */
  function ScreenStart(mode: int): int {
    0x8000 - 8 * Adjustment(mode)
  }

  /** The teletext page an address in 0x2000..0x4000 falls on: bit 11 picks 0x7c00 over 0x3c00. */
  function TeletextBase(a: int): int {
    if (a / 0x800) % 2 == 0 then 0x3c00 else 0x7c00
  }

  /**
   * The translation table as the source writes it. Its arm for an address
   * past the wrap point reports the region 0x0000..0x8000 although the
   * addresses it gives stop at the screen start.
   */
  function TranslateAddressAsWritten(a: int, latch: U8): Translated
    requires 0 <= a < 0x4000
  {
    var mode := ScreenMode(latch);
    if a < 0x1000 then Translated(a * 8, Span(0x0000, 0x8000))
    else if a < 0x1a00 && mode == 2 then Translated((a - 0x0a00) * 8, Span(0x3000, 0x8000))
    else if a < 0x2000 && mode == 2 then Translated((a - 0x1a00) * 8, Span(0x0000, 0x8000))
    else if a < 0x1800 && mode == 0 then Translated((a - 0x0800) * 8, Span(0x4000, 0x8000))
    else if a < 0x2000 && mode == 0 then Translated((a - 0x1800) * 8, Span(0x0000, 0x8000))
    else if a < 0x1500 && mode == 3 then Translated((a - 0x0500) * 8, Span(0x5800, 0x8000))
    else if a < 0x2000 && mode == 3 then Translated((a - 0x1500) * 8, Span(0x0000, 0x8000))
    else if a < 0x1400 && mode == 1 then Translated((a - 0x0400) * 8, Span(0x6000, 0x8000))
    else if a < 0x2000 && mode == 1 then Translated((a - 0x1400) * 8, Span(0x0000, 0x8000))
    else if a < 0x2800 then Translated(0x3c00 + a % 0x400, Span(0x3c00, 0x4000))
    else if a < 0x3000 then Translated(0x7c00 + a % 0x400, Span(0x7c00, 0x8000))
    else if a < 0x3800 then Translated(0x3c00 + a % 0x400, Span(0x3c00, 0x4000))
    else Translated(0x7c00 + a % 0x400, Span(0x7c00, 0x8000))
  }

  /**
   * The translation with each region as large as the addresses in it: past
   * the wrap point the region ends at the screen start.
   */
  function TranslateAddress(a: int, latch: U8): Translated
    requires 0 <= a < 0x4000
  {
    var d := Adjustment(ScreenMode(latch));
    if a < 0x1000 then Translated(8 * a, Span(0, 0x8000))
    else if a < 0x1000 + d then Translated(8 * (a - d), Span(0x8000 - 8 * d, 0x8000))
    else if a < 0x2000 then Translated(8 * (a - 0x1000 - d), Span(0, 0x8000 - 8 * d))
    else Translated(TeletextBase(a) + a % 0x400, Span(TeletextBase(a), TeletextBase(a) + 0x400))
  }

  /**
   * The ranges between a translated first address and a translated
   * exclusive end: one range within a region; up to the region's end when the
   * end is the start of the next region; otherwise two ranges, the wrap.
   */
  function Combine(start: Translated, end: Translated): MemoryRanges {
    if start.address < end.address && start.region == end.region then
      MemoryRanges(Span(start.address, end.address), NoSecond)
    else if end.address == end.region.start then
      MemoryRanges(Span(start.address, start.region.end), NoSecond)
    else
      MemoryRanges(Span(start.address, start.region.end), Second(Span(end.region.start, end.address)))
  }

  function TranslateRangeAsWritten(start: U16, length: U8, latch: U8): MemoryRanges {
    var s := Masked(start);
    Combine(TranslateAddressAsWritten(s, latch), TranslateAddressAsWritten(Masked(s + length), latch))
  }

  /** The RAM read for `length` CRTC addresses from `start`. */
  function TranslateRange(start: U16, length: U8, latch: U8): MemoryRanges {
    var s := Masked(start);
    Combine(TranslateAddress(s, latch), TranslateAddress(Masked(s + length), latch))
  }

  function Size(sp: Span): int {
    sp.end - sp.start
  }

  /** The number of bytes the ranges cover. */
  function Total(r: MemoryRanges): int {
    Size(r.first) + (if r.second.Second? then Size(r.second.span) else 0)
  }

  /** Every range runs forwards and lies in RAM below 0x8000. */
  predicate InRam(r: MemoryRanges) {
    && 0 <= r.first.start <= r.first.end <= 0x8000
    && (r.second.Second? ==> 0 <= r.second.span.start <= r.second.span.end <= 0x8000)
  }

  // ------------------------------------------------------------ properties

  /** The `k`th address of a run, masked. */
  function RunAddress(start: U16, k: nat): nat {
    Masked(Masked(start) + k)
  }

  /** A run is high-resolution exactly when every address in it is below 0x2000. */
  lemma HiResMeansAllBelow(start: U16, length: U8)
    ensures RangeType(start, length) == HiRes <==>
      length > 0 && forall k :: 0 <= k < length ==> RunAddress(start, k) < 0x2000
  {
    var s := Masked(start);
    if RangeType(start, length) == HiRes {
      assert s + length - 1 < 0x4000;
      forall k | 0 <= k < length ensures RunAddress(start, k) < 0x2000 {
        assert RunAddress(start, k) == s + k;
      }
    }
    if length > 0 && forall k :: 0 <= k < length ==> RunAddress(start, k) < 0x2000 {
      assert RunAddress(start, 0) < 0x2000;
      assert RunAddress(start, length - 1) < 0x2000;
    }
  }

  /** A run is teletext exactly when every address in it is at 0x2000 or above. */
  lemma TeletextMeansAllAbove(start: U16, length: U8)
    ensures RangeType(start, length) == Teletext <==>
      length > 0 && forall k :: 0 <= k < length ==> RunAddress(start, k) >= 0x2000
  {
    var s := Masked(start);
    if RangeType(start, length) == Teletext {
      assert s + length - 1 < 0x4000;
      forall k | 0 <= k < length ensures RunAddress(start, k) >= 0x2000 {
        assert RunAddress(start, k) == s + k;
      }
    }
    if length > 0 && forall k :: 0 <= k < length ==> RunAddress(start, k) >= 0x2000 {
      assert RunAddress(start, 0) >= 0x2000;
      assert RunAddress(start, length - 1) >= 0x2000;
    }
  }

  /** Only fourteen address bits matter: a start and the same start plus 0x4000 read the same RAM. */
  lemma MaskedStartsAgree(start: U16, length: U8, latch: U8)
    requires start + 0x4000 < 0x10000
    ensures TranslateRange(start + 0x4000, length, latch) == TranslateRange(start, length, latch)
    ensures RangeType(start + 0x4000, length) == RangeType(start, length)
  {
    assert Masked(start + 0x4000) == Masked(start);
  }

  /** A translated address lies in its region, and the region in RAM below 0x8000. */
  lemma TranslatedInRegion(a: int, latch: U8)
    requires 0 <= a < 0x4000
    ensures var t := TranslateAddress(a, latch);
      0 <= t.region.start <= t.address < t.region.end <= 0x8000
  {
  }

  /** The unwrapped high-resolution addresses are eight bytes apart. */
  lemma HiResUnwrapped(a: int, latch: U8)
    requires 0 <= a < 0x1000
    ensures TranslateAddress(a, latch).address == 8 * a
  {
  }

  /**
   * An independent statement of the high-resolution translation: eight bytes
   * per address, and an address that would reach 0x8000 or beyond is pulled
   * back by the screen size and wraps within 0x8000.
   */
  function HiResReference(a: int, latch: U8): int {
    var x := 8 * a;
    if x < 0x8000 then x else (x - 8 * Adjustment(ScreenMode(latch))) % 0x8000
  }

  lemma HiResMatchesReference(a: int, latch: U8)
    requires 0 <= a < 0x2000
    ensures TranslateAddress(a, latch).address == HiResReference(a, latch)
  {
  }

  /** Teletext addresses: 0x3c00 or 0x7c00 by bit 11, plus the low ten bits. */
  lemma TeletextTranslation(a: int, latch: U8)
    requires 0x2000 <= a < 0x4000
    ensures TranslateAddress(a, latch).address == (if (a / 0x800) % 2 == 1 then 0x7c00 else 0x3c00) + a % 0x400
  {
  }

  /** The source's table gives the same addresses; the regions differ only past the wrap point. */
  lemma AsWrittenAddressesAgree(a: int, latch: U8)
    requires 0 <= a < 0x4000
    ensures TranslateAddressAsWritten(a, latch).address == TranslateAddress(a, latch).address
    ensures (a < 0x1000 + Adjustment(ScreenMode(latch)) || a >= 0x2000) ==>
      TranslateAddressAsWritten(a, latch).region == TranslateAddress(a, latch).region
    ensures 0x1000 + Adjustment(ScreenMode(latch)) <= a < 0x2000 ==>
      TranslateAddressAsWritten(a, latch).region == Span(0, 0x8000) &&
      TranslateAddress(a, latch).region == Span(0, ScreenStart(ScreenMode(latch)))
  {
  }

  // ---------------------------------------------- high-resolution totals

  /** The three high-resolution zones: unwrapped, wrapping from the top, wrapped to the start. */
  function Zone(a: int, d: int): int {
    if a < 0x1000 then 0 else if a < 0x1000 + d then 1 else 2
  }

  /** Start and exclusive end in one zone: one range of eight bytes per address. */
  lemma HiResSameZone(s: int, e: int, latch: U8)
    requires 0 <= s < e < 0x2000
    requires Zone(s, Adjustment(ScreenMode(latch))) == Zone(e, Adjustment(ScreenMode(latch)))
    ensures var r := Combine(TranslateAddress(s, latch), TranslateAddress(e, latch));
      r.second == NoSecond && Total(r) == 8 * (e - s) && InRam(r)
  {
  }

  /** The end lands exactly on the start of the next zone (or of teletext): one range up to the region end. */
  lemma HiResEndOnBoundary(s: int, e: int, latch: U8)
    requires 0 <= s < e <= 0x2000 && e - s < 0x100
    requires e == 0x1000 || e == 0x1000 + Adjustment(ScreenMode(latch)) || e == 0x2000
    requires Zone(s, Adjustment(ScreenMode(latch))) == Zone(e - 1, Adjustment(ScreenMode(latch)))
    ensures var r := Combine(TranslateAddress(s, latch), TranslateAddress(e, latch));
      r.second == NoSecond && Total(r) == 8 * (e - s) && InRam(r)
  {
  }

  /** The end lies past the start of the next zone: two ranges, the second from that zone's region start. */
  lemma HiResAcrossBoundary(s: int, e: int, latch: U8)
    requires 0 <= s < e < 0x2000 && e - s < 0x100
    requires Zone(s, Adjustment(ScreenMode(latch))) + 1 == Zone(e, Adjustment(ScreenMode(latch)))
    requires e != 0x1000 && e != 0x1000 + Adjustment(ScreenMode(latch))
    ensures var r := Combine(TranslateAddress(s, latch), TranslateAddress(e, latch));
      r.second.Second? && Total(r) == 8 * (e - s) && InRam(r)
  {
  }

  /** A high-resolution run ends, exclusively, at CRTC 0x2000 at the latest. */
  lemma HiResEnd(start: U16, length: U8)
    requires RangeType(start, length) == HiRes
    ensures Masked(start) + length <= 0x2000
  {
  }

  /** A high-resolution run reads eight bytes of RAM per CRTC address, all within RAM. */
  lemma HiResTotal(start: U16, length: U8, latch: U8)
    requires RangeType(start, length) == HiRes
    ensures Total(TranslateRange(start, length, latch)) == 8 * length
    ensures InRam(TranslateRange(start, length, latch))
  {
    var s := Masked(start);
    var e := s + length;
    var d := Adjustment(ScreenMode(latch));
    HiResEnd(start, length);
    var r := TranslateRange(start, length, latch);
    assert r == Combine(TranslateAddress(s, latch), TranslateAddress(e, latch)) by {
      assert Masked(e) == e;
    }
    if e == 0x1000 || e == 0x1000 + d || e == 0x2000 {
      HiResEndOnBoundary(s, e, latch);
    } else if Zone(s, d) == Zone(e, d) {
      HiResSameZone(s, e, latch);
    } else {
      HiResAcrossBoundary(s, e, latch);
    }
  }

  // ------------------------------------------------------- teletext totals

  /** The teletext block of 0x400 CRTC addresses an address falls in. */
  function Block(a: int): int {
    a / 0x400
  }

  lemma TeletextSameBlock(s: int, e: int, latch: U8)
    requires 0x2000 <= s < e < 0x4000 && Block(s) == Block(e)
    ensures var r := Combine(TranslateAddress(s, latch), TranslateAddress(e, latch));
      r.second == NoSecond && Total(r) == e - s && InRam(r)
  {
  }

  lemma TeletextEndOnBlock(s: int, e: int, latch: U8)
    requires 0x2000 <= s < e < 0x4000 && e % 0x400 == 0 && e - s < 0x100
    ensures var r := Combine(TranslateAddress(s, latch), TranslateAddress(e, latch));
      r.second == NoSecond && Total(r) == e - s && InRam(r)
  {
  }

  lemma TeletextAcrossBlock(s: int, e: int, latch: U8)
    requires 0x2000 <= s < e < 0x4000 && e - s < 0x100 && Block(s) + 1 == Block(e) && e % 0x400 != 0
    ensures var r := Combine(TranslateAddress(s, latch), TranslateAddress(e, latch));
      r.second.Second? && Total(r) == e - s && InRam(r)
  {
  }

  /** A run ending at the top of the CRTC address space stops at its page's end; the end wraps to address 0. */
  lemma TeletextEndAtTop(s: int, latch: U8)
    requires 0x4000 - 0x100 < s < 0x4000
    ensures var r := Combine(TranslateAddress(s, latch), TranslateAddress(0, latch));
      r.second == NoSecond && Total(r) == 0x4000 - s && InRam(r)
  {
  }

  /** A teletext run stays within 0x2000..0x4000, its exclusive end at most 0x4000. */
  lemma TeletextEnd(start: U16, length: U8)
    requires RangeType(start, length) == Teletext
    ensures 0x2000 <= Masked(start) && Masked(start) + length <= 0x4000
  {
  }

  /** A teletext run reads one byte of RAM per CRTC address, all within RAM. */
  lemma TeletextTotal(start: U16, length: U8, latch: U8)
    requires RangeType(start, length) == Teletext
    ensures Total(TranslateRange(start, length, latch)) == length
    ensures InRam(TranslateRange(start, length, latch))
  {
    var s := Masked(start);
    var e := s + length;
    TeletextEnd(start, length);
    var r := TranslateRange(start, length, latch);
    if e == 0x4000 {
      assert r == Combine(TranslateAddress(s, latch), TranslateAddress(0, latch)) by {
        assert Masked(e) == 0;
      }
      TeletextEndAtTop(s, latch);
    } else {
      assert r == Combine(TranslateAddress(s, latch), TranslateAddress(e, latch)) by {
        assert Masked(e) == e;
      }
      TeletextInside(s, e, latch);
    }
  }

  lemma TeletextInside(s: int, e: int, latch: U8)
    requires 0x2000 <= s < e < 0x4000 && e - s < 0x100
    ensures var r := Combine(TranslateAddress(s, latch), TranslateAddress(e, latch));
      Total(r) == e - s && InRam(r)
  {
    if e % 0x400 == 0 {
      TeletextEndOnBlock(s, e, latch);
    } else if Block(s) == Block(e) {
      TeletextSameBlock(s, e, latch);
    } else {
      TeletextAcrossBlock(s, e, latch);
    }
  }

  // --------------------------------------------------- the source's table

  /**
   * The source's table reads past the screen: a high-resolution run of one
   * address ending at CRTC 0x2000 comes back as 0x3ff8..0x8000, 0x4008 bytes
   * instead of eight.
   */
  lemma AsWrittenOverreads()
    ensures RangeType(0x1fff, 1) == HiRes
    ensures TranslateRangeAsWritten(0x1fff, 1, 0) == MemoryRanges(Span(0x3ff8, 0x8000), NoSecond)
    ensures Total(TranslateRangeAsWritten(0x1fff, 1, 0)) == 0x4008
  {
    assert ScreenMode(0) == 0;
    assert TranslateAddressAsWritten(0x1fff, 0) == Translated(0x3ff8, Span(0, 0x8000));
    assert TranslateAddressAsWritten(0x2000, 0) == Translated(0x3c00, Span(0x3c00, 0x4000));
  }

  /** The corrected table gives the run's eight bytes, 0x3ff8..0x4000. */
  lemma CorrectedStopsAtScreenStart()
    ensures TranslateRange(0x1fff, 1, 0) == MemoryRanges(Span(0x3ff8, 0x4000), NoSecond)
  {
    assert ScreenMode(0) == 0;
    assert TranslateAddress(0x1fff, 0) == Translated(0x3ff8, Span(0, 0x4000));
    assert TranslateAddress(0x2000, 0) == Translated(0x3c00, Span(0x3c00, 0x4000));
  }

  /** Away from that case the source's table and the corrected one give the same ranges. */
  lemma AsWrittenAgreesOtherwise(start: U16, length: U8, latch: U8)
    requires RangeType(start, length) == HiRes || RangeType(start, length) == Teletext
    requires Masked(start) + length != 0x2000
    ensures TranslateRangeAsWritten(start, length, latch) == TranslateRange(start, length, latch)
  {
    var s := Masked(start);
    var e := Masked(s + length);
    AsWrittenAddressesAgree(s, latch);
    AsWrittenAddressesAgree(e, latch);
    CombineAgrees(TranslateAddressAsWritten(s, latch), TranslateAddressAsWritten(e, latch),
      TranslateAddress(s, latch), TranslateAddress(e, latch));
  }

  /**
   * Translations with the same addresses combine alike when the start
   * regions and the end regions' starts agree and both pairs share a region
   * or both do not, or when both pairs run forwards within one region.
   */
  lemma CombineAgrees(a: Translated, b: Translated, c: Translated, d: Translated)
    requires a.address == c.address && b.address == d.address
    requires (a.region == c.region && b.region.start == d.region.start && (a.region == b.region <==> c.region == d.region)) ||
      (a.address < b.address && a.region == b.region && c.region == d.region)
    ensures Combine(a, b) == Combine(c, d)
  {
  }
}
