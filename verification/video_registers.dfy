/**
 * The video registers shared by the ULA and CRTC devices and the video
 * circuit (ch22-core/src/video/video_registers.rs): the ULA control byte,
 * the sixteen-entry ULA palette and the sixteen CRTC registers R0..R15.
 *
 * The palette is a `u64` holding sixteen four-bit entries, entry `e` in
 * bits 4e..4e+3. It is kept here as its sequence of entries; `Pack` gives
 * the `u64` value and `Entry` reads an entry back out of it.
 */
module VideoRegisters {
  type Nibble = x: int | 0 <= x < 16

  datatype VideoRegisters = VideoRegisters(ulaControl: bv8, ulaPalette: seq<Nibble>, crtc: seq<bv8>)

  predicate Valid(v: VideoRegisters) {
    |v.ulaPalette| == 16 && |v.crtc| == 16
  }

  /** The CRTC registers R0..R15 after reset. */
  const ResetCrtc: seq<bv8> := [0x7f, 0x50, 0x62, 0x28, 0x26, 0x00, 0x20, 0x22, 0x00, 0x07, 0x00, 0x00, 0x06, 0x00, 0x00, 0x00]

  const ResetUlaControl: bv8 := 0x9c

  /** Reset loads the ULA control byte and the CRTC registers; the palette is not touched. */
  function Reset(v: VideoRegisters): VideoRegisters {
    v.(ulaControl := ResetUlaControl, crtc := ResetCrtc)
  }

  /** Entry `entry` of the palette set to the low four bits of `value`. */
  function SetUlaPalette(v: VideoRegisters, entry: nat, value: bv8): VideoRegisters
    requires Valid(v) && entry < 16
  {
    v.(ulaPalette := v.ulaPalette[entry := (value & 0x0f) as int])
  }

  /** ULA control bit 1 selects teletext. */
  predicate IsUlaTeletext(v: VideoRegisters) {
    v.ulaControl & 0x02 != 0
  }

  /** R8 bits 4 and 5 both set: display blanked. */
  predicate IsCrtcScreenDelayNoOutput(v: VideoRegisters)
    requires Valid(v)
  {
    v.crtc[8] & 0x30 == 0x30
  }

  // ------------------------------------------------------- palette packing

  /** The `u64` value of a sequence of entries, the first in the lowest four bits. */
  function Pack(ns: seq<Nibble>): nat {
    if |ns| == 0 then 0 else ns[0] + 16 * Pack(ns[1..])
  }

  /** 16 to the power `e`: the weight of entry `e`. */
  function Weight(e: nat): (w: nat)
    ensures w > 0
  {
    if e == 0 then 1 else 16 * Weight(e - 1)
  }

  /** Entry `e` of a packed value: shift right by four bits `e` times and keep four bits. */
  function Entry(p: nat, e: nat): Nibble {
    if e == 0 then p % 16 else Entry(p / 16, e - 1)
  }

  /** `n` entries pack below 16^n; sixteen of them fit a `u64`. */
  lemma {:induction false} PackBound(ns: seq<Nibble>)
    ensures Pack(ns) < Weight(|ns|)
  {
    if |ns| > 0 {
      PackBound(ns[1..]);
    }
  }

  lemma SixteenEntriesFitU64()
    ensures Weight(16) == 0x1_0000_0000_0000_0000
  {
    assert Weight(4) == 0x1_0000;
    assert Weight(8) == 0x1_0000_0000;
    assert Weight(12) == 0x1_0000_0000_0000;
  }

  /** Reading entry `e` of a packed sequence gives its `e`th element. */
  lemma {:induction false} EntryOfPack(ns: seq<Nibble>, e: nat)
    requires e < |ns|
    ensures Entry(Pack(ns), e) == ns[e]
  {
    if e > 0 {
      EntryOfPack(ns[1..], e - 1);
      assert Pack(ns) / 16 == Pack(ns[1..]);
    }
  }

  lemma Regroup(a: int, t: int, x: int, n: int, w: int)
    ensures a + 16 * (t - x * w + n * w) == (a + 16 * t) - x * (16 * w) + n * (16 * w)
  {
  }

  /**
   * Setting entry `e` in the sequence is the source's mask-and-or on the
   * `u64`: the old entry's bits are taken out and the new ones put in.
   */
  lemma {:induction false} PackUpdate(ns: seq<Nibble>, e: nat, n: Nibble)
    requires e < |ns|
    ensures Pack(ns[e := n]) == Pack(ns) - ns[e] * Weight(e) + n * Weight(e)
  {
    if e > 0 {
      var tail := ns[1..];
      PackUpdate(tail, e - 1, n);
      assert ns[e := n][1..] == tail[e - 1 := n];
      Regroup(ns[0], Pack(tail), ns[e], n, Weight(e - 1));
    }
  }

  // ------------------------------------------------------------ properties

  /** The palette entry becomes the value's low four bits; the other fifteen entries are kept. */
  lemma SetUlaPaletteEffect(v: VideoRegisters, entry: nat, value: bv8)
    requires Valid(v) && entry < 16
    ensures Valid(SetUlaPalette(v, entry, value))
    ensures Entry(Pack(SetUlaPalette(v, entry, value).ulaPalette), entry) == value as int % 16
    ensures forall e :: 0 <= e < 16 && e != entry ==>
      Entry(Pack(SetUlaPalette(v, entry, value).ulaPalette), e) == Entry(Pack(v.ulaPalette), e)
    ensures SetUlaPalette(v, entry, value) == v.(ulaPalette := SetUlaPalette(v, entry, value).ulaPalette)
  {
    var r := SetUlaPalette(v, entry, value).ulaPalette;
    EntryOfPack(r, entry);
    forall e | 0 <= e < 16 && e != entry
      ensures Entry(Pack(r), e) == Entry(Pack(v.ulaPalette), e)
    {
      EntryOfPack(r, e);
      EntryOfPack(v.ulaPalette, e);
    }
  }

  /** Reset loads the listed values, keeps the palette, and leaves the display on in a high-resolution mode. */
  lemma ResetEffect(v: VideoRegisters)
    requires Valid(v)
    ensures Valid(Reset(v))
    ensures Reset(v).ulaPalette == v.ulaPalette
    ensures Reset(v).crtc[0] == 0x7f && Reset(v).crtc[1] == 0x50 && Reset(v).crtc[9] == 0x07 && Reset(v).crtc[12] == 0x06
    ensures !IsUlaTeletext(Reset(v))
    ensures !IsCrtcScreenDelayNoOutput(Reset(v))
  {
  }

  /** Resetting twice is resetting once. */
  lemma ResetIdempotent(v: VideoRegisters)
    ensures Reset(Reset(v)) == Reset(v)
  {
  }

  /** Teletext exactly when the control byte's remainder by 4 is 2 or 3 (bit 1). */
  lemma IsUlaTeletextBit(v: VideoRegisters)
    ensures IsUlaTeletext(v) <==> v.ulaControl % 4 >= 2
  {
  }

  /** No output exactly when R8's remainder by 64 is at least 48 (bits 4 and 5). */
  lemma ScreenDelayBits(v: VideoRegisters)
    requires Valid(v)
    ensures IsCrtcScreenDelayNoOutput(v) <==> v.crtc[8] % 64 >= 48
  {
  }
}
