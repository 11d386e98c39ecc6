/**
 * The video ULA's registers as an IO device
 * (ch22-core/src/video/video_ula_registers_device.rs). Writes to an address
 * whose low two bits are 01 set a palette entry; writes to the other
 * addresses set the control byte. Reads return 0xfe.
 */
module VideoUla {
  import opened Words
  import opened CpuUtil
  import V = VideoRegisters

  /** The video registers after a write, and whether the device wants a phase-2 call. */
  datatype WriteResult = WriteResult(regs: V.VideoRegisters, phase2: bool)

  function Read(v: V.VideoRegisters, address: Word, cycles: nat): bv8 {
    0xfe
  }

  /** Whether a write goes to the palette: address bits 1..0 are 01. */
  predicate IsPaletteAddress(address: Word) {
    address.low & 0x03 == 0x01
  }

  /** The palette entry a palette write selects: the value's high nibble. */
  function PaletteEntry(value: bv8): nat {
    ((value & 0xf0) >> 4) as int
  }

  /** The colour stored: the low nibble with its three low bits inverted. */
  function PaletteColour(value: bv8): bv8 {
    (value & 0x0f) ^ 7
  }

  function Write(v: V.VideoRegisters, address: Word, value: bv8, cycles: nat): WriteResult
    requires V.Valid(v)
  {
    if IsPaletteAddress(address) then
      WriteResult(V.SetUlaPalette(v, PaletteEntry(value), PaletteColour(value)), false)
    else
      WriteResult(v.(ulaControl := value), false)
  }

  // ------------------------------------------------------------ properties

  /** Reads are 0xfe whatever the registers, address or cycle. */
  lemma ReadIsConstant(v: V.VideoRegisters, address: Word, cycles: nat, v': V.VideoRegisters, address': Word, cycles': nat)
    ensures Read(v, address, cycles) == Read(v', address', cycles') == 0xfe
  {
  }

  /** The entry is the high nibble, and inverting the stored colour's low three bits gives the written low nibble. */
  lemma PaletteFields(value: bv8)
    ensures PaletteEntry(value) == ToHighNibble(value) as int
    ensures PaletteColour(value) < 16
    ensures PaletteColour(value) ^ 7 == ToLowNibble(value)
  {
  }

  /** A palette write sets entry `value >> 4` of the packed palette and nothing else of the palette. */
  lemma WritePalette(v: V.VideoRegisters, address: Word, value: bv8, cycles: nat)
    requires V.Valid(v) && IsPaletteAddress(address)
    ensures V.Valid(Write(v, address, value, cycles).regs)
    ensures V.Entry(V.Pack(Write(v, address, value, cycles).regs.ulaPalette), ToHighNibble(value) as int)
      == PaletteColour(value) as int
    ensures forall e :: 0 <= e < 16 && e != ToHighNibble(value) as int ==>
      V.Entry(V.Pack(Write(v, address, value, cycles).regs.ulaPalette), e) == V.Entry(V.Pack(v.ulaPalette), e)
  {
    PaletteFields(value);
    V.SetUlaPaletteEffect(v, PaletteEntry(value), PaletteColour(value));
    SmallColour(PaletteColour(value));
  }

  lemma SmallColour(c: bv8)
    requires c < 16
    ensures c as int % 16 == c as int
  {
  }

  /** A palette write leaves the control byte and the CRTC registers alone and asks for no phase 2. */
  lemma WritePaletteKeeps(v: V.VideoRegisters, address: Word, value: bv8, cycles: nat)
    requires V.Valid(v) && IsPaletteAddress(address)
    ensures Write(v, address, value, cycles).regs.ulaControl == v.ulaControl
    ensures Write(v, address, value, cycles).regs.crtc == v.crtc
    ensures !Write(v, address, value, cycles).phase2
  {
  }

  /** Any other write sets the control byte and nothing else. */
  lemma WriteControl(v: V.VideoRegisters, address: Word, value: bv8, cycles: nat)
    requires V.Valid(v) && !IsPaletteAddress(address)
    ensures Write(v, address, value, cycles).regs == v.(ulaControl := value)
    ensures !Write(v, address, value, cycles).phase2
  {
  }

  /** A palette write of 0x54 to 0xfe21 turns palette 0x1234567890abcdef into 0x12345678903bcdef. */
  lemma PaletteWriteExample(v: V.VideoRegisters)
    requires V.Valid(v)
    requires V.Pack(v.ulaPalette) == 0x1234567890abcdef
    ensures V.Pack(Write(v, Word(0x21, 0xfe), 0x54, 0).regs.ulaPalette) == 0x12345678903bcdef
  {
    var e := PaletteEntry(0x54);
    assert e == 5;
    assert PaletteColour(0x54) == 3;
    V.EntryOfPack(v.ulaPalette, 5);
    assert V.Entry(0x1234567890abcdef, 5) == 0xa;
    V.PackUpdate(v.ulaPalette, 5, 3);
    assert V.Weight(5) == 0x10_0000;
  }
}
