/**
 * The 6845 CRTC's registers as an IO device
 * (ch22-core/src/video/video_crtc_registers_device.rs). A write to an address
 * whose low three bits are not 001 selects a register (five bits); a write
 * to an 001 address stores into the selected register, cut to that
 * register's width. Only the cursor registers R14 and R15 read back.
 */
module VideoCrtc {
  import opened Words
  import V = VideoRegisters

  /** The shared video registers and the register-select latch. */
  datatype CrtcDevice = CrtcDevice(regs: V.VideoRegisters, controlReg: bv8)

  /** A read's value, or the source's `not impl` panic for the start address and light pen registers. */
  datatype ReadResult = Value(value: bv8) | NotImplemented(register: bv8)

  datatype WriteResult = WriteResult(device: CrtcDevice, phase2: bool)

  function New(regs: V.VideoRegisters): CrtcDevice {
    CrtcDevice(regs, 0)
  }

  /** Whether an access goes to the selected register (address bits 2..0 are 001). */
  predicate IsDataAddress(address: Word) {
    address.low & 0x07 == 0x01
  }

  /** The bits each register R0..R15 keeps. */
  function WriteMask(register: bv8): bv8 {
    if register == 4 || register == 6 || register == 7 || register == 10 then 0x7f
    else if register == 5 || register == 9 || register == 11 then 0x1f
    else if register == 12 || register == 14 then 0x3f
    else 0xff
  }

  /** The value a register keeps of a write. */
  function Stored(register: bv8, value: bv8): bv8 {
    value & WriteMask(register)
  }

  /** The register a select write picks: five bits of the value. */
  function Selected(value: bv8): bv8 {
    value & 0x1f
  }

  /** The selected register is one of R12, R13 (start address) or R16, R17 (light pen). */
  predicate IsUnreadable(register: bv8) {
    register == 12 || register == 13 || register == 16 || register == 17
  }

  function Read(d: CrtcDevice, address: Word, cycles: nat): ReadResult
    requires V.Valid(d.regs)
  {
    if !IsDataAddress(address) then Value(0)
    else if IsUnreadable(d.controlReg) then NotImplemented(d.controlReg)
    else if d.controlReg == 14 || d.controlReg == 15 then Value(d.regs.crtc[d.controlReg])
    else Value(0)
  }

  function Write(d: CrtcDevice, address: Word, value: bv8, cycles: nat): WriteResult
    requires V.Valid(d.regs)
  {
    if !IsDataAddress(address) then
      WriteResult(d.(controlReg := Selected(value)), false)
    else if d.controlReg < 16 then
      var r := d.controlReg as int;
      WriteResult(d.(regs := d.regs.(crtc := d.regs.crtc[r := Stored(d.controlReg, value)])), false)
    else
      WriteResult(d, false)
  }

  // ------------------------------------------------------------ properties

  /** A select write keeps five bits of the value and changes no register. */
  lemma SelectWrite(d: CrtcDevice, address: Word, value: bv8, cycles: nat)
    requires V.Valid(d.regs) && !IsDataAddress(address)
    ensures Write(d, address, value, cycles).device.controlReg < 32
    ensures Write(d, address, value, cycles).device.controlReg == value % 32
    ensures Write(d, address, value, cycles).device.regs == d.regs
    ensures !Write(d, address, value, cycles).phase2
  {
    SelectedBits(value);
  }

  lemma SelectedBits(value: bv8)
    ensures Selected(value) < 32 && Selected(value) == value % 32
  {
  }

  /** A data write to R0..R15 stores the masked value there and changes nothing else. */
  lemma DataWrite(d: CrtcDevice, address: Word, value: bv8, cycles: nat)
    requires V.Valid(d.regs) && IsDataAddress(address) && d.controlReg < 16
    ensures V.Valid(Write(d, address, value, cycles).device.regs)
    ensures Write(d, address, value, cycles).device.regs.crtc[d.controlReg] == value & WriteMask(d.controlReg)
    ensures forall i :: 0 <= i < 16 && i != d.controlReg as int ==>
      Write(d, address, value, cycles).device.regs.crtc[i] == d.regs.crtc[i]
    ensures Write(d, address, value, cycles).device.regs.ulaControl == d.regs.ulaControl
    ensures Write(d, address, value, cycles).device.regs.ulaPalette == d.regs.ulaPalette
    ensures Write(d, address, value, cycles).device.controlReg == d.controlReg
    ensures !Write(d, address, value, cycles).phase2
  {
    assert Stored(d.controlReg, value) == value & WriteMask(d.controlReg);
  }

  /**
   * A register keeps no more than its width allows: what is kept fits the
   * mask, and a value is kept whole exactly when it already fits.
   */
  lemma StoredIsWidth(register: bv8, value: bv8)
    ensures Stored(register, value) <= WriteMask(register)
    ensures Stored(register, value) == value <==> value <= WriteMask(register)
  {
    var m := WriteMask(register);
    if m == 0x7f {
      assert value & 0x7f <= 0x7f;
      assert value & 0x7f == value <==> value <= 0x7f;
    } else if m == 0x1f {
      assert value & 0x1f <= 0x1f;
      assert value & 0x1f == value <==> value <= 0x1f;
    } else if m == 0x3f {
      assert value & 0x3f <= 0x3f;
      assert value & 0x3f == value <==> value <= 0x3f;
    }
  }

  /** A data write with R16..R31 selected changes nothing. */
  lemma DataWriteIgnored(d: CrtcDevice, address: Word, value: bv8, cycles: nat)
    requires V.Valid(d.regs) && IsDataAddress(address) && d.controlReg >= 16
    ensures Write(d, address, value, cycles) == WriteResult(d, false)
  {
  }

  /** A read stops the emulation exactly when it is a data read of R12, R13, R16 or R17. */
  lemma ReadPanics(d: CrtcDevice, address: Word, cycles: nat)
    requires V.Valid(d.regs)
    ensures Read(d, address, cycles).NotImplemented? <==> IsDataAddress(address) && IsUnreadable(d.controlReg)
    ensures Read(d, address, cycles).Value? && Read(d, address, cycles).value != 0 ==>
      IsDataAddress(address) && (d.controlReg == 14 || d.controlReg == 15)
  {
  }

  /** Writing back a register's value as read leaves it unchanged: every stored value already fits its width. */
  lemma MaskIdempotent(register: bv8, value: bv8)
    ensures (value & WriteMask(register)) & WriteMask(register) == value & WriteMask(register)
  {
  }

  /**
   * Selecting a register at 0xfe20 and writing at 0xfe21 stores the masked
   * value: R4, R6, R7 and R10 keep seven bits, R5, R9 and R11 five, R12 and
   * R14 six, the others all eight.
   */
  lemma SelectThenWrite(d: CrtcDevice, register: bv8, value: bv8)
    requires V.Valid(d.regs) && register < 16
    ensures var s := Write(d, Word(0x20, 0xfe), register, 0).device;
      V.Valid(s.regs) &&
      Write(s, Word(0x21, 0xfe), value, 0).device.regs.crtc[register] == value & WriteMask(register)
  {
    var s := Write(d, Word(0x20, 0xfe), register, 0).device;
    assert s.controlReg == register;
  }

  /** Masks by register, as the device's register table lists them. */
  lemma WriteMaskTable()
    ensures WriteMask(0) == WriteMask(1) == WriteMask(2) == WriteMask(3) == 0xff
    ensures WriteMask(8) == WriteMask(13) == WriteMask(15) == 0xff
    ensures WriteMask(4) == WriteMask(6) == WriteMask(7) == WriteMask(10) == 0x7f
    ensures WriteMask(5) == WriteMask(9) == WriteMask(11) == 0x1f
    ensures WriteMask(12) == WriteMask(14) == 0x3f
  {
  }

  /** The cursor registers read back what was written to them, cut to their width. */
  lemma CursorWriteThenRead(d: CrtcDevice, register: bv8, value: bv8)
    requires V.Valid(d.regs) && (register == 14 || register == 15)
    ensures var s := Write(d, Word(0x20, 0xfe), register, 0).device;
      var w := Write(s, Word(0x21, 0xfe), value, 0).device;
      V.Valid(w.regs) && Read(w, Word(0x21, 0xfe), 0) == Value(value & WriteMask(register))
  {
    var s := Write(d, Word(0x20, 0xfe), register, 0).device;
    assert s.controlReg == register;
  }
}
