/**
 * The paged-ROM select register (ch22-core/src/devices/rom_select.rs): a
 * write stores the byte as the number of the ROM shown at 0x8000..0xbfff; a
 * read gives the latch back, cut to a byte. Addresses and cycles play no part.
 */
module RomSelects {
  import opened Words

  datatype Written = Written(latch: nat, phase2: bool)

  function Read(latch: nat, address: Word, cycles: nat): bv8 {
    (latch % 256) as bv8
  }

  function Write(latch: nat, address: Word, value: bv8, cycles: nat): Written {
    Written(value as nat, false)
  }

  // ------------------------------------------------------------ properties

  /** A write sets the latch to the byte and never asks for phase 2; reading then gives the byte back. */
  lemma WriteThenRead(latch: nat, address: Word, value: bv8, cycles: nat, address': Word, cycles': nat)
    ensures Write(latch, address, value, cycles).latch == value as nat
    ensures !Write(latch, address, value, cycles).phase2
    ensures Read(Write(latch, address, value, cycles).latch, address', cycles') == value
  {
    ByteBack(value);
  }

  lemma ByteBack(v: bv8)
    ensures ((v as int) % 256) as bv8 == v
  {
    var n := v as int;
    assert n < 256;
    assert n % 256 == n;
  }

  lemma SmallLatch(n: nat)
    requires n < 256
    ensures (n % 256) as bv8 as int == n
  {
  }

  /** A read gives the latch itself when it fits a byte, at any address and cycle. */
  lemma ReadIgnoresAccess(latch: nat, address: Word, cycles: nat, address': Word, cycles': nat)
    ensures Read(latch, address, cycles) == Read(latch, address', cycles')
    ensures latch < 256 ==> Read(latch, address, cycles) as nat == latch
  {
    if latch < 256 {
      SmallLatch(latch);
    }
  }
}
