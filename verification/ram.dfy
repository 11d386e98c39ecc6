/**
 * The 32 KiB of RAM (ch22-core/src/address_map/ram.rs), indexed by address.
 * Reads and writes past the end panic in the source; here they are ruled
 * out by the precondition.
 */
module RamSpace {
  import opened Words

  const RamSize: nat := 0x8000

  type Ram = seq<bv8>

  /** Power-on RAM: all zero. */
  function Default(): (r: Ram)
    ensures |r| == RamSize && forall i :: 0 <= i < |r| ==> r[i] == 0
  {
    seq(RamSize, _ => 0)
  }

  function Read(ram: Ram, address: Word): bv8
    requires |ram| == RamSize && Index(address) < RamSize
  {
    ram[Index(address)]
  }

  function Write(ram: Ram, address: Word, value: bv8): Ram
    requires |ram| == RamSize && Index(address) < RamSize
  {
    ram[Index(address) := value]
  }

  /** The bytes from `start` up to but not including `end`, as the video circuit copies them. */
  function Slice(ram: Ram, start: nat, end: nat): Ram
    requires |ram| == RamSize && start <= end <= RamSize
  {
    ram[start..end]
  }

  // ------------------------------------------------------------ properties

  /** Reading an address just written gives the value; every other address keeps its byte. */
  lemma WriteThenRead(ram: Ram, address: Word, value: bv8, other: Word)
    requires |ram| == RamSize && Index(address) < RamSize && Index(other) < RamSize
    ensures |Write(ram, address, value)| == RamSize
    ensures Read(Write(ram, address, value), address) == value
    ensures Index(other) != Index(address) ==> Read(Write(ram, address, value), other) == Read(ram, other)
  {
  }

  /** A slice has `end - start` bytes, and its `i`th is what a read of address `start + i` gives. */
  lemma SliceContents(ram: Ram, start: nat, end: nat)
    requires |ram| == RamSize && start <= end <= RamSize
    ensures |Slice(ram, start, end)| == end - start
    ensures forall w :: start <= Index(w) < end ==> Slice(ram, start, end)[Index(w) - start] == Read(ram, w)
  {
  }

  /** Default RAM reads zero everywhere. */
  lemma DefaultReadsZero(address: Word)
    requires Index(address) < RamSize
    ensures Read(Default(), address) == 0
  {
  }
}
