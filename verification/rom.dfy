/**
 * A 16 KiB ROM (ch22-core/src/address_spaces/rom.rs). Its contents change
 * only by loading a whole image; loading an image of any other size is the
 * source's panic, here the `WrongSize` outcome.
 */
module RomSpace {
  import opened Words

  const RomSize: nat := 0x4000

  type Rom = seq<bv8>

  datatype LoadResult = Loaded(rom: Rom) | WrongSize(length: nat)

  /** An empty socket: all zero. */
  function Default(): (r: Rom)
    ensures |r| == RomSize && forall i :: 0 <= i < |r| ==> r[i] == 0
  {
    seq(RomSize, _ => 0)
  }

  function Load(data: seq<bv8>): LoadResult {
    if |data| != RomSize then WrongSize(|data|) else Loaded(data)
  }

  function Read(rom: Rom, address: Word): bv8
    requires |rom| == RomSize && Index(address) < RomSize
  {
    rom[Index(address)]
  }

  // ------------------------------------------------------------ properties

  /** A load succeeds exactly for a 16 KiB image, and then every address reads the image's byte there. */
  lemma LoadThenRead(data: seq<bv8>)
    ensures Load(data).Loaded? <==> |data| == RomSize
    ensures Load(data).Loaded? ==> |Load(data).rom| == RomSize
    ensures Load(data).Loaded? ==> forall w :: Index(w) < RomSize ==> Read(Load(data).rom, w) == data[Index(w)]
  {
  }

  /** An empty socket reads zero everywhere. */
  lemma DefaultReadsZero(address: Word)
    requires Index(address) < RomSize
    ensures Read(Default(), address) == 0
  {
  }
}
