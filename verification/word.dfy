/**
 * A 16-bit address as its two bytes, with the page-aware offsets the 6502
 * addressing modes need (ch22-core/src/word.rs). The page of an address is
 * its high byte.
 */
module Words {

  datatype Word = Word(low: bv8, high: bv8)

  /** Whether adding `b` to `a` wrapped past 0xff. */
  function AddCarries(a: bv8, b: bv8): bool {
    a + b < a
  }

  /** `a + b` modulo 256. */
  function WrappingAdd(a: bv8, b: bv8): bv8 {
    a + b
  }

  /** `a - b` modulo 256. */
  function WrappingSubtract(a: bv8, b: bv8): bv8 {
    a - b
  }

  function LowByte(a: bv16): bv8 {
    (a & 0xff) as bv8
  }

  function HighByte(a: bv16): bv8 {
    (a >> 8) as bv8
  }

  /** The address whose bytes are `low` and `high`. */
  function Join(low: bv8, high: bv8): bv16 {
    (high as bv16 << 8) | low as bv16
  }

  /** Little-endian: the low byte is the least significant. */
  function ToAddress(w: Word): bv16 {
    Join(w.low, w.high)
  }

  function FromAddress(a: bv16): Word {
    Word(LowByte(a), HighByte(a))
  }

  /** The address as an array index: `high * 256 + low`. */
  function Index(w: Word): (n: nat)
    ensures n < 0x1_0000
  {
    w.high as int * 256 + w.low as int
  }

  /** Joining two bytes and splitting the address gives the bytes back. */
  lemma JoinBytes(low: bv8, high: bv8)
    ensures LowByte(Join(low, high)) == low && HighByte(Join(low, high)) == high
  {
  }

  /** Splitting an address and joining the bytes gives the address back. */
  lemma SplitJoin(a: bv16)
    ensures Join(LowByte(a), HighByte(a)) == a
  {
  }

  /** Words and addresses are in one-to-one correspondence: word to address and back. */
  lemma WordRoundTrip(w: Word)
    ensures FromAddress(ToAddress(w)) == w
  {
    JoinBytes(w.low, w.high);
  }

  /** Address to word and back. */
  lemma AddressRoundTrip(a: bv16)
    ensures ToAddress(FromAddress(a)) == a
  {
    SplitJoin(a);
  }

  /** An address is determined by its two bytes. */
  lemma AddressBytesDetermine(a: bv16, b: bv16)
    requires LowByte(a) == LowByte(b) && HighByte(a) == HighByte(b)
    ensures a == b
  {
  }

  /** The value of a byte pair in sixteen bits: 256 times the high byte plus the low byte. */
  lemma JoinValue(low: bv8, high: bv8)
    ensures Join(low, high) == 0x100 * high as bv16 + low as bv16
  {
  }

  /** Address `z` of page zero. */
  function ZeroPage(z: bv8): (w: Word)
    ensures ToAddress(w) == z as bv16
  {
    Word(z, 0)
  }

  /** The stack slot `s`, in page one. */
  function StackPage(s: bv8): (w: Word)
    ensures ToAddress(w) == 0x100 + s as bv16
  {
    Word(s, 1)
  }

  /** Adds to the low byte only: the page never changes. */
  function SamePageAdd(w: Word, offset: bv8): (r: Word)
    ensures r.high == w.high
    ensures r.low as bv16 == (w.low as bv16 + offset as bv16) % 0x100
  {
    Word(WrappingAdd(w.low, offset), w.high)
  }

  /** Whether an offset stayed in the page or crossed it, with the address formed before the page was fixed. */
  datatype OffsetResult = SamePage | CrossedPage(intermediate: Word)

  datatype PagedWord = PagedWord(word: Word, offset: OffsetResult)

  /** Adds an unsigned byte; a carry out of the low byte moves to the next page. */
  function PagedAdd(w: Word, offset: bv8): PagedWord {
    var low := WrappingAdd(w.low, offset);
    if AddCarries(w.low, offset) then
      PagedWord(Word(low, WrappingAdd(w.high, 1)), CrossedPage(Word(low, w.high)))
    else
      PagedWord(Word(low, w.high), SamePage)
  }

  /**
   * Adds `offset - 256`, the operation an index register counting down
   * performs: the page drops by one unless the low byte carried.
   */
  function PagedSubtract(w: Word, offset: bv8): PagedWord {
    var low := WrappingAdd(w.low, offset);
    if !AddCarries(w.low, offset) then
      PagedWord(Word(low, WrappingSubtract(w.high, 1)), CrossedPage(Word(low, w.high)))
    else
      PagedWord(Word(low, w.high), SamePage)
  }

  /** The next address, carrying into the high byte. */
  function Increment(w: Word): Word {
    if AddCarries(w.low, 1) then Word(WrappingAdd(w.low, 1), WrappingAdd(w.high, 1))
    else Word(WrappingAdd(w.low, 1), w.high)
  }

  /** A byte carries out exactly when the exact sum reaches 256. */
  lemma AddCarriesValue(a: bv8, b: bv8)
    ensures AddCarries(a, b) <==> a as bv16 + b as bv16 >= 0x100
  {
  }

  /** When the low byte carries, the carry moves into the high byte: the sixteen-bit sum. */
  lemma CarryingSum(low: bv8, high: bv8, offset: bv8)
    requires AddCarries(low, offset)
    ensures Join(WrappingAdd(low, offset), WrappingAdd(high, 1)) == Join(low, high) + offset as bv16
  {
  }

  /** When the low byte does not carry, the high byte is unchanged: the sixteen-bit sum. */
  lemma NonCarryingSum(low: bv8, high: bv8, offset: bv8)
    requires !AddCarries(low, offset)
    ensures Join(WrappingAdd(low, offset), high) == Join(low, high) + offset as bv16
  {
  }

  /** After a carry, keeping the page is adding `offset - 256` and the carried 256. */
  lemma CarryingDifference(low: bv8, high: bv8, offset: bv8)
    requires AddCarries(low, offset)
    ensures Join(WrappingAdd(low, offset), high) == Join(low, high) + offset as bv16 + 0xff00
  {
  }

  /** Without a carry, dropping the page is adding `offset - 256`. */
  lemma NonCarryingDifference(low: bv8, high: bv8, offset: bv8)
    requires !AddCarries(low, offset)
    ensures Join(WrappingAdd(low, offset), WrappingSubtract(high, 1)) == Join(low, high) + offset as bv16 + 0xff00
  {
  }

  /** The paged sum is the sixteen-bit sum, wrapping at 0x10000. */
  lemma PagedAddValue(w: Word, offset: bv8)
    ensures ToAddress(PagedAdd(w, offset).word) == ToAddress(w) + offset as bv16
  {
    if AddCarries(w.low, offset) {
      CarryingSum(w.low, w.high, offset);
      assert PagedAdd(w, offset).word == Word(WrappingAdd(w.low, offset), WrappingAdd(w.high, 1));
    } else {
      NonCarryingSum(w.low, w.high, offset);
      assert PagedAdd(w, offset).word == Word(WrappingAdd(w.low, offset), w.high);
    }
  }

  /** The page is crossed exactly when the low byte plus the offset reaches 256. */
  lemma PagedAddCrosses(w: Word, offset: bv8)
    ensures PagedAdd(w, offset).offset.CrossedPage? <==> w.low as bv16 + offset as bv16 >= 0x100
  {
    AddCarriesValue(w.low, offset);
  }

  /** The intermediate address keeps the old page and takes the new low byte. */
  lemma PagedAddIntermediate(w: Word, offset: bv8)
    ensures PagedAdd(w, offset).offset.CrossedPage? ==>
      PagedAdd(w, offset).offset.intermediate == Word(PagedAdd(w, offset).word.low, w.high)
  {
  }

  /** The paged difference is the sixteen-bit sum of `offset - 256` (0xff00 + offset), wrapping. */
  lemma PagedSubtractValue(w: Word, offset: bv8)
    ensures ToAddress(PagedSubtract(w, offset).word) == ToAddress(w) + offset as bv16 + 0xff00
  {
    if AddCarries(w.low, offset) {
      CarryingDifference(w.low, w.high, offset);
      assert PagedSubtract(w, offset).word == Word(WrappingAdd(w.low, offset), w.high);
    } else {
      NonCarryingDifference(w.low, w.high, offset);
      assert PagedSubtract(w, offset).word == Word(WrappingAdd(w.low, offset), WrappingSubtract(w.high, 1));
    }
  }

  /** Subtracting crosses the page exactly when the low byte does not carry. */
  lemma PagedSubtractCrosses(w: Word, offset: bv8)
    ensures PagedSubtract(w, offset).offset.CrossedPage? <==> w.low as bv16 + offset as bv16 < 0x100
  {
    AddCarriesValue(w.low, offset);
  }

  /** The intermediate address keeps the old page and takes the new low byte. */
  lemma PagedSubtractIntermediate(w: Word, offset: bv8)
    ensures PagedSubtract(w, offset).offset.CrossedPage? ==>
      PagedSubtract(w, offset).offset.intermediate == Word(PagedSubtract(w, offset).word.low, w.high)
  {
  }

  /** Incrementing is adding one to the sixteen-bit value, 0xffff wrapping to 0. */
  lemma IncrementValue(w: Word)
    ensures ToAddress(Increment(w)) == ToAddress(w) + 1
  {
    if AddCarries(w.low, 1) {
      CarryingSum(w.low, w.high, 1);
      assert Increment(w) == Word(WrappingAdd(w.low, 1), WrappingAdd(w.high, 1));
    } else {
      NonCarryingSum(w.low, w.high, 1);
      assert Increment(w) == Word(WrappingAdd(w.low, 1), w.high);
    }
  }
}
