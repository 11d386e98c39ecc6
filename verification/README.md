# ch22-core in Dafny

A model of the core of ch22, a BBC Micro emulator whose core is written in
Rust and compiled to WebAssembly. The model covers:

- the 6502 processor: registers and the status byte, the unary and binary
  ALU operations including decimal-mode ADC and SBC, the addressing modes,
  the stack, the opcode table, the executor's helpers, reset and the
  interrupt latch;
- the memory map: 32 KiB of RAM, sixteen paged ROM sockets plus the OS ROM,
  the ROM select register and the IO space at 0xfc00-0xfeff;
- the IO devices: the device list, 1 MHz access timing, the pending phase-2
  write, the interrupt lines, the timer-device list that the clock syncs,
  and the JavaScript-backed IO and timer devices;
- the cycle manager, which ends the previous cycle (phase 2, clock tick)
  before every access;
- the video side: the CRTC and ULA register devices, the shared video
  registers with their packed palette, the CRTC-to-RAM address translation
  and the packed per-scanline record the renderer reads;
- the JavaScript-facing checks and encodings: the JS device flag byte,
  the ROM bank check and the packed partial video registers.

Bytes are `bv8` and addresses `bv16`, or the `Word` pair of bytes. Cycle
counts and the JavaScript devices' 64-bit answers are unbounded integers
with explicit ranges. Panics in the source are result variants in the
model: `Panicked`, `ReadPanic`, `InvalidRomBank`, `RomWrongSize`. Where a
panic can only come from a caller's mistake, the model has a precondition
instead, for example an unknown device id. Callbacks into JavaScript and
the device trait objects are function parameters.

The processor part does not run on the memory map. The executor drives an
abstract bus: a memory of bytes plus the ordered trace of every bus cycle.
That lets each instruction be stated as the exact cycles it performs. The
cycle manager is modelled separately, over the real memory map.

## Model

| member | source | states |
|---|---|---|
| Words.JoinBytes | ch22-core/src/word.rs:7-19 | joining two bytes into an address and splitting it again gives back the same low and high bytes |
| Words.SplitJoin | ch22-core/src/word.rs:7-19 | splitting an address into its bytes and joining them gives back the address |
| Words.WordRoundTrip | ch22-core/src/word.rs:7-19 | converting a word to a `u16` and back gives back the word |
| Words.AddressRoundTrip | ch22-core/src/word.rs:7-19 | converting a `u16` to a word and back gives back the address |
| Words.AddressBytesDetermine | ch22-core/src/word.rs:13-18 | two addresses with the same low and high bytes are equal |
| Words.JoinValue | ch22-core/src/word.rs:8-10 | the little-endian address of a byte pair is worth 256 times the high byte plus the low byte |
| Words.Index | ch22-core/src/word.rs:7-11 | a word used as an array index is below 0x10000 |
| Words.ZeroPage | ch22-core/src/word.rs:22-27 | a zero-page address has high byte 0 and the given low byte |
| Words.StackPage | ch22-core/src/word.rs:29-34 | a stack address has high byte 1 and the stack pointer as low byte |
| Words.SamePageAdd | ch22-core/src/word.rs:36-41 | a same-page add keeps the high byte and wraps the low byte modulo 256 |
| Words.AddCarriesValue | ch22-core/src/word.rs:46 | adding to a byte overflows exactly when the exact sum reaches 256 |
| Words.PagedAddValue | ch22-core/src/word.rs:43-57 | the result of a paged add is the 16-bit sum of the address and the offset, wrapping at 0x10000 |
| Words.PagedAddCrosses | ch22-core/src/word.rs:46-56 | a paged add reports a crossed page exactly when the low byte plus the offset reaches 256 |
| Words.PagedAddIntermediate | ch22-core/src/word.rs:48-53 | on a crossing, the intermediate address keeps the old page and takes the wrapped low byte |
| Words.PagedSubtractValue | ch22-core/src/word.rs:59-73 | the result of a paged subtract is the 16-bit sum of the address and `offset - 256`, wrapping |
| Words.PagedSubtractCrosses | ch22-core/src/word.rs:62-72 | a paged subtract reports a crossed page exactly when the low-byte add does not overflow |
| Words.PagedSubtractIntermediate | ch22-core/src/word.rs:64-69 | on a crossing, the intermediate address keeps the old page and takes the wrapped low byte |
| Words.IncrementValue | ch22-core/src/word.rs:75-85 | incrementing a word adds one to its 16-bit value, 0xffff wrapping to 0 |
| CpuUtil.IsNegative | ch22-core/src/cpu/util.rs:3-5 | a byte is negative exactly when its value is at least 0x80 |
| CpuUtil.NegativeIsBit7 | ch22-core/src/cpu/util.rs:3-5 | the sign test reads bit 7 and no other bit |
| CpuUtil.WrapNibbleUpAddsSix | ch22-core/src/cpu/util.rs:9-15 | the decimal adjustment after an addition adds 6 exactly when the nibble is above 9, and its carry is 1 exactly then |
| CpuUtil.WrapNibbleDownTakesSix | ch22-core/src/cpu/util.rs:17-23 | the decimal adjustment after a subtraction takes 6 exactly when bit 4 is set, and its borrow is that bit |
| CpuUtil.ToHighNibble | ch22-core/src/cpu/util.rs:29-31 | the high nibble is below 16 |
| CpuUtil.ToLowNibble | ch22-core/src/cpu/util.rs:33-35 | the low nibble is below 16 |
| CpuUtil.FromNibblesParts | ch22-core/src/cpu/util.rs:25-35 | packing two nibbles keeps the low four bits of each, and splitting gives them back |
| CpuUtil.NibbleValues | ch22-core/src/cpu/util.rs:29-35 | the high and low nibbles are the byte's quotient and remainder by 16 |
| CpuUtil.FromNibblesValue | ch22-core/src/cpu/util.rs:25-27 | a packed byte is worth 16 times the high nibble (modulo 16) plus the low nibble (modulo 16) |
| CpuUtil.NibblesRoundTrip | ch22-core/src/cpu/util.rs:25-35 | splitting a byte into nibbles and packing them gives back the byte |
| Registers.FlagConstantsAreBits | ch22-core/src/cpu/registers.rs:54-61 | the eight flag constants are the single bits 0 to 7, pairwise disjoint |
| Registers.StatusFromByte | ch22-core/src/cpu/registers.rs:21-32 | each of C, Z, I, D, V and N is set exactly when its bit (0, 1, 2, 3, 6, 7) is set in the byte |
| Registers.StatusToByte | ch22-core/src/cpu/registers.rs:34-52 | the pushed byte has bit 5 set, the break bit clear, and each flag bit set exactly when the flag is |
| Registers.StatusRoundTrip | ch22-core/src/cpu/registers.rs:21-52 | encoding flags as a byte and decoding it gives back the same flags |
| Registers.ByteRoundTrip | ch22-core/src/cpu/registers.rs:21-52 | decoding a byte and encoding it gives back the byte with bit 5 forced on and the break bit forced off |
| UnaryOps.ShiftLeft | ch22-core/src/cpu/executor/unary_ops.rs:3-11 | ASL: twice the byte equals carry:value in nine bits; zero and negative describe the value; I, D and V are kept |
| UnaryOps.ShiftRight | ch22-core/src/cpu/executor/unary_ops.rs:13-22 | LSR: the byte equals twice the value plus the carry; zero describes the value, negative is cleared; I, D and V are kept |
| UnaryOps.RotateLeft | ch22-core/src/cpu/executor/unary_ops.rs:24-32 | ROL: twice the byte plus the old carry equals new-carry:value in nine bits; zero and negative describe the value |
| UnaryOps.RotateRight | ch22-core/src/cpu/executor/unary_ops.rs:34-42 | ROR: the byte plus 256 times the old carry equals twice the value plus the new carry; zero and negative describe the value |
| UnaryOps.Increment | ch22-core/src/cpu/executor/unary_ops.rs:44-50 | INC: the value is the byte plus one modulo 256; zero and negative describe it; carry is kept |
| UnaryOps.Decrement | ch22-core/src/cpu/executor/unary_ops.rs:52-58 | DEC: the value is the byte minus one modulo 256; zero and negative describe it; carry is kept |
| UnaryOps.RotateRightUndoesRotateLeft | ch22-core/src/cpu/executor/unary_ops.rs:24-42 | ROR after ROL restores both the byte and the carry |
| UnaryOps.RotateLeftUndoesRotateRight | ch22-core/src/cpu/executor/unary_ops.rs:24-42 | ROL after ROR restores both the byte and the carry |
| UnaryOps.IncrementDecrementInverse | ch22-core/src/cpu/executor/unary_ops.rs:44-58 | DEC undoes INC and INC undoes DEC on the value, whatever the flags |
| BinaryOps.And | ch22-core/src/cpu/executor/binary_ops.rs:7-13 | AND: each bit of the value is set exactly when it is set in both operands; zero and negative describe the value; carry, I and D are kept |
| BinaryOps.AndNegativeCarry | ch22-core/src/cpu/executor/binary_ops.rs:15-25 | ANC: the value is the AND, and the carry equals the new negative flag |
| BinaryOps.Or | ch22-core/src/cpu/executor/binary_ops.rs:27-33 | ORA: each bit of the value is set exactly when it is set in either operand; zero and negative describe the value |
| BinaryOps.Xor | ch22-core/src/cpu/executor/binary_ops.rs:35-41 | EOR: each bit of the value is set exactly when the operands' bits differ; zero and negative describe the value |
| BinaryOps.BitTest | ch22-core/src/cpu/executor/binary_ops.rs:43-49 | BIT: the accumulator is unchanged; zero is set exactly when the operands share no set bit; V and N are operand bits 6 and 7 |
| BinaryOps.AndShiftRight | ch22-core/src/cpu/executor/binary_ops.rs:51-53 | ALR: the AND of the operands equals twice the value plus the carry; the carry is bit 0 of both; negative is cleared |
| BinaryOps.AddOverflowSigns | ch22-core/src/cpu/executor/binary_ops.rs:157-159 | the addition overflow test holds exactly when both operands share a sign that the result does not have |
| BinaryOps.SubtractOverflowSigns | ch22-core/src/cpu/executor/binary_ops.rs:161-163 | the subtraction overflow test holds exactly when the operands' signs differ and the result's sign is not the accumulator's |
| BinaryOps.AddBinaryCorrect | ch22-core/src/cpu/executor/binary_ops.rs:63-79 | binary ADC: A + M + C equals carry:value in nine bits; V is the signed overflow of the sum; Z and N describe the value; I and D are kept |
| BinaryOps.SubtractBinaryCorrect | ch22-core/src/cpu/executor/binary_ops.rs:111-121 | binary SBC (ADC of the complement): the value is A - M - (1 - C) modulo 256, carry set exactly when nothing is borrowed; Z and N describe the value |
| BinaryOps.SubtractBinaryOverflow | ch22-core/src/cpu/executor/binary_ops.rs:111-121 | binary SBC sets V exactly when the operands' signs differ and the result's sign is not A's |
| BinaryOps.DecimalValueRange | ch22-core/src/cpu/executor/binary_ops.rs:81-109 | a BCD byte denotes a number from 0 to 99 |
| BinaryOps.DecimalSumCorrect | ch22-core/src/cpu/executor/binary_ops.rs:93-108 | on BCD operands the adjusted digits are BCD, hold the decimal sum modulo 100, and carry exactly when the sum reaches 100 |
| BinaryOps.AddDecimalCorrect | ch22-core/src/cpu/executor/binary_ops.rs:81-109 | decimal ADC on BCD operands gives the BCD of (A + M + C) mod 100 with carry exactly when the sum reaches 100; I and D are kept |
| BinaryOps.AddWithCarryCorrect | ch22-core/src/cpu/executor/binary_ops.rs:55-61 | ADC adds modulo 256 with a nine-bit carry in binary mode and modulo 100 on BCD operands in decimal mode |
| BinaryOps.DecimalDifferenceCorrect | ch22-core/src/cpu/executor/binary_ops.rs:140-154 | on BCD operands the adjusted digits are BCD, hold the decimal difference modulo 100, and borrow exactly when it is negative |
| BinaryOps.SubtractDecimalCorrect | ch22-core/src/cpu/executor/binary_ops.rs:123-155 | decimal SBC on BCD operands gives the BCD of (A - M - (1 - C)) mod 100 with carry exactly when nothing was borrowed |
| BinaryOps.SubtractWithCarryCorrect | ch22-core/src/cpu/executor/binary_ops.rs:111-121 | SBC subtracts modulo 256 with a borrow in binary mode and modulo 100 on BCD operands in decimal mode |
| BinaryOps.SubtractDecimalZeroIsBinary | ch22-core/src/cpu/executor/binary_ops.rs:130-135 | decimal SBC's zero flag equals binary SBC's |
| BinaryOps.SubtractDecimalNegativeIsBinary | ch22-core/src/cpu/executor/binary_ops.rs:130-135 | decimal SBC's negative flag equals binary SBC's |
| BinaryOps.SubtractDecimalOverflowIsBinary | ch22-core/src/cpu/executor/binary_ops.rs:136 | decimal SBC's overflow flag equals binary SBC's |
| BinaryOps.AddDecimalZeroIsBinary | ch22-core/src/cpu/executor/binary_ops.rs:84-89 | decimal ADC's zero flag is taken from the binary sum, whatever the decimal result |
| BinaryOps.AddDecimalQuirkExample | ch22-core/src/cpu/executor/binary_ops.rs:81-109 | 0x99 + 0x01 in decimal mode gives 0x00 with carry, zero clear, negative set and overflow clear |
| Addressing.OffsetLowByte | ch22-core/src/cpu/executor/addressing.rs:147-158 | the offset address's low byte is the wrapped sum of the base's low byte and the offset |
| Addressing.OffsetPageChange | ch22-core/src/cpu/executor/addressing.rs:147-158 | an unsigned offset reports a carry (page change) exactly when the low byte plus the offset overflows |
| Addressing.IntermediateBytes | ch22-core/src/cpu/executor/addressing.rs:153 | the intermediate address has the base's page and the result's low byte |
| Addressing.OffsetUnsignedIsPagedAdd | ch22-core/src/cpu/executor/addressing.rs:160-162 | offsetting a 16-bit address by an unsigned byte gives the same address as the word's paged add |
| Addressing.OffsetUnsignedCarriesAsPagedAdd | ch22-core/src/cpu/executor/addressing.rs:160-162 | the unsigned offset carries exactly when the word's paged add crosses a page |
| Addressing.OffsetUnsignedIntermediateAsPagedAdd | ch22-core/src/cpu/executor/addressing.rs:147-162 | on a carry, the offset's intermediate address equals the paged add's intermediate word |
| Addressing.ZeroPageIndexedWraps | ch22-core/src/cpu/executor/addressing.rs:26-32 | zero-page indexed addressing stays in page zero: the address is the operand plus the index modulo 256 |
| Addressing.NextAddressSamePageValue | ch22-core/src/cpu/executor/addressing.rs:180-184 | the indirect address's second byte is read from the same page: one up, except that low byte 0xff wraps to 0x00 |
| Addressing.SignExtendValue | ch22-core/src/cpu/executor/addressing.rs:164-166 | a relative offset widened to 16 bits keeps its two's-complement value modulo 0x10000 |
| Addressing.SignExtendNonNegative | ch22-core/src/cpu/executor/addressing.rs:164-166 | a non-negative offset widens with a zero high byte |
| Addressing.SignExtendNegative | ch22-core/src/cpu/executor/addressing.rs:164-166 | a negative offset widens to its value plus 0xff00 |
| Addressing.OffsetSignedForwardIsPagedAdd | ch22-core/src/cpu/executor/addressing.rs:164-166 | a non-negative signed offset gives the same address as the word's paged add |
| Addressing.OffsetSignedBackwardIsPagedSubtract | ch22-core/src/cpu/executor/addressing.rs:164-166 | a negative signed offset gives the same address as the word's paged subtract |
| Addressing.ReadImmediateEffect | ch22-core/src/cpu/executor/immediate_access.rs:11-17 | an immediate read gives the byte at the program counter, records one plain read there and advances the counter by one |
| Addressing.ReadImmediate16Effect | ch22-core/src/cpu/executor/immediate_access.rs:4-9 | a 16-bit immediate read joins the bytes at PC and PC+1 little-endian, records both reads and advances the counter by two |
| Addressing.IndexedDataEffect | ch22-core/src/cpu/executor/addressing.rs:118-128 | an indexed data read records a phantom read at the intermediate address only on a page crossing, then a checked read of the offset address |
| Addressing.RelativeTarget | ch22-core/src/cpu/executor/addressing.rs:66-78 | a branch target is the counter past the operand plus the sign-extended offset |
| Addressing.AbsoluteIndexedDataCycles | ch22-core/src/cpu/executor/addressing.rs:118-128 | an absolute indexed read takes four bus cycles, five on a page crossing, and the extra one is the only phantom read |
| Addressing.AbsoluteIndexedDataValue | ch22-core/src/cpu/executor/addressing.rs:118-128 | the absolute indexed operand is the byte at the 16-bit base plus the index, wrapping |
| Bus.ReadAfterWrite | ch22-core/src/bus.rs:1-6 | the bus, seen as memory, returns at an address the byte last written there |
| Bus.ReadPastWrite | ch22-core/src/bus.rs:1-6 | a write to one address leaves every other address's byte as it was |
| Bus.RecordKeepsState | ch22-core/src/bus.rs:1-6 | reads, phantom reads and completions leave memory and registers alone and add exactly one event to the trace |
| Stack.StackAddressInPageOne | ch22-core/src/cpu/executor.rs:554-572 | stack slot s is address 0x100 + s, page one of memory |
| Stack.AboveBelow | ch22-core/src/cpu/executor.rs:561-565 | the pop's wrapping increment undoes the push's wrapping decrement, 0x00 to 0xff and back |
| Stack.AdjacentSlotsDiffer | ch22-core/src/cpu/executor.rs:554-568 | two adjacent stack slots are distinct addresses, also where the stack pointer wraps |
| Stack.PushEffect | ch22-core/src/cpu/executor.rs:554-562 | a push writes the byte at the slot the stack pointer selects, then decrements the stack pointer; nothing else changes |
| Stack.PopEffect | ch22-core/src/cpu/executor.rs:564-568 | a pop increments the stack pointer, then reads the slot it selects; memory is unchanged |
| Stack.PushPop | ch22-core/src/cpu/executor.rs:554-568 | a pop straight after a push gives back the pushed byte and restores every register |
| Stack.Push16Pop16 | ch22-core/src/cpu/executor.rs:574-582 | a 16-bit pop straight after a 16-bit push gives the value back and restores the stack pointer |
| Stack.PhantomStackReadEffect | ch22-core/src/cpu/executor.rs:570-572 | a phantom stack read puts the current slot on the bus and changes neither registers nor memory |
| Stack.Push16Effect | ch22-core/src/cpu/executor.rs:574-578 | a 16-bit push writes the high byte at the stack pointer and the low byte one below, leaving the stack pointer two lower |
| Stack.Pop16Effect | ch22-core/src/cpu/executor.rs:580-582 | a 16-bit pop reads the two slots above the stack pointer, low byte first, leaving the stack pointer two higher |
| Cpu.UpdateInterruptDueState | ch22-core/src/cpu/interrupt_due_state.rs:17-36 | NMI becomes due exactly on a rising edge of its line and is never displaced; IRQ becomes due exactly when no NMI edge arrives, nothing is due, interrupts are enabled and the line is high |
| Cpu.NmiStaysDue | ch22-core/src/cpu/interrupt_due_state.rs:24-29 | a pending NMI stays due whatever the lines do |
| Cpu.NmiLevelIgnored | ch22-core/src/cpu/interrupt_due_state.rs:24-29 | an NMI line held high does not make another NMI due: only the edge counts |
| Cpu.UnsampledIrqIgnored | ch22-core/src/cpu/interrupt_due_state.rs:31-35 | with interrupts disabled or something already due, the IRQ line's level makes no difference |
| Cpu.UpdateIdempotent | ch22-core/src/cpu/interrupt_due_state.rs:17-36 | sampling the same lines twice in a row changes nothing the second time |
| Cpu.ResetVectorHighAddress | ch22-core/src/cpu.rs:25-28 | the reset vector's second byte is read from 0xfffd, within the vector's page |
| Cpu.ResetState | ch22-core/src/cpu.rs:23-38 | after reset the stack pointer is 0xff, A, X and Y are 0, only interrupt-disable is set, the program counter comes from 0xfffc/0xfffd and no interrupt is due |
| Cpu.ResetBusCycles | ch22-core/src/cpu.rs:25-28 | reset performs exactly the two vector reads, low byte first, and writes nothing |
| Cpu.ResetStatusByte | ch22-core/src/cpu.rs:29-33 | the reset flags pushed as PHP would push them are 0x34: interrupt-disable, bit 5 and break |
| Cpu.HandleNextInstructionRefusesUntested | ch22-core/src/cpu.rs:40-47 | the normal instruction step does not allow the untested opcodes: it panics on each of them |
| Instructions.DecodeWellFormed | ch22-core/src/cpu/executor/addressing.rs:20-24 | no instruction in the table asks for the address of an immediate operand, so that panic cannot be reached |
| Instructions.UntestedAreImplemented | ch22-core/src/cpu/executor.rs:39-43 | each of the six untested opcodes has an implementation in the table |
| Instructions.GroupOneDecodes | ch22-core/src/cpu/executor.rs:43-521 | every implemented group-one opcode performs the operation its aaa field names on the operand its bbb field names |
| Instructions.BranchesDecode | ch22-core/src/cpu/executor.rs:80-81 | the opcodes xxy10000 are the branches, testing flag xx (N, V, C, Z) against y |
| Instructions.ShiftsDecode | ch22-core/src/cpu/executor.rs:43-521 | every implemented ASL, ROL, LSR or ROR opcode acts on the accumulator when bbb is 2 and otherwise on memory through the bbb operand |
| ExecutorProperties.PhantomPcReadEffect | ch22-core/src/cpu/executor.rs:531-533 | a phantom program counter read puts PC on the bus and changes neither registers nor memory |
| ExecutorProperties.VectorsOffStack | ch22-core/src/cpu/executor.rs:845-847 | the NMI, reset and IRQ vectors are in the top page, never a stack slot |
| ExecutorProperties.VectorHighFollows | ch22-core/src/cpu/executor.rs:705-708 | each vector's high byte is read from the address after its low byte |
| ExecutorProperties.PulledStatusPlain | ch22-core/src/cpu/executor.rs:768-774 | pulling the flags an interrupt pushed gives them back exactly |
| ExecutorProperties.PulledStatusBreak | ch22-core/src/cpu/executor.rs:776-780 | pulling the flags PHP or BRK pushed gives them back: the break bit is dropped on the way in |
| ExecutorProperties.PushedBreakBit | ch22-core/src/cpu/executor.rs:701 | the pushed status byte has the break bit exactly when the pusher adds it |
| ExecutorProperties.PushPullAccumulator | ch22-core/src/cpu/executor.rs:750-766 | PLA straight after PHA restores the accumulator and the stack pointer, with Z and N from the value |
| ExecutorProperties.PushPullFlags | ch22-core/src/cpu/executor.rs:768-780 | PLP straight after PHP restores the flags and the stack pointer exactly |
| ExecutorProperties.JumpToSubroutineEffect | ch22-core/src/cpu/executor.rs:711-722 | JSR pushes the address of its own last byte, high byte first, and jumps to its operand |
| ExecutorProperties.ReturnFromSubroutineEffect | ch22-core/src/cpu/executor.rs:738-748 | RTS pops an address and continues one past it |
| ExecutorProperties.JsrRtsReturns | ch22-core/src/cpu/executor.rs:711-748 | RTS straight after JSR continues at the instruction after the JSR with the stack pointer restored |
| ExecutorProperties.BreakInstRegisters | ch22-core/src/cpu/executor.rs:686-709 | the break sequence leaves the stack pointer three lower, interrupt-disable set and PC loaded from the vector |
| ExecutorProperties.BreakInstStack | ch22-core/src/cpu/executor.rs:686-709 | the break sequence pushes the return address high byte, low byte, then the status byte with the extra flags |
| ExecutorProperties.ReturnFromInterruptEffect | ch22-core/src/cpu/executor.rs:728-736 | RTI pulls the flags, then the return address |
| ExecutorProperties.BreakInstReturns | ch22-core/src/cpu/executor.rs:686-736 | RTI straight after the break sequence returns to the pushed address with the flags and stack pointer as they were |
| ExecutorProperties.DataKeepsRegisters | ch22-core/src/cpu/executor.rs:588-590 | fetching an operand changes no register but the program counter |
| ExecutorProperties.AddressKeepsRegisters | ch22-core/src/cpu/executor.rs:584-586 | forming an effective address changes no register but the program counter |
| ExecutorProperties.CompareCarryIsSubtractCarry | ch22-core/src/cpu/executor.rs:794-802 | compare's carry is set exactly when the register is at least the operand, as SBC with carry set would leave it |
| ExecutorProperties.CompareZeroIsSubtractZero | ch22-core/src/cpu/executor.rs:794-802 | compare's zero flag is SBC's with carry set: set exactly when register and operand are equal |
| ExecutorProperties.CompareNegativeIsSubtractNegative | ch22-core/src/cpu/executor.rs:794-802 | compare's negative flag is bit 7 of the wrapping difference, as SBC with carry set gives it |
| ExecutorProperties.CompareKeepsRegisters | ch22-core/src/cpu/executor.rs:794-802 | compare changes only C, Z and N and leaves A, X, Y and S alone |
| ExecutorProperties.BranchNotTaken | ch22-core/src/cpu/executor.rs:782-790 | a branch not taken spends one phantom read and steps over the offset byte |
| ExecutorProperties.BranchTaken | ch22-core/src/cpu/executor.rs:782-792 | a branch taken continues at the counter past the offset plus the sign-extended offset |
| ExecutorProperties.BranchTest | ch22-core/src/cpu/executor.rs:782-792 | a branch is taken exactly when its flag has the wanted value |
| ExecutorProperties.ReadModifyWriteEffect | ch22-core/src/cpu/executor.rs:625-641 | a read-modify-write reads the byte, writes it back unchanged, then writes the operation's result, each cycle synchronised, at one address |
| ExecutorProperties.ReadModifyWriteRegisters | ch22-core/src/cpu/executor.rs:602-641 | a read-modify-write changes only the flags the operation sets and the program counter |
| ExecutorProperties.StoreWritesValue | ch22-core/src/cpu/executor.rs:596-600 | a store writes the register's value from before the instruction at the effective address, checking interrupts |
| ExecutorProperties.StoreKeepsRegisters | ch22-core/src/cpu/executor.rs:596-600 | a store changes no register but the program counter |
| ExecutorProperties.LoadSetsRegister | ch22-core/src/cpu/executor.rs:804-810 | a load puts the operand in the register and sets Z and N from it |
| ExecutorProperties.LoadKeepsOthers | ch22-core/src/cpu/executor.rs:804-810 | a load leaves every other register alone |
| ExecutorProperties.TransferCopies | ch22-core/src/cpu/executor.rs:812-818 | a transfer copies the source register into the target, with Z and N from the value |
| ExecutorProperties.TransferNoFlagsCopies | ch22-core/src/cpu/executor.rs:820-824 | TXS copies X into S without touching the flags |
| ExecutorProperties.BreakInstTrace | ch22-core/src/cpu/executor.rs:686-709 | the break sequence's bus cycles: a phantom PC read, three stack writes, and the two vector reads |
| ExecutorProperties.InterruptCycles | ch22-core/src/cpu/executor.rs:28-34 | an interrupt takes seven bus cycles and then reports completion |
| ExecutorProperties.InterruptPushesNoBreakBit | ch22-core/src/cpu/executor.rs:28-45 | an interrupt pushes the flags without the break bit, BRK with it |
| ExecutorProperties.BreakPushesBreakBit | ch22-core/src/cpu/executor.rs:44-45 | BRK pushes the address two past its opcode and the flags with the break bit set |
| ExecutorProperties.InterruptVectors | ch22-core/src/cpu/executor.rs:28-34 | an interrupt sets interrupt-disable and continues at the NMI vector for an NMI and the IRQ vector otherwise |
| ExecutorProperties.InterruptReturns | ch22-core/src/cpu/executor.rs:28-34 | RTI after an interrupt resumes the interrupted instruction with the flags and stack pointer restored |
| ExecutorProperties.StoreHighAddressAndYValue | ch22-core/src/cpu/executor.rs:826-842 | SHY stores Y ANDed with one more than the base's high byte, crossing or not; on a crossing that value also replaces the address's high byte |
| ExecutorProperties.ExecutePanics | ch22-core/src/cpu/executor.rs:36-43 | execute panics exactly for an opcode missing from the table, or an untested opcode that is not allowed |
| ExecutorProperties.ExecutePanicReason | ch22-core/src/cpu/executor.rs:39-41 | the untested check comes before the table lookup |
| ExecutorProperties.ExecuteCompletes | ch22-core/src/cpu/executor.rs:524 | a completed instruction's last bus cycle is the completion report |
| FieldLines.DefaultLine | ch22-core/src/video/field_line.rs:15-28 | the default line is well formed: eight palette bytes and 100 character bytes, all zero |
| FieldLines.FlagsDistinctBits | ch22-core/src/video/field_line.rs:121-128 | the six line flags are single bits and no two share a bit |
| FieldLines.WithFlagOwnBit | ch22-core/src/video/field_line.rs:35-45 | OR-ing in a flag sets that flag and keeps every other bit |
| FieldLines.ClearOnlyFlags | ch22-core/src/video/field_line.rs:31-33 | clear zeroes the flags and leaves every other field alone |
| FieldLines.SetDisplayedOnlyItsBit | ch22-core/src/video/field_line.rs:35-37 | set_displayed sets DISPLAYED, keeps the other flag bits and leaves the other fields alone |
| FieldLines.SetInvalidRangeOnlyItsBit | ch22-core/src/video/field_line.rs:39-41 | set_invalid_range sets INVALID_RANGE, keeps the other flag bits and leaves the other fields alone |
| FieldLines.SetInterlaceOnlyItsBit | ch22-core/src/video/field_line.rs:43-45 | set_interlace_video_and_sync sets its flag, keeps the other flag bits and leaves the other fields alone |
| FieldLines.CursorFlagsBits | ch22-core/src/video/field_line.rs:47-56 | the two cursor raster bits become even and odd exactly, and the other six bits are kept |
| FieldLines.SetCursorRasterFlagsEffect | ch22-core/src/video/field_line.rs:47-56 | set_cursor_raster_flags sets the cursor bits to even and odd, keeps the other flags and the other fields |
| FieldLines.CopyFromSlice | ch22-core/src/video/field_line.rs:64 | a slice copy puts the source bytes at the offset and keeps every byte outside that window |
| FieldLines.SetCharData | ch22-core/src/video/field_line.rs:58-73 | the first slice lands at the start of the character data, the optional second straight after it, HAS_BYTES is set and nothing else changes |
| FieldLines.CopyIntoStride8 | ch22-core/src/video/field_line.rs:102-119 | byte offset of each eight-byte group of the source lands in consecutive bytes from the start, the rest kept, and the index after the last one is returned |
| FieldLines.SetCharDataForRaster | ch22-core/src/video/field_line.rs:75-88 | one raster line of high-resolution data: byte rasterLine of each cell of the first slice, then of the second slice; HAS_BYTES set, nothing else changed |
| FieldLines.Serialise | ch22-core/src/video/field_line.rs:3-13 | the packed record is 116 bytes, the renderer's line width |
| FieldLines.LayoutSize | ch22-core/src/video/field_line.rs:3-13 | the packed field sizes add up to 116 bytes, a whole number of 32-bit words |
| FieldLines.ParseSerialise | ch22-core/src/video/field_line.rs:3-13 | every field sits at its packed offset: parsing a line's bytes gives the line back |
| FieldLines.SerialiseParse | ch22-core/src/video/field_line.rs:3-13 | 116 bytes are exactly the bytes of the line they parse to if and only if the three padding bytes are zero |
| VideoMemoryAccess.RangeType | ch22-core/src/video/video_memory_access.rs:8-23 | a run is Empty exactly when its length is zero |
| VideoMemoryAccess.HiResMeansAllBelow | ch22-core/src/video/video_memory_access.rs:8-23 | a run is HiRes exactly when it is non-empty and every masked address in it is below 0x2000 |
| VideoMemoryAccess.TeletextMeansAllAbove | ch22-core/src/video/video_memory_access.rs:8-23 | a run is Teletext exactly when it is non-empty and every masked address in it is 0x2000 or above |
| VideoMemoryAccess.MaskedStartsAgree | ch22-core/src/video/video_memory_access.rs:13-34 | only fourteen address bits count: a start and the start plus 0x4000 give the same range type and the same RAM ranges |
| VideoMemoryAccess.TranslatedInRegion | ch22-core/src/video/video_memory_access.rs:57-85 | a translated address lies inside its region, and the region inside RAM below 0x8000 |
| VideoMemoryAccess.HiResUnwrapped | ch22-core/src/video/video_memory_access.rs:70 | below the wrap point a high-resolution address is eight times the CRTC address |
| VideoMemoryAccess.HiResMatchesReference | ch22-core/src/video/video_memory_access.rs:60-78 | the high-resolution translation equals an independent statement: eight bytes per address, wrapped by the screen size the latch selects |
| VideoMemoryAccess.TeletextTranslation | ch22-core/src/video/video_memory_access.rs:79-82 | a teletext address is 0x3c00 or 0x7c00, by CRTC bit 11, plus the low ten bits |
| VideoMemoryAccess.AsWrittenAddressesAgree | ch22-core/src/video/video_memory_access.rs:69-84 | the source's table gives the same RAM addresses as the corrected one; the regions differ only past the wrap point |
| VideoMemoryAccess.HiResSameZone | ch22-core/src/video/video_memory_access.rs:45-46 | start and end in one zone give one range of eight bytes per address, within RAM |
| VideoMemoryAccess.HiResEndOnBoundary | ch22-core/src/video/video_memory_access.rs:47-49 | an end landing on the next zone's region start gives one range up to the region end |
| VideoMemoryAccess.HiResAcrossBoundary | ch22-core/src/video/video_memory_access.rs:50-53 | an end past the next zone's start gives two ranges, the second from that region's start, eight bytes per address in total |
| VideoMemoryAccess.HiResEnd | ch22-core/src/video/video_memory_access.rs:8-23 | a HiRes run ends, exclusively, at CRTC 0x2000 at the latest |
| VideoMemoryAccess.HiResTotal | ch22-core/src/video/video_memory_access.rs:25-54 | the RAM ranges of a HiRes run hold eight bytes per CRTC address and lie within RAM |
| VideoMemoryAccess.TeletextSameBlock | ch22-core/src/video/video_memory_access.rs:45-46 | a teletext run within one 1 KiB block gives one range of one byte per address |
| VideoMemoryAccess.TeletextEndOnBlock | ch22-core/src/video/video_memory_access.rs:47-49 | a teletext run ending on a block boundary gives one range up to the page end |
| VideoMemoryAccess.TeletextAcrossBlock | ch22-core/src/video/video_memory_access.rs:50-53 | a teletext run crossing a block boundary gives two ranges, the second from the next page's start |
| VideoMemoryAccess.TeletextEndAtTop | ch22-core/src/video/video_memory_access.rs:34 | a run ending at the top of the 14-bit space wraps its end to 0 and still stops at its page's end |
| VideoMemoryAccess.TeletextEnd | ch22-core/src/video/video_memory_access.rs:8-23 | a Teletext run lies within CRTC 0x2000..0x4000 |
| VideoMemoryAccess.TeletextTotal | ch22-core/src/video/video_memory_access.rs:25-54 | the RAM ranges of a Teletext run hold one byte per CRTC address and lie within RAM |
| VideoMemoryAccess.TeletextInside | ch22-core/src/video/video_memory_access.rs:39-53 | any teletext run of under 256 addresses reads one byte per address, all within RAM |
| VideoMemoryAccess.AsWrittenOverreads | ch22-core/src/video/video_memory_access.rs:72-78 | as written, a HiRes run of one address ending at CRTC 0x2000 comes back as 0x3ff8..0x8000, 0x4008 bytes instead of 8 |
| VideoMemoryAccess.CorrectedStopsAtScreenStart | ch22-core/src/video/video_memory_access.rs:45-53 | with regions sized to their addresses the same run gives exactly its eight bytes, 0x3ff8..0x4000 |
| VideoMemoryAccess.AsWrittenAgreesOtherwise | ch22-core/src/video/video_memory_access.rs:25-54 | for every other HiRes or Teletext run the source's table and the corrected one give the same ranges |
| VideoRegisters.PackBound | ch22-core/src/video/video_registers.rs:4 | n four-bit entries pack below 16^n, so sixteen fit the u64 |
| VideoRegisters.SixteenEntriesFitU64 | ch22-core/src/video/video_registers.rs:4 | a sixteen-entry palette packs below 2^64 |
| VideoRegisters.EntryOfPack | ch22-core/src/video/video_registers.rs:46-51 | reading entry e of a packed palette gives its e-th entry |
| VideoRegisters.PackUpdate | ch22-core/src/video/video_registers.rs:46-51 | replacing entry e is the source's mask-and-or: the old entry's bits taken out, the new ones put in at shift 4e |
| VideoRegisters.SetUlaPaletteEffect | ch22-core/src/video/video_registers.rs:46-51 | set_ula_palette makes the entry the value's low four bits and keeps the other fifteen entries and every other register |
| VideoRegisters.ResetEffect | ch22-core/src/video/video_registers.rs:25-44 | reset loads the listed CRTC values and 0x9c, keeps the palette, and leaves a high-resolution mode with output on |
| VideoRegisters.ResetIdempotent | ch22-core/src/video/video_registers.rs:25-44 | resetting twice is resetting once |
| VideoRegisters.IsUlaTeletextBit | ch22-core/src/video/video_registers.rs:53-55 | teletext exactly when bit 1 of the ULA control byte is set |
| VideoRegisters.ScreenDelayBits | ch22-core/src/video/video_registers.rs:57-59 | no output exactly when bits 4 and 5 of R8 are both set |
| VideoCrtc.SelectWrite | ch22-core/src/video/video_crtc_registers_device.rs:83-85 | a write to the select address keeps five bits of the value as the selected register and changes no register |
| VideoCrtc.DataWrite | ch22-core/src/video/video_crtc_registers_device.rs:44-82 | a data write with R0..R15 selected stores the masked value there and changes nothing else |
| VideoCrtc.StoredIsWidth | ch22-core/src/video/video_crtc_registers_device.rs:48-82 | a register keeps no more than its width allows, and keeps a value whole exactly when it already fits that width |
| VideoCrtc.DataWriteIgnored | ch22-core/src/video/video_crtc_registers_device.rs:81 | a data write with R16..R31 selected changes nothing |
| VideoCrtc.ReadPanics | ch22-core/src/video/video_crtc_registers_device.rs:24-42 | a read panics exactly when it is a data read of R12, R13, R16 or R17; only R14 and R15 read non-zero |
| VideoCrtc.SelectThenWrite | ch22-core/src/video/video_crtc_registers_device.rs:44-85 | selecting a register at 0xfe20 and then writing 0xfe21 stores the masked value in it |
| VideoCrtc.WriteMaskTable | ch22-core/src/video/video_crtc_registers_device.rs:49-79 | R4, R6, R7, R10 keep seven bits; R5, R9, R11 five; R12, R14 six; the others eight |
| VideoCrtc.CursorWriteThenRead | ch22-core/src/video/video_crtc_registers_device.rs:31-33 | the cursor registers read back what was written, cut to their width |
| VideoUla.ReadIsConstant | ch22-core/src/video/video_ula_registers_device.rs:19-21 | every read gives 0xfe, whatever the registers, address or cycle |
| VideoUla.PaletteFields | ch22-core/src/video/video_ula_registers_device.rs:24-26 | the palette entry is the high nibble, and the stored colour is the low nibble with its low three bits inverted |
| VideoUla.WritePalette | ch22-core/src/video/video_ula_registers_device.rs:24-30 | a write whose address is 1 modulo 4 sets entry value>>4 of the palette to the inverted colour and keeps the other entries |
| VideoUla.WritePaletteKeeps | ch22-core/src/video/video_ula_registers_device.rs:23-35 | a palette write leaves the control byte and the CRTC registers alone and asks for no phase 2 |
| VideoUla.WriteControl | ch22-core/src/video/video_ula_registers_device.rs:31-33 | any other write sets the control byte and nothing else |
| VideoUla.PaletteWriteExample | ch22-core/src/video/video_ula_registers_device.rs:24-30 | writing 0x54 to 0xfe21 turns palette 0x1234567890abcdef into 0x12345678903bcdef |
| TimerDevices.Earliest | ch22-core/src/devices_lib/timer_device_list.rs:42-48 | the earliest trigger is None exactly when no trigger is set; otherwise it is one of the triggers and no set trigger is earlier |
| TimerDevices.SyncDue | ch22-core/src/devices_lib/timer_device_list.rs:34-37 | exactly the devices whose trigger equals the cycle count are synced and take the answer; every other entry is kept |
| TimerDevices.EarliestAppendNone | ch22-core/src/devices_lib/timer_device_list.rs:12-17 | a device added without a trigger does not move the earliest trigger |
| TimerDevices.AddDeviceEffect | ch22-core/src/devices_lib/timer_device_list.rs:12-17 | the new device gets the next id and no trigger, the earlier entries are kept and the cached next sync stays right |
| TimerDevices.ConsecutiveIds | ch22-core/src/devices_lib/timer_device_list.rs:12-17 | three devices added to an empty list get ids 0, 1 and 2 |
| TimerDevices.SetDeviceTriggerEffect | ch22-core/src/devices_lib/timer_device_list.rs:19-23 | setting a trigger changes that device's trigger only, and the next sync becomes the earliest of all triggers |
| TimerDevices.NeedsSyncMeansDue | ch22-core/src/devices_lib/timer_device_list.rs:25-27 | a sync is needed at c exactly when some device is due at c and none earlier |
| TimerDevices.SyncNotNeeded | ch22-core/src/devices_lib/timer_device_list.rs:29-32 | syncing at a cycle where no sync is needed changes nothing |
| TimerDevices.SyncEffect | ch22-core/src/devices_lib/timer_device_list.rs:29-40 | when a sync is needed, exactly the devices due now are synced and take their new state and trigger, and the next sync is recomputed |
| TimerDevices.SyncValid | ch22-core/src/devices_lib/timer_device_list.rs:29-40 | syncing keeps the cached next sync equal to the earliest trigger |
| TimerDevices.EarliestOnly | ch22-core/src/devices/timer_device_list/tests.rs:6-17 | devices with triggers 4 and 8 need a sync at 4 and not at 8 |
| TimerDevices.EarliestAfterSync | ch22-core/src/devices/timer_device_list/tests.rs:19-33 | two devices due at 4 that answer 8 and 12 leave a sync needed at 8 and not at 4 or 12 |
| Clocks.IncEffect | ch22-core/src/clock.rs:26-30 | inc adds exactly one cycle and then syncs the timer devices at the new count |
| Clocks.OneMhzSyncEffect | ch22-core/src/clock.rs:20-24 | after a 1 MHz sync the count is even; it went up by one exactly when it was odd |
| Clocks.CyclesNeverDecrease | ch22-core/src/clock.rs:16-30 | inc moves the count forward and a 1 MHz sync never moves it back |
| Clocks.OneMhzSyncIdempotent | ch22-core/src/clock.rs:20-24 | a second 1 MHz sync straight after the first does nothing |
| IoDeviceLists.MapAddresses | ch22-core/src/address_map/io_space/io_device_list.rs:35-38 | after registration each listed address maps to the new id, and every other address keeps its mapping or stays unmapped |
| IoDeviceLists.ByInterruptKind | ch22-core/src/address_map/io_space/io_device_list.rs:72-85 | the ids selected for a line are exactly the devices configured for it, in id order |
| IoDeviceLists.AddDeviceEffect | ch22-core/src/address_map/io_space/io_device_list.rs:18-41 | a new device gets the next id, its configuration is stored at that id and the earlier devices are kept |
| IoDeviceLists.AddDeviceAddresses | ch22-core/src/address_map/io_space/io_device_list.rs:35-38 | after adding, each listed address finds the new device even if an earlier device had it; every other address is as before |
| IoDeviceLists.DeviceAtUnregistered | ch22-core/src/address_map/io_space/io_device_list.rs:57-61 | no device is found at an address never registered, and a found id names a device |
| IoDeviceLists.LaterRegistrationWins | ch22-core/src/address_map/io_space/io_device_list.rs:35-38 | of two devices registered for the same address, the later one answers |
| IoSpaces.AnyInterrupt | ch22-core/src/address_map/io_space.rs:27-31 | the line is raised exactly when some device on it reports its interrupt; devices off the line are unchanged |
| IoSpaces.AnyInterruptAsks | ch22-core/src/address_map/io_space.rs:27-31 | `any` stops at the first device that reports: a device on the line is asked, and takes its answer's state, exactly when no earlier one reported; the devices after that one are left as they were |
| IoSpaces.TwoMhzTiming | ch22-core/src/address_map/io_space.rs:83 | a 2 MHz device is accessed at the current cycle and the clock is left alone |
| IoSpaces.OneMhzTiming | ch22-core/src/address_map/io_space.rs:74-82 | a 1 MHz device is accessed at the first even cycle not before the current one, and the clock ends one cycle after the access |
| IoSpaces.OneMhzTimingExamples | ch22-core/src/address_map/io_space/tests.rs:46-75 | from cycle 1000 a 1 MHz access happens at 1000 and ends at 1001; from 1001 it happens at 1002 |
| IoSpaces.UnmappedAccess | ch22-core/src/address_map/io_space.rs:37-48 | an address with no device reads 0xff and changes nothing, clock included; a write there is a no-op |
| IoSpaces.ReadMapped | ch22-core/src/address_map/io_space.rs:37-43 | a mapped read returns what its device returns at the access cycle; only that device changes |
| IoSpaces.WritePending | ch22-core/src/address_map/io_space.rs:45-59 | a write leaves a pending phase-2 write exactly when the device asks for one; otherwise the pending write is kept |
| IoSpaces.Phase2Once | ch22-core/src/address_map/io_space.rs:61-69 | phase 2 delivers the pending write to its device once and clears it, so a second phase 2 does nothing |
| IoSpaces.GetInterruptRaised | ch22-core/src/address_map/io_space.rs:27-31 | a line is raised exactly when some device configured for it reports its interrupt |
| IoSpaces.GetInterruptOtherLines | ch22-core/src/address_map/io_space.rs:27-31 | asking for an interrupt changes only devices on that line and keeps the space valid |
| RamSpace.Default | ch22-core/src/address_map/ram.rs:10-14 | power-on RAM is 0x8000 zero bytes |
| RamSpace.WriteThenRead | ch22-core/src/address_map/ram.rs:25-31 | reading an address just written gives the value; every other address keeps its byte |
| RamSpace.SliceContents | ch22-core/src/address_map/ram.rs:33-35 | a slice has end - start bytes, and its i-th byte is what a read of start + i gives |
| RamSpace.DefaultReadsZero | ch22-core/src/address_map/ram.rs:10-27 | power-on RAM reads zero everywhere |
| RomSpace.Default | ch22-core/src/address_spaces/rom.rs:9-13 | an empty socket is 0x4000 zero bytes |
| RomSpace.LoadThenRead | ch22-core/src/address_spaces/rom.rs:16-26 | a load succeeds exactly for a 16 KiB image, and then every address reads the image's byte there |
| RomSpace.DefaultReadsZero | ch22-core/src/address_spaces/rom.rs:9-26 | an empty socket reads zero everywhere |
| RomSelects.WriteThenRead | ch22-core/src/devices/rom_select.rs:19-27 | a write sets the latch to the value and asks for no phase 2; a later read gives the value back |
| RomSelects.ReadIgnoresAccess | ch22-core/src/devices/rom_select.rs:19-21 | a read ignores address and cycle and gives the latch's low byte |
| SystemCore.RegionRanges | ch22-core/src/system/core.rs:42-57 | pages 0x00-0x7f are RAM, 0x80-0xbf the paged ROM, 0xc0-0xfb and 0xff the OS ROM, 0xfc-0xfe the IO space |
| SystemCore.OffsetsInRange | ch22-core/src/system/core.rs:43-47 | every RAM address indexes inside the RAM and every rebased ROM address inside a ROM |
| SystemCore.RebasedIndex | ch22-core/src/system/core.rs:44-47 | rebasing to a window's first page takes that page's address off |
| SystemCore.SetupEffect | ch22-core/src/system/core.rs:29-38 | after setup the paged window shows ROM 15 and 0xfe30-0xfe33 find the new ROM select device, at 2 MHz with no interrupt line; RAM and ROMs are unchanged |
| SystemCore.ReadRam | ch22-core/src/system/core.rs:43 | a RAM read gives the RAM byte and touches neither the IO space nor the clock |
| SystemCore.ReadPagedRom | ch22-core/src/system/core.rs:44 | a paged-window read gives the selected ROM's byte at the address less 0x8000; a latch of 16 shows the OS ROM; a latch past the last socket is the index panic |
| SystemCore.ReadOsRom | ch22-core/src/system/core.rs:45-47 | both OS ROM windows read the OS ROM byte at the address less 0xc000 |
| SystemCore.UnmappedIo | ch22-core/src/system/core.rs:46-54 | an IO address with no device reads 0xff and a write there changes nothing, clock included |
| SystemCore.SelectRom | ch22-core/src/devices/rom_select.rs:23-27 | once set up, writing v at any of 0xfe30-0xfe33 sets the latch to v and changes nothing else, without a cycle, and reading any of those addresses then gives v |
| SystemCore.SelectThenReadPaged | ch22-core/src/system/core.rs:29-44 | once set up, writing v to the ROM select register makes a paged-window read give ROM v's byte at the address less 0x8000 for v < 17, and the index panic for v >= 17 |
| SystemCore.WriteDispatch | ch22-core/src/system/core.rs:49-57 | writes change RAM only below 0x8000 and the IO space only in 0xfc00-0xfeff; the ROM windows ignore them and the ROMs never change; a write that reaches the ROM select device sets the latch to the byte, and no other write changes the latch |
| CycleManagers.Repeat | ch22-core/src/cycle_manager.rs:55-64 | step runs exactly while the clock is short of the target, each call on the previous call's result, and the final count is returned |
| CycleManagers.PhantomReadEffect | ch22-core/src/cycle_manager.rs:27-29 | a phantom read delivers the pending write, clears it and ticks the clock once, leaving RAM, ROMs, latch and address map alone |
| CycleManagers.ReadRamCycle | ch22-core/src/cycle_manager.rs:31-35 | a RAM read takes exactly one cycle, gives the RAM byte and leaves RAM alone |
| CycleManagers.WriteRamCycle | ch22-core/src/cycle_manager.rs:37-41 | a RAM write takes exactly one cycle and stores the byte, the pending write delivered first |
| CycleManagers.GetInterruptKeepsClock | ch22-core/src/cycle_manager.rs:43-45 | asking for an interrupt takes no cycle and touches neither RAM nor the address map |
| JsIoDevices.Fields | ch22-core/src/devices/js_io_device.rs:107-111 | an answer is its value byte, then its flag byte, then the trigger field |
| JsIoDevices.DecodeBits | ch22-core/src/devices/js_io_device.rs:109-122 | the value is bits 0-7, the interrupt is bit 9, and the trigger is bits 16-63 exactly when bit 8 is set |
| JsIoDevices.FlagBits | ch22-core/src/devices/js_io_device.rs:113-115 | the interrupt and trigger flags are bits 1 and 0 of the answer shifted right by eight |
| JsIoDevices.DecodeEncode | ch22-core/src/devices/js_io_device.rs:109-122 | decoding an encoded answer gives back the value, interrupt and trigger |
| JsIoDevices.EncodeDecode | ch22-core/src/devices/js_io_device.rs:109-122 | re-encoding a decoded answer gives it back exactly when the unused flag bits are clear and, with no trigger, so are bits 16-63 |
| JsIoDevices.ReadAnswer | ch22-core/src/devices/js_io_device.rs:66-68 | with a read callback answering the encoding of (value, interrupt, trigger), a read returns that value and the device takes that interrupt and trigger; the phase-2 state is kept |
| JsIoDevices.WriteAnswer | ch22-core/src/devices/js_io_device.rs:70-74 | without phase-2 writes, a write whose callback answers the encoding of (value, interrupt, trigger) takes that interrupt and trigger at once and asks for no phase 2 |
| JsIoDevices.WriteDeferredNoCallback | ch22-core/src/devices/js_io_device.rs:74-78 | with phase-2 writes a write makes no callback: its outcome is the same for any callbacks, it keeps the value, asks for phase 2 and leaves interrupt and trigger alone |
| JsIoDevices.Phase2NeedsWrite | ch22-core/src/devices/js_io_device.rs:81-85 | phase 2 on a new device is the unwrap panic, and after a deferred write it always completes |
| JsIoDevices.DeferredWriteThenPhase2 | ch22-core/src/devices/js_io_device.rs:70-85 | a deferred write followed by phase 2 makes the callback the direct write would have made |
| JsIoDevices.SyncAnswer | ch22-core/src/devices/js_io_device.rs:87-105 | when a due trigger's handler answers the encoding of (value, interrupt, trigger), the device takes that interrupt and trigger and reports that interrupt, and a later sync before the new trigger, or with none set, does nothing |
| JsIoDevices.InterruptEffect | ch22-core/src/devices/js_io_device.rs:87-95 | asking for the interrupt syncs first and reports the flag after the sync; setting it overwrites the flag only |
| JsTimerDevices.TriggerParamsBits | ch22-core/src/devices/js_timer_device.rs:45-53 | an answer sets a trigger exactly when its bit 8 is set, and the trigger is the answer shifted right by sixteen |
| JsTimerDevices.TriggerParamsEncoded | ch22-core/src/devices/js_timer_device.rs:45-53 | an answer encoded as a JS IO device answer sets exactly its trigger, whatever its other bytes |
| JsTimerDevices.SyncReschedules | ch22-core/src/devices/js_timer_device.rs:29-35 | a due sync whose handler answers an encoded trigger sets exactly that trigger; a later sync before it, or with none set, does nothing, and one at or past it calls the handler again |
| JsTimerDevices.SyncFires | ch22-core/src/devices/js_timer_device.rs:29-35 | when a sync fires the new trigger depends on the handler's answer only |
| JsTimerDevices.SyncDisarms | ch22-core/src/devices/js_timer_device.rs:45-53 | an answer with bit 8 clear leaves no trigger, so a later sync does nothing |
| JsTimerDevices.SetTriggerOverwrites | ch22-core/src/devices/js_timer_device.rs:37-39 | setting the trigger overwrites it: the last setting wins |
| SystemFfi.KindBits | ch22-core/src/system/system_ffi.rs:94-98 | the line is IRQ exactly when flag bit 2 is set and bit 1 clear, NMI exactly when bit 1 is set and bit 2 clear |
| SystemFfi.SpeedAndPhase2Bits | ch22-core/src/system/system_ffi.rs:100-112 | the speed is 1 MHz exactly when flag bit 0 is set, and phase-2 writes are on exactly when bit 4 is set |
| SystemFfi.DecodeEncodeFlags | ch22-core/src/system/system_ffi.rs:162-165 | decoding the flags encoded from a configuration gives the configuration back |
| SystemFfi.EncodeDecodeFlags | ch22-core/src/system/system_ffi.rs:94-112 | decoding reads bits 0, 1, 2 and 4 only: re-encoding gives those bits back, except that both line bits together mean no line |
| SystemFfi.AddJsIoDeviceEffect | ch22-core/src/system/system_ffi.rs:86-118 | a JS IO device gets the next id, the decoded line, speed and phase-2 setting, and answers the listed addresses |
| SystemFfi.AddJsTimerDeviceEffect | ch22-core/src/system/system_ffi.rs:120-124 | a JS timer device gets the next id and starts with no trigger, so the earliest trigger is unchanged |
| SystemFfi.LoadRomEffect | ch22-core/src/system/system_ffi.rs:55-61 | a bank of 17 or more is rejected; otherwise a wrongly sized image is rejected; otherwise only that socket changes |
| SystemFfi.LoadedRomReads | ch22-core/src/system/system_ffi.rs:55-61 | once an image is loaded into the selected bank the paged window reads the image |
| SystemFfi.PackBytesBound | ch22-core/src/system/system_ffi.rs:144-159 | n bytes pack below 256^n |
| SystemFfi.ByteOfPack | ch22-core/src/system/system_ffi.rs:144-159 | reading byte i of a packed sequence gives its i-th element |
| SystemFfi.PartialVideoRegistersFit | ch22-core/src/system/system_ffi.rs:144-159 | the packed registers fit a u128 |
| SystemFfi.PartialVideoRegistersLayout | ch22-core/src/system/system_ffi.rs:147-158 | bytes 0-10 of the packed value are R0, R1, R3, R4, R5, R6, R7, R8, R9, R12 and R13, byte 11 is the ULA control byte and bytes 12-15 are zero |

## Left out

- CycleManagers.Repeat: requires every step to advance the clock, because the source's loop never terminates when a step does not advance it.
- The link between the executor and the cycle manager is not modelled: the executor runs on an abstract bus (`Bus`), and the cycle manager is modelled over the memory map separately.
- The `CycleOp` attached to a bus cycle (`Sync`, `CheckInterrupt`) is recorded in the trace, but what the system does for it is not modelled: timer syncing and interrupt polling in the middle of an instruction.
- Cycle counts are unbounded, so the source's `u64` cycle counter never wraps in the model; at 2 MHz it would take about 290,000 years to wrap.
- The JavaScript callbacks are function parameters: the JS call itself, its `expect` on a failed call and the conversion of a JS value to `u64` are left out.
- The WebAssembly glue in system_ffi.rs is left out: `video_field_clear`, `snapshot_scanline`, `add_static_device`, `reset`, `run` and the constructor. The latter two only call into the core.
- `set_device_interrupt` and `set_device_trigger` in system_ffi.rs only call through. They are covered by `IoSpaces.SetInterrupt` and `TimerDevices.SetDeviceTrigger`.
- The renderer (render/*.ts), the field buffer and the scanline snapshot are left out. `FieldLines` models one line's packed record only.
- Several older source files repeat components under other paths, for example device/, devices/io_space.rs and system/address_map.rs. The model follows the files listed in the table.
- The ROM select latch is an `Rc<Cell<usize>>` shared by the memory map and the ROM select device. The model keeps one latch field in `SystemCore.Core` and records the id the device was registered under. An IO read or write that reaches that id is the ROM select register's read or write of the latch, with the device's speed and its phase-2 answer. The device kept in that slot of the IO device list only holds the place. The sharing through `Rc` is not modelled.
- The video registers are shared through `Rc<RefCell<…>>` in the source. The model passes the register record explicitly.
- The ULA palette is held as its sixteen four-bit entries. `VideoRegisters.Pack` relates them to the source's `u64`, and `VideoRegisters.PackUpdate` shows that an entry update equals the source's mask-and-or.
- The partial video registers are packed as a sum of bytes at disjoint byte positions. That sum equals the source's OR of shifted bytes, but the model does not prove that equality at the bit level.
- The source files come from different points in the repository's history, and some signatures do not match one another. The model picks one reading for each mismatch below:
  - `JsTimerDevice::sync` returns nothing, but the timer-device list stores what `sync` returns as the next trigger. In the model, a synced device yields its new state and its next trigger.
  - The IO space calls `phase_2` with a value, but the device's `phase_2` has no value parameter. The model delivers the address, value and cycle.
  - system_ffi.rs passes the IC32 latch to `JsIODevice::new`, which takes no such argument. The model ignores the latch there.
  - `RomSelect` takes a clock argument that it never uses. The model drops it.
  - cpu.rs calls a free function `execute(io, &mut registers, &mut interrupt_due_state, false)`. executor.rs defines `Executor::execute(&mut self, allow_untested_in_wild)`, and handles interrupts in the separate method `interrupt`. The model follows executor.rs: `Executor.Execute(m, allowUntestedInWild)` runs one instruction, and `Executor.Interrupt(m, nmi)` runs the interrupt sequence. `Cpu.HandleNextInstruction` calls `Execute` with `false` and does not pass the interrupt-due state.
  - executor.rs calls per-mode helper functions such as `absolute_x_data` and `zero_page_x_address`. addressing.rs declares an `AddressMode` enum with methods. The model follows addressing.rs: `Addressing.Address(m, mode)` and `Addressing.Data(m, mode)`, each taking an `AddressMode`.
- The CRTC device writes fields named `crtc_r14_cursor_h` and so on, while video_registers.rs declares `crtc_r14_cursor_high`. The model indexes R0..R15 by number.
- `Cpu.HandleNextInstruction` models one instruction. The interrupt check that the wider system performs between instructions is not part of cpu.rs and is left out.
- The texts of panic messages are not modelled. The reason for a panic is.
- Reading a vector's high byte uses `interrupt_vector + 1` without wrapping. This never overflows, because the highest vector is 0xfffe, and the model uses fixed addresses.

## Findings

| source | as written | input that shows it | evidently intended | confidence | as-written member | corrected member |
|---|---|---|---|---|---|---|
| ch22-core/src/video/video_memory_access.rs:69-78 | Past the wrap point, the translation table reports the region 0x0000..0x8000, even though the addresses it returns stop at the screen start. A high-resolution run whose exclusive end is CRTC 0x2000 therefore takes the "end on the region start" branch and reads up to 0x8000. | start 0x1fff, length 1, IC32 latch 0: the range comes back as 0x3ff8..0x8000, 0x4008 bytes instead of 8 | the region past the wrap point ends at the screen start (0x8000 minus 8 times the adjustment), so the run reads 0x3ff8..0x4000 | not executed | VideoMemoryAccess.AsWrittenOverreads | VideoMemoryAccess.CorrectedStopsAtScreenStart |
