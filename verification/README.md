# riscose: a verified model

riscose emulates enough of RISC OS on an ARM emulator to run its programs on a Unix host.
This project models seven of its parts in Dafny and proves what they are for. The
code that works in place is modelled in place, by classes and methods over arrays and fields;
each is proved against functions on values, and the laws are proved about those functions.

* **CRC-16/ARC** (`CrcAlgebra`, `CrcPowers`, `Crc16`): the bit, byte-table and word-table
  loops compute one function, and the combine function is multiplication by a power of x in
  GF(2)[x] modulo x^16+x^15+x^2+1.
* **First-fit heap** (`HeapLayout`, `HeapImage`, `HeapEdits`, `Heap`): a chain of 40-byte
  headers inside a byte array (the layout on a 64-bit little-endian host), with blocks freed by
  zeroing their size and merged lazily by a later search.
* **Hash table** (`BitMask`, `HashTable`): buckets of linked elements, doubled in place by
  relinking, refining a finite map.
* **ARM emulator, 26-bit build** (`Arm*`): the state with its scattered status fields
  (`ArmState`, `ArmWords`), register banking (`ArmBanks`), status writes and exceptions
  (`ArmPsr`, `ArmPsrLaws`, `ArmExceptions`), flags and conditions (`ArmFlags`), register-list
  transfers (`ArmBlock`, `ArmTransfer`, `ArmTransferLaws`, `ArmLists`, `ArmUserBank`,
  `ArmTables`), multiplies (`ArmMultiply`, `ArmProducts`), operands, the barrel shifter and its arithmetic (`ArmOperands`,
  `ArmBits`, `ArmShifts`), one instruction (`ArmExecute`) and what it computes, reads, writes and
  keeps (`ArmInstructions`, `ArmJumps`, `ArmStatus`, `ArmAccess`, `ArmSteps`), whole
  instruction words (`ArmEncodings`), whole runs of the pipelined fetch loop (`ArmPipeline`), and the emulator's own fields and loops (`ArmEmulator`, `ArmRoutines`,
  `ArmEmulation`). Register layout, conditions, transfers and
  26-bit modes follow the ARM Architecture Reference Manual (DDI 0100), sections A2.3, A3.2,
  A5.4 and A8, wherever the code does.
* **GDB remote serial packets** (`RspFraming`, `RspProtocol`, `Rsp`): framing, escaping and checksums as in
  "Debugging with GDB", appendix "GDB Remote Serial Protocol", section Overview.
* **Module unsqueezer** (`SqueezeTables`, `SqueezeWords`, `Unsqueeze`): the delta-coded tables
  and the nibble-coded words, against an encoder for the format the decoder reads.
* **Path translator** (`Path`, `PathNames`): host paths to RISC OS paths and back.

Where the code and its documentation disagree the model follows the code. The comment on
`rsp_unescape` says escapes are undone by OR; the code uses exclusive or. Flags set by a long
multiply never include N. A post-indexed load whose offset register is its destination moves the
base by the word just loaded (`ArmAccess.LoadReads`, `ArmAccess.MovedByLoaded`).

Where the code fails, a lemma says exactly when:

* `heap_resize` does not round its new limit to a word as `heap_init` does. Growing a block in
  place can then pass the limit, for exactly the sizes `HeapLayout.ResizedLimitIsSafe` excludes;
  `HeapLayout.UnroundedLimitOverruns` is the smallest.
* `host_path_from_ro_path` copies a path that begins with a dot or a slash as it is, into a block
  counted for its translation. It writes past the block exactly when the path has more characters
  to drop than carets (`Path.HostPathFits`), as `/$` does (`Path.VerbatimOverruns`).
* A path translated to RISC OS form and back is not always the same path; `Path.PathRoundTrip`
  says exactly when it is, and `Path.LostPaths` gives some that are lost.
* `heap_block_alloc` can refuse a request although a gap it has just merged would hold it. Which
  heaps it refuses, and when asking again would help, is `HeapLayout.RetryHelps`, a condition on
  the heap before the call; `HeapLayout.RetryCanSucceed` is such a heap, three calls old.

What the model takes as parameters: whether an allocation succeeds (path translator,
unsqueezer), the byte stream of a connection and its end (packets), the address of a buffer
(CRC), the visit function of a walk.

## Model

| member | source | states |
|---|---|---|
| Crc16.CrcBit | src/os/crc16arc.c:5-16 | the bit-at-a-time loop leaves the defining checksum of the bytes, or 0 for a null buffer |
| Crc16.CrcByte | src/os/crc16arc.c:240-249 | the byte-table loop returns the same value as the bit loop for every buffer and start value |
| Crc16.CrcWord | src/os/crc16arc.c:253-282 | the word loop, with its unaligned head and short tail, returns the same value as the bit loop for every buffer, start value and address |
| Crc16.WordStepIsCrc | src/os/crc16arc.c:264-273 | one combination of eight table entries equals feeding the eight bytes one at a time |
| Crc16.TableSteps | src/os/crc16arc.c:27-238 | entry i of table k, defined by the tables' recurrence, is 8(k+1) shift steps of i |
| Crc16.CrcRem | src/os/crc16arc.c:18-25 | the partial-byte loop leaves the checksum of the low bits of its value, for the 0 to 8 bits its header (crc16arc.h) allows |
| Crc16.RemSplit | src/os/crc16arc.c:18-25 | i+j bits are the first i bits and then, from there, the next j |
| Crc16.RemByte | src/os/crc16arc.c:18-25 | eight bits of a value are the checksum of that byte |
| Crc16.CrcConcat | src/os/crc16arc.c:5-16 | the checksum of a concatenation is the checksum of the second part started from that of the first |
| Crc16.CrcLinear | src/os/crc16arc.c:5-16 | the checksum is affine in its start value over GF(2) |
| CrcAlgebra.StepsLinear | src/os/crc16arc.c:11-13 | shifting is linear over exclusive or, for any number of steps |
| CrcAlgebra.StepsNonzero | src/os/crc16arc.c:11-13 | no number of shift steps takes a nonzero remainder to zero: x is a unit |
| CrcAlgebra.MulStepsLinearLeft | src/os/crc16arc.c:284-296 | the product is linear in its first argument |
| CrcAlgebra.MulBilinear | src/os/crc16arc.c:284-296 | the product modulo x^16+x^15+x^2+1 is linear in both arguments |
| CrcAlgebra.MulStepsStep | src/os/crc16arc.c:284-296 | multiplying commutes with multiplying by x |
| CrcPowers.MulX | src/os/crc16arc.c:284-296 | multiplying by the n-th power of x is n shift steps |
| CrcPowers.XAdd | src/os/crc16arc.c:284-316 | powers of x multiply by adding exponents |
| Crc16.MultModP | src/os/crc16arc.c:284-296 | terminates for every nonzero first argument and returns the product of the two polynomials modulo x^16+x^15+x^2+1 |
| Crc16.CombSquares | src/os/crc16arc.c:298-301 | each entry of the combine table is nonzero and squares to the next, the last wrapping to the first |
| Crc16.X8nModP | src/os/crc16arc.c:303-316 | terminates for every n, wrapping its table index from 15 to 0, and returns x to the power 8n, which is nonzero |
| Crc16.CombineLaw | src/os/crc16arc.c:318-321 | for all byte sequences a and b and every start value, the checksum of a followed by b is the combination of the checksum of a, that of b from 0, and the length of b |
| Crc16.CrcComb | src/os/crc16arc.c:318-321 | the routine returns that combination for every pair of checksums and every length |
| Crc16.CombAssociative | src/os/crc16arc.c:318-321 | combining three checksums gives the same value from either end |
| Heap.Heap.constructor | src/heap.c:110-122 | an empty heap is one root header with the limit rounded down to a word |
| Heap.Heap.Describe | src/heap.c:124-144 | the total of the gaps plus headers plus aligned sizes is the region size, and the largest gap is reported |
| Heap.Heap.BlockAlloc | src/heap.c:217-256 | a zero request is refused; otherwise it succeeds exactly when a block the lazy search keeps has a large enough gap of its own, then places the new block at the first such gap, and after a refusal the next request exactly when two neighbours among those blocks are far enough apart; the new block is disjoint from every live block and sized as asked, and every live block keeps its place, size and bytes |
| Heap.Heap.BlockFree | src/heap.c:258-266 | exactly the freed block stops being live; all others keep their bytes |
| Heap.Heap.BlockResize | src/heap.c:268-305 | the block stays in place exactly when it does not grow by more than its own gap; otherwise it moves to the first gap that holds it with a header, and is refused, with nothing changed, exactly when there is none; its first min(old, new) bytes are kept and all other live blocks are untouched |
| Heap.Heap.HeapResize | src/heap.c:307-323 | every header gets the new limit, whatever it is, and all blocks and their bytes stay; what is left is a heap again exactly when every block ends below the limit and it is a multiple of four inside the region, as growing by words ensures |
| Heap.Heap.BlockSize | src/heap.c:325-329 | the size reported is the size asked for |
| Heap.Heap.OwnerWrite | src/heap.c:217-256 | a write inside a live block changes that block's bytes and no other's, and no header |
| Heap.Heap.CoalesceEmpty | src/heap.c:176-188 | unlinks the run of empty blocks behind a block, which keeps every live block |
| HeapLayout.CoalesceKeeps | src/heap.c:176-188 | joining empty blocks keeps the chain well formed and the set of live blocks |
| HeapLayout.InsertKeeps | src/heap.c:153-168 | filling a gap keeps the chain well formed and adds exactly one live block, new to the set |
| HeapLayout.ResizeKeeps | src/heap.c:282-288 | a block resized within its gap keeps the chain well formed |
| HeapLayout.Disjoint | src/heap.c:42-62 | two blocks of a well-formed chain never overlap and both end before the limit |
| HeapLayout.Accounting | src/heap.c:124-144 | gaps, headers and aligned sizes from any block on add up to the distance to the limit |
| HeapLayout.GapsAligned | src/heap.c:61-62 | every gap is a nonnegative multiple of four |
| HeapLayout.SearchKeeps | src/heap.c:236-248 | the search, which merges empty blocks as it goes, loses no live block |
| HeapLayout.FailureTidies | src/heap.c:236-248 | a search that fails leaves no empty block except perhaps the last |
| HeapLayout.RetryLaw | src/heap.c:176-248 | after a failed allocation a repeated one leaves the chain alone and succeeds exactly when some gap is large enough, taking the first such gap |
| HeapLayout.FirstAttempt | src/heap.c:236-248 | a search succeeds exactly when its first block, a live block or the last block has a large enough gap before any merging |
| HeapLayout.Attempts | src/heap.c:176-248 | and when it fails, a second one, for any request, succeeds exactly when the distance from one of those blocks to the next is large enough |
| HeapLayout.RetryHelps | src/heap.c:176-248 | so a request is refused once and granted on repetition exactly when no such block has the gap but two neighbours among them are far enough apart |
| HeapLayout.RetryCanSucceed | src/heap.c:176-248 | as after two allocations of four bytes in a region of 128 bytes, the first of them freed: four bytes are refused, then granted |
| HeapLayout.FirstPlace | src/heap.c:236-248 | a search ends at the first block it keeps whose own gap before any merging is large enough |
| HeapImage.TotalWraps | src/heap.c:55-56 | in 64-bit arithmetic the space asked for is the true total exactly when size + 43 is below 2^64; for the sizes beyond it wraps to at most a header |
| HeapLayout.GrowTestIsSafe | src/heap.c:282-288 | the test for growing in place, which compares unaligned sizes, is safe for every size exactly when the gap is a multiple of four |
| HeapLayout.ResizedLimitIsSafe | src/heap.c:282-323 | after heap_resize to a size, every growth in place that the test admits stays before the next block or the limit, in every heap whose blocks fit below that size, exactly when the size is a multiple of four or below 84, where no live block fits |
| HeapLayout.UnroundedLimitOverruns | src/heap.c:307-323 | the smallest instance: with 85 bytes a block of 4 may grow to 5 and then ends beyond the limit |
| HashTable.KeyToHash | src/monty/hash.c:104-118 | the loop computes the 32-bit hash of the key's signed bytes, wrap-around included |
| HashTable.KeyHashIs | src/monty/hash.c:104-118 | that hash is w + floor(w/32) modulo 2^32, where w is the sum of the characters weighed by powers of 33, modulo 2^32 |
| HashTable.Hash.constructor | src/monty/hash.c:35-46 | a new table is empty, with eight buckets |
| HashTable.Hash.Lookup | src/monty/hash.c:176-189 | returns the element the abstract map holds for the key, or null when the key is absent |
| HashTable.Hash.Add | src/monty/hash.c:68-102 | a fresh key is added to the map, and a key already present is refused and the map stays; the bucket count doubles exactly when the elements were twice as many as the buckets or more |
| HashTable.Hash.Enlarge | src/monty/hash.c:123-167 | doubling keeps the map: the bucket count doubles, every element moves to the bucket its hash selects, none is lost or repeated |
| HashTable.SplitBucket | src/monty/hash.c:145-158 | the pointer surgery leaves two chains that partition the old one by the new mask bit and touches no other bucket |
| BitMask.MaskDouble | src/monty/hash.c:145-158 | under a doubled mask an element stays in its bucket or moves up by the old bucket count |
| HashTable.AddPlaced | src/monty/hash.c:83-97 | pushing a fresh element on the bucket its hash selects keeps every element in its place |
| HashTable.SplitHome | src/monty/hash.c:145-158 | after a split every element is in the bucket its hash selects under the wider mask |
| HashTable.KeysOnce | src/monty/hash.c:68-102 | the number of elements is the size of the map |
| HashTable.FlatOnce | src/monty/hash.c:226-242 | the chains together hold every element of the map exactly once |
| HashTable.Hash.Walk | src/monty/hash.c:226-242 | a full walk visits every element once in chain order; a walk cut short stops at the first nonzero answer and returns it |
| HashTable.Hash.Datums | src/monty/hash.c:271-297 | the flattened array holds every datum once and a terminator |
| ArmState.PackParts | src/armul/armemu.h:132-146 | splitting any 32-bit register 15 into its fields and reassembling it loses nothing |
| ArmState.PackFields | src/armul/armemu.h:132-146 | assembling fields and splitting the result gives the fields back |
| ArmPsr.GetSetR15 | src/armul/armsupp.c:139-161 | in a 26-bit mode reading register 15 gives exactly the word last written to it |
| ArmStatus.CpsrNat | src/armul/armemu.h:132-146 | the CPSR as a number: flags in the top four bits, interrupt masks in bits 6 and 7, the mode lowest |
| ArmStatus.R15Nat | src/armul/armemu.h:132-146 | register 15 as a number: flags on top, interrupt masks in bits 26 and 27, the program counter, the mode lowest |
| ArmStatus.FlagsAt | src/armul/armemu.h:132-146 | the flags taken from a word are its four top bits |
| ArmStatus.FieldsAt | src/armul/armemu.h:132-146 | mode and masks taken from a word are the bits at those places |
| ArmBanks.SwitchKeepsViews | src/armul/armsupp.c:303-348 | switching between real banks changes no register as any of the six banks sees it, and makes the register file the new bank's view |
| ArmBanks.SwitchesKeepViews | src/armul/armsupp.c:303-348 | so does every sequence of switches among real banks |
| ArmBanks.SwitchBack | src/armul/armsupp.c:303-348 | a switch and its reverse restore the whole register file |
| ArmBanks.SwitchShares | src/armul/armsupp.c:303-348 | which registers a switch between the four modes replaces: r13 and r14 always, r8 to r12 only into and out of fast interrupt mode, the others never |
| ArmEmulator.ARMul.SwitchMode | src/armul/armsupp.c:303-348 | the copying loops bring registers, bank matrix and current bank to what the switch calls for |
| ArmEmulator.ARMul.CPSRAltered | src/armul/armsupp.c:239-273 | mode, bank, interrupt masks, flags and register 15 follow the new CPSR |
| ArmEmulator.ARMul.R15Altered | src/armul/armsupp.c:280-293 | mode, bank, interrupt masks and flags follow register 15 |
| ArmEmulator.ARMul.FixCPSR | src/armul/armsupp.c:185-200 | an MSR writes the selected fields, in user mode the flags alone |
| ArmEmulator.ARMul.SetR15PSR | src/armul/armemu.h:157-167 | TSTP and its kind write the status bits of register 15, in user mode the flags alone |
| ArmEmulator.ARMul.WriteR15 | src/armul/armemu.c:3428-3440 | a result for register 15 is a jump that keeps the status bits |
| ArmEmulator.ARMul.WriteSR15 | src/armul/armemu.c:3446-3464 | with the S bit it also takes the status bits, in user mode the flags alone |
| ArmEmulator.ARMul.Abort | src/armul/arminit.c:230-304 | the steps of exception entry bring the whole state to what entry calls for |
| ArmEmulator.ARMul.Reset | src/armul/arminit.c:144-157 | reset enters supervisor mode with interrupts masked, flags clear and the pipeline to be filled from address zero, and keeps every bank's r0-r14 |
| ArmEmulator.ARMul.constructor | src/armul/arminit.c:68-122 | a new state is reset: supervisor mode with interrupts masked, flags clear and the pipeline to be filled from address zero, r0-r14 of every bank zero |
| ArmExceptions.AbortEnters | src/armul/arminit.c:230-304 | exception entry: the exception's mode, at its vector, interrupts masked, flags kept, old CPSR in the SPSR, return address in r14; no other register of any bank changes |
| ArmExceptions.AbortReturns | src/armul/armemu.c:3446-3464 | a handler that keeps its r14 and moves it to register 15 with the S bit resumes the interrupted mode, masks, flags and address, exactly when the program counter was not zero |
| ArmStatus.VectorMasks | src/armul/arminit.c:230-304 | every exception masks interrupts, and fast interrupts are masked too by reset and fast interrupt alone; these two, interrupts and all others enter their own modes |
| ArmStatus.ExceptionLink | src/armul/arminit.c:230-304 | the return address is the program counter less four, modulo 2^26 |
| ArmStatus.MrsReads | src/armul/armemu.c:1022-1035 | MRS reads the current CPSR or SPSR field by field into one register, in user mode the CPSR either way |
| ArmStatus.MsrWrites | src/armul/armemu.c:1105-1112 | MSR to the CPSR sets the flags as bit 19 asks, and outside user mode masks and mode as bit 16 asks, and leaves the program counter, the SPSRs and every bank's r0-r14 |
| ArmStatus.MsrSaves | src/armul/armemu.c:1235-1240 | MSR to an SPSR sets the same fields of the current mode's, and nothing else |
| ArmStatus.BxJumps | src/armul/armemu.c:1071-1103 | BX goes to the program counter field of its register, and an odd target is an undefined instruction |
| ArmEncodings.MoveForms | src/armul/armemu.c:1022-1105 | MRS, MSR and BX are the words with the architecture's bit patterns, and no others |
| ArmPsrLaws.FixCPSRConfined | src/armul/armsupp.c:185-200 | an MSR from user mode changes neither mode, bank, interrupt masks nor program counter, and the flags only if asked |
| ArmPsrLaws.WriteSR15Confined | src/armul/armemu.c:3446-3464 | a flag-setting jump from user mode changes only flags and program counter |
| ArmPsrLaws.SetR15PSRConfined | src/armul/armemu.h:157-167 | a P-form test from user mode changes only the flags |
| ArmFlags.AddFlagsTrue | src/armul/armemu.c:787-806 | the shortcut test and the sign-bit formulas for a sum give the true unsigned carry and signed overflow, with and without carry in |
| ArmFlags.SubFlagsTrue | src/armul/armemu.c:849-868 | those for a difference say exactly whether a borrow was needed and whether the signed result overflows, with and without borrow in |
| ArmShifts.ShiftByRegMeans | src/armul/armemu.c:3204-3246 | LSL by any count from a register multiplies by a power of two modulo 2^32, LSR and ASR divide the unsigned and the signed value rounding down, ROR rotates; counts of 32 and more included |
| ArmShifts.CarryByRegMeans | src/armul/armemu.c:3287-3371 | the carry out of such a shift is the last bit shifted out of the word, of a rotation the top bit of the result, and of a shift by zero the old carry |
| ArmShifts.ShiftByConstMeans | src/armul/armemu.c:3248-3276 | a shift by a constant is the same operation, with zero standing for 32 in right shifts and for a rotation through the carry in ROR |
| ArmShifts.CarryByConstMeans | src/armul/armemu.c:3372-3421 | and its carry is the last bit shifted out |
| ArmTables.ImmedTable | src/armul/arminit.c:50-52 | the table loop puts every immediate operand where its instruction looks it up |
| ArmShifts.ImmediateMeans | src/armul/arminit.c:50-52 | an immediate operand is the low octet rotated right by twice the four bits above it |
| ArmInstructions.ShiftedOperand | src/armul/armemu.c:3198-3279 | the right-hand operand of an instruction is its register, as it reads when the shift is made, shifted by the places its constant or its count register says |
| ArmInstructions.ShifterCarry | src/armul/armemu.c:3286-3422 | the carry a logical instruction with the S bit takes is the last bit its shift moved out, for a rotated immediate its top bit, and without shift or rotation the old carry |
| ArmStatus.OperandsRead | src/armul/armemu.c:3198-3246 | operands as registers read: of r15 the left one is the program counter alone and the right one has the status bits, either four further on behind a register shift; a shift by a register is by its value modulo 256 |
| ArmStatus.AdvancedNat | src/armul/armemu.h:211-216 | where register 15 is read or stored after being advanced, it gives its status bits and an address four bytes on, modulo 2^26 |
| ArmEncodings.AddsShifted | src/armul/armemu.c:771-808 | ADDS r1, r2, r3, LSR #4 as an instruction word: r1 becomes r2 plus a sixteenth of r3 modulo 2^32 with its flags, on every machine |
| ArmInstructions.Arithmetic | src/armul/armemu.c:502-1828 | ADD, ADC, SUB, SBC, RSB, RSC, CMP and CMN with any operands: the destination holds the sum or difference modulo 2^32; with the S bit C is the true carry or no-borrow, V the true signed overflow, N and Z describe the result, without it the flags stay; no other register, flag or field changes |
| ArmInstructions.Logical | src/armul/armemu.c:502-1828 | AND, EOR, ORR, MOV, BIC, MVN, TST and TEQ: each bit of the destination is the operation on that bit of the operands; with the S bit N and Z describe the result, C is the shifter carry and V stays; nothing else changes |
| ArmInstructions.CompareThenExecute | src/armul/armemu.c:435-1828 | after an executed CMP an instruction executed on the flags it left, as after the next fetch, is skipped unless its condition holds of the two operands: HI, LS, CS, CC as their unsigned order, GE, LT, GT, LE as their signed order, EQ and NE as equality, VS and MI as overflow and sign of the difference |
| ArmJumps.ResultJumps | src/armul/armemu.c:3428-3464 | data processing into register 15 jumps to the program counter field of its result; with the S bit the flags follow the result too, and outside user mode also mode and interrupt masks; otherwise these stay, and no r0-r14 of any bank changes |
| ArmJumps.ArithmeticJumps | src/armul/armemu.c:3428-3464 | an arithmetic result for register 15 jumps to the sum or difference modulo 2^26, rounded down to a word |
| ArmJumps.OffsetIsSigned | src/armul/armemu.h:330-336 | the two encodings of a branch offset, by its sign, both give four times the signed 24-bit number modulo 2^32 |
| ArmJumps.BranchGoes | src/armul/armemu.c:2855-2954 | B and BL jump by four times that number from eight bytes ahead, modulo 2^26, and change no register but r14, for BL |
| ArmJumps.LinkReturns | src/armul/armemu.c:2888-2954 | the link of BL is the address four bytes on, modulo 2^26, with the current flags and mode, and with the current interrupt masks exactly unless the branch is in the last word of the address space with the lower mask clear |
| ArmJumps.LoadJumps | src/armul/armemu.c:3532-3556 | a load to r15 jumps to the program counter field of what it loads and keeps the status; no other register but a base written back changes |
| ArmJumps.ListReturns | src/armul/armemu.c:3797-3872 | LDM with the S bit and r15 loads the current bank as the plain form does and then takes its status from the last word, in user mode the flags alone |
| ArmAccess.AddressNat | src/armul/armemu.c:1830-2653 | a transfer is at the base address, or in the pre-indexed forms at the base plus or minus the offset modulo 2^32 |
| ArmStatus.OffsetReads | src/armul/armemu.c:3472-3507 | that offset is the low twelve bits of the instruction, or a register shifted as the instruction says |
| ArmAccess.LoadReads | src/armul/armemu.c:1830-2653 | LDR and LDRB: the destination gets the word at the address, or the byte there with zeros above it; memory stays; writeback moves the base by the offset modulo 2^32 unless the base was loaded; no other register changes |
| ArmAccess.StoreWrites | src/armul/armemu.c:1830-2653 | STR and STRB: the four bytes at the address become the register, or the one byte its low octet, and every other byte of memory stays |
| ArmAccess.StoreKeeps | src/armul/armemu.c:1830-2653 | a store changes no register but a base written back, which moves by the offset modulo 2^32 |
| ArmAccess.StoredIsLoaded | src/armul/armemu.c:1830-2653 | loading from the address of a store, in whatever addressing forms, gives back the word stored, or its low octet, while memory is unchanged |
| ArmAccess.OffsetKept | src/armul/armemu.c:3472-3507 | a post-indexed base moves by the offset from before the transfer unless the offset register is the one just loaded, or register 15 |
| ArmAccess.MovedByLoaded | src/armul/armemu.c:1830-2653 | LDR r0, [r1], r0 moves r1 by the word it loads, on every machine; that is the old r0 exactly when r0 already held that word |
| ArmAccess.Swaps | src/armul/armemu.c:997-1020 | SWP and SWPB: the destination gets the word or byte at the address and the other register's takes its place; no other byte and no other register changes |
| ArmBlock.NthOfRank | src/armul/armsupp.c:370-377 | the register of rank k in a list is the one the list search finds |
| ArmBlock.StoredWords | src/armul/armemu.c:3890-3948 | a store touches exactly one word for each listed register, ascending registers at ascending addresses, and no other word |
| ArmBlock.LoadStored | src/armul/armemu.c:3729-3788 | loading what was stored restores every listed register and no other |
| ArmTables.BitList | src/armul/arminit.c:46-62 | the nested loops build four times the bit count of every byte value |
| ArmTables.TableSizesTransfers | src/armul/armemu.h:285-286 | two table look-ups add up to four bytes for each listed register |
| ArmLists.StartIsLowest | src/armul/armemu.c:2660-2853 | the lowest address of a list of n is the base (IA), the base plus 4 (IB), less 4n (DB) or less 4n-4 (DA), modulo 2^32 |
| ArmLists.FinalIsMoved | src/armul/armemu.c:2660-2853 | and the base moves up or down by 4n |
| ArmLists.LoadsList | src/armul/armemu.c:3729-3788 | LDM: the listed registers get ascending words from that address, r15 being a jump, and nothing else changes but a base written back and not loaded |
| ArmLists.StoresList | src/armul/armemu.c:3890-3948 | STM: ascending words from that address become the listed registers, the base as written back unless it comes first, and no other word or register changes but the base |
| ArmLists.OneIsSingle | src/armul/armemu.c:2660-2853 | LDM and STM of one register do what LDR and STR with the same P, U and W bits and an offset of four do |
| ArmEncodings.LoadsTwo | src/armul/armemu.c:2660-2853 | LDMIA r0, {r1, r2} as an instruction word loads the two words from r0 up |
| ArmEncodings.PushesTwo | src/armul/armemu.c:2660-2853 | STMDB sp!, {r4, lr} stores the two registers below sp and lowers it by eight |
| ArmTransferLaws.PopAddresses | src/armul/armemu.c:2660-2853 | a load in the opposite direction and on the other side of the base starts where the store did and moves the base back, modulo 2^32 |
| ArmTransferLaws.PushPop | src/armul/armemu.c:2660-2853 | in all four pairings of STM and LDM with writeback, whatever ran in between as long as it kept the base and the stored words, the load restores every listed register and the base and changes no other register and no memory |
| ArmUserBank.StoreUser | src/armul/armemu.c:3957-4019 | STM with the S bit stores exactly the user view of the listed registers; r0-r14 of every bank, mode and bank are unchanged |
| ArmUserBank.LoadUser | src/armul/armemu.c:3797-3872 | LDM with the S bit and without r15 changes exactly the listed registers of the user view, in every bank that shares them, and restores the bank |
| ArmRoutines.LoadMult | src/armul/armemu.c:3729-3788 | the loop over the list loads what the closed form says, with the writeback and the address exception |
| ArmRoutines.StoreMult | src/armul/armemu.c:3890-3948 | the loop over the list stores what the closed form says, the base written back after the first store |
| ArmRoutines.LoadSMult | src/armul/armemu.c:3797-3872 | the same for the S form, through the temporary bank switch or register 15's status bits |
| ArmRoutines.StoreSMult | src/armul/armemu.c:3957-4019 | the same for the S form of the store, through the temporary bank switch |
| ArmMultiply.Add32 | src/armul/armemu.c:4032-4048 | the carry found by comparing the sum with an operand is the true carry |
| ArmMultiply.Multiply | src/armul/armemu.c:4075-4124 | four 16-bit products with carries, and sign correction, give the exact 64-bit product, unsigned or signed |
| ArmMultiply.LongMultiplies | src/armul/armemu.c:4054-4188 | the destination pair holds the product, or the old pair plus the product modulo 2^64, also when the multiplicand is a destination; no other register changes; Z says whether the pair is zero |
| ArmProducts.Multiplied | src/armul/armemu.c:510-620 | MUL and MLA: the destination is the product, plus the addend, modulo 2^32, the product taken as zero when the destination is the first factor; with the S bit N and Z describe it; nothing else changes |
| ArmProducts.LongMultiplied | src/armul/armemu.c:4054-4188 | UMULL, SMULL, UMLAL and SMLAL as their bits select: the pair is the unsigned or signed product, plus the old pair, modulo 2^64; nothing else changes but Z and N |
| ArmEncodings.Products | src/armul/armemu.c:510-535 | MUL r0, r1, r2 as an instruction word leaves the product of r1 and r2 modulo 2^32 |
| ArmEncodings.MultipliesAs | src/armul/armemu.c:510-1156 | of the words with bits 4 and 7 set, which are short and long multiplies and swaps, by the architecture's bit patterns |
| ArmRoutines.Multiply64 | src/armul/armemu.c:4054-4150 | the routine on the register file leaves that product and flags |
| ArmRoutines.MultiplyAdd64 | src/armul/armemu.c:4158-4188 | the routine on the register file leaves that sum and flags |
| ArmOperands.LogicalEvaluated | src/armul/armemu.c:3286-3422 | evaluating a shifted operand may advance register 15 once and set the flags, and changes nothing else |
| ArmSteps.Traps | src/armul/arminit.c:230-304 | an exception leaves supervisor mode current and the pipeline to be refilled |
| ArmSteps.DataProcessSteps | src/armul/armemu.c:502-1828 | every modelled form of data processing keeps user mode, and register 15 in step with the fetch loop |
| ArmSteps.StatusMoveLawful | src/armul/armemu.c:989-1245 | so do MRS to a register below 15, MSR and BX, which may trap |
| ArmSteps.SingleTransferLawful | src/armul/armemu.c:1830-2653 | so do aligned LDR and STR, LDRB and STRB in every addressing form that does not write back to register 15 |
| ArmSteps.BlockTransferLawful | src/armul/armemu.c:2660-2853 | so do LDM and STM with a nonempty list at aligned addresses, address exceptions of the plain forms included |
| ArmSteps.ExecuteLawful | src/armul/armemu.c:435-3180 | every modelled instruction from user mode leaves mode, bank and interrupt masks alone unless it takes an exception, and leaves register 15 where the fetch loop expects it |
| ArmEncodings.Dispatched | src/armul/armemu.c:502-2954 | what a word whose condition holds is executed as, by the bit patterns of its class; a register transfer with bit 4 set is an undefined instruction |
| ArmPipeline.FetchIsDirect | src/armul/armemu.c:280-344 | by every route through the fetch switch the instruction executed is the word memory holds at its address, and register 15 reads eight beyond it |
| ArmPipeline.IterateIsStep | src/armul/armemu.c:278-3180 | one iteration of the pipelined loop is one direct step |
| ArmPipeline.EmulationIsDirect | src/armul/armemu.c:278-3180 | over whole runs of modelled instructions that do not overwrite prefetched words the pipelined emulator and direct fetching pass through the same states |
| ArmPipeline.UserStaysUser | src/armul/armemu.c:278-3180 | a run of modelled instructions from user mode without exceptions ends with the same mode, bank and interrupt masks, however long it is |
| ArmPipeline.Emulate | src/armul/armemu.c:278-3180 | between any two instructions of a run of modelled instructions the current bank is the one the mode selects |
| ArmRoutines.Advance | src/armul/armemu.c:280-344 | the fetch switch on the encoded next-instruction state advances or refills the pipeline as the law above needs |
| ArmEmulation.Emulate | src/armul/armemu.c:278-3180 | the in-place loop, with its fetching, condition check, dispatch and every instruction on the emulator's own fields and memory, leaves the state of the run the laws above are about, for runs of modelled instructions |
| RspFraming.UnescapeEscape | src/armul/rsp-server.c:644-653 | unescaping an escaped body gives the data back, whatever byte follows |
| RspFraming.EscapeClean | src/armul/rsp-server.c:644-653 | no start or end mark appears inside an escaped body |
| RspFraming.DigitsReceived | src/armul/rsp-server.c:662-663 | the two checksum digits sent are received as that checksum |
| RspFraming.HuntSkips | src/armul/rsp-server.c:729-740 | bytes before a start mark are ignored |
| RspFraming.FrameDelivered | src/armul/rsp-server.c:718-825 | a sent frame is acknowledged and handed over exactly when its escaped body is at most GDB_BUF_MAX-2 bytes; a longer one is passed over without an answer |
| RspFraming.RefusesBad | src/armul/rsp-server.c:798-808 | every complete frame in size with a wrong checksum is refused once, and reading goes on behind it |
| RspFraming.PacketRoundTrip | src/armul/rsp-server.c:620-825 | through junk and any number of corrupted frames, the corrupted ones are refused, the good one is acknowledged, and its body unescapes to the data sent |
| RspProtocol.SentAs | src/armul/rsp-server.c:644-653 | $, #, * and } are sent as 7d 04, 7d 03, 7d 0a and 7d 5d, and every other byte as itself |
| RspProtocol.ReadAs | src/armul/rsp-server.c:936-962 | a byte behind an escape is read as the one 32 more or less, as bit 5 was clear or set, even past the end of the body, and any other byte as itself |
| RspProtocol.ChecksumIsSum | src/armul/rsp-server.c:640-663 | the checksum is the sum of the bytes sent modulo 256 |
| RspProtocol.DigitsAre | src/armul/rsp-server.c:662-663 | checksum digits are sent as 0-9 and a-f |
| RspProtocol.DigitsRead | src/armul/rsp-server.c:1119-1126 | digits of either case are read, and no other character |
| RspProtocol.SendsOk | src/armul/rsp-server.c:640-663 | the packet OK goes out as $OK#9a |
| RspProtocol.ReadsOk | src/armul/rsp-server.c:718-825 | +$x$OK#9a is read as the packet OK and answered by + |
| RspProtocol.RefusesWrong | src/armul/rsp-server.c:718-825 | $OK#9b is answered by - |
| Rsp.Connection.GetPacket | src/armul/rsp-server.c:718-825 | the nested reading loops deliver the body, the answers and the rest of the stream that the protocol calls for, or a closed connection |
| Rsp.Connection.PutPacket | src/armul/rsp-server.c:620-670 | the packet is sent once for every reply up to the first acknowledgement, or until the connection closes |
| Rsp.Connection.SendFrame | src/armul/rsp-server.c:640-663 | one pass sends exactly the frame: start mark, escaped data, end mark, checksum |
| Rsp.RspUnescape | src/armul/rsp-server.c:936-962 | the in-place loop leaves the unescaped data in front and the bytes behind it untouched |
| SqueezeTables.TableRoundTrip | ro-utils/unmodsqz/unsqueezec.c:128-193 | a table coded by any list of runs, one-, two- and three-byte distances and literals decodes to exactly its entries, and decoding stops at its end |
| SqueezeTables.CodeStandsFor | ro-utils/unmodsqz/unsqueezec.c:128-193 | every short table, and every long table modulo 2^24, has such a code |
| SqueezeTables.BytesMean | ro-utils/unmodsqz/unsqueezec.c:138-177 | what a table byte begins: 1-9 so many entries one apart, 10-91 a distance, 92-173 and 174-255 distances of two and three bytes, 0 a literal |
| SqueezeWords.WordsRoundTrip | ro-utils/unmodsqz/unsqueezec.c:205-239 | words coded by short, long, zero and literal nibbles, laid out backwards, decode to exactly those words, and decoding stops at the start of the code |
| SqueezeWords.ChooseAllStandFor | ro-utils/unmodsqz/unsqueezec.c:205-239 | every word has a code with any tables |
| SqueezeWords.NibblesMean | ro-utils/unmodsqz/unsqueezec.c:208-232 | what a nibble stands for: 0 zero, 1 a literal word, 2-8 the long table and a low byte, 9-15 the short table |
| Unsqueeze.UnsqueezeInverts | ro-utils/unmodsqz/unsqueezec.c:74-256 | unsqueezing a module in the squeezed format, however coded, gives exactly the words coded with the top bit of word 2 cleared |
| Unsqueeze.SqueezeRoundTrip | ro-utils/unmodsqz/unsqueezec.c:74-256 | for any even-length word list and any two tables, squeezing and unsqueezing gives the words back, apart from that bit |
| Unsqueeze.DecodeTable | ro-utils/unmodsqz/unsqueezec.c:128-177 | the table loop decodes one table and stops where its code ends |
| Unsqueeze.DecodeInto | ro-utils/unmodsqz/unsqueezec.c:205-239 | the word loop decodes backwards into the module |
| Unsqueeze.Unsqueeze | ro-utils/unmodsqz/unsqueezec.c:74-256 | the whole routine returns the decoded module or its error |
| Path.PathRoundTrip | src/util.c:65-184 | a host path comes back from its RISC OS form exactly when it has only visible characters without the six special ones, no dot segment, and no leading dot unless doubled |
| Path.LostPaths | src/util.c:65-184 | one path lost for each reason: ./x comes back as x, .x as /x, and x$ as x |
| Path.HostPathFits | src/util.c:114-150 | what is written fits the counted block, except exactly for a path copied verbatim with more dropped characters than carets |
| Path.VerbatimOverruns | src/util.c:114-150 | the path /$ is counted as one character and copied as two: three bytes are written to a block of two |
| Path.BodyBack | src/util.c:79-184 | translating a path body there and back gives it back, shorter by its dot segments |
| Path.RoPathFromHostPath | src/util.c:65-107 | the loop writes the RISC OS path within the block it allocated |
| Path.HostPathFromRoPath | src/util.c:109-184 | the two passes write the host path and its terminator within the block they counted |
| PathNames.HostPathIs | src/util.c:109-184 | up to its first control character a path that starts with a dot or slash is copied; any other becomes its components between dots, joined by slashes, each with $, %, & and \ left out, @ as a dot, ^ as two, and a slash as a dot |
| PathNames.OrdinaryName | src/util.c:109-184 | a component without those characters keeps its length, its slashes turned into dots |
| PathNames.JoinSplit | src/util.c:109-184 | the components are the parts without dots that join up to the path |
| PathNames.HostPathSamples | src/util.c:109-184 | @.x is ./x and $.^/^ is /..... |
| PathNames.RoPathIs | src/util.c:65-107 | a host path read as separators, parent directories, current directories, dots inside names and letters has the RISC OS form of each in order, behind a $ when it is absolute |

## Left out

- Heap.Heap.BlockAlloc: requests within 43 bytes of 2^64 are excluded, because their total wraps (HeapImage.TotalWraps); callers pass 32-bit sizes.
- Heap.Heap.BlockResize: the same bound on sizes; relocation of the heap (`do_reshuffle`, which changes a byte and not the pointer) and the commented-out compaction are not modelled.
- Heap.Heap.HeapResize: a limit so high that its pointer would wrap past 2^64.
- HashTable.Hash.Add: the fatal error for a key already present is a null result.
- HashTable: `delete_hash`, the string-key wrappers, debug dumps, and the point where bucket counts overflow an `int`.
- Crc16.TableSteps: the eight tables are given by their recurrence, not by their 2048 literals.
- ArmExecute: outside the model, and a run stops there: coprocessor instructions, SWI (handled by host code), halfword and signed transfers, unaligned words, swaps that fault, empty register lists, LSL #0 of r15 with the S bit (a shift by 32), multiplies, MRS and swaps into r15, writeback to r15 in single transfers, and long multiplies with operand combinations the architecture leaves undefined.
- ArmSteps.DataProcessSteps: LSL #0 of r15 with the S bit, which shifts by 32.
- ArmSteps.StatusMoveLawful: MRS into r15.
- ArmSteps.SingleTransferLawful: unaligned words, which the code rotates, and writeback to r15.
- ArmSteps.BlockTransferLawful: empty register lists, unaligned or unmapped addresses, and S forms that raise an address exception.
- ArmSteps.ExecuteLawful: says nothing of the instructions listed under ArmExecute.
- ArmPipeline.UserStaysUser: runs end at the instructions listed under ArmExecute, SWI among them.
- ArmPipeline.Emulate: so do these.
- ArmEmulation.Emulate: and these; a run that meets a SWI is not continued behind it.
- ArmAccess.LoadReads: loads of register 15, which are jumps (ArmJumps.LoadJumps), unaligned words and accesses that abort.
- ArmInstructions.Arithmetic: results written to register 15, which ArmJumps.ResultJumps covers.
- ArmInstructions.Logical: the same.
- ArmRoutines.StoreSMult: the early return on an address exception, which leaves the user bank switched in, and the register an aborted LoadSMult has already overwritten.
- ArmRoutines.LoadSMult: address exceptions; unaligned addresses, as in the three other routines.
- ArmRoutines.StoreMult: unaligned addresses.
- ArmRoutines.LoadMult: unaligned addresses; the loads an aborted transfer makes and discards; they read addresses no memory backs.
- ArmMultiply.LongMultiplies: signed forms assume a 32-bit `signed long`, as the sign tests do; cycle counts are not modelled, and the N flag, which the code always clears, is not compared with the architecture.
- ArmPipeline.EmulationIsDirect: runs that overwrite prefetched words, or reach the last three words of the 26-bit space, are excluded by hypothesis; interrupts, the event wheel, single stepping, RESUME and the debugger hook are not modelled.
- ArmBanks.SwitchesKeepViews: the dummy bank, which loses r8-r14 by design, is excluded.
- ArmEmulator: the 32-bit build and Thumb; in the 26-bit build the T flag is always clear.
- Rsp: sockets, retries after interrupts, the commands inside packets, register-to-hex conversion, and the matchpoint table.
- Unsqueeze.Unsqueeze: modules whose code reads or writes outside the module and its tables, which the C code does not check for, are excluded by its precondition; `UnsqueezeModule` calls them stray.
- Unsqueeze.DecodeTable: table codes that run past their bytes or their buffer.
- Unsqueeze.DecodeInto: word codes that read or write outside the module and its tables.
- Unsqueeze.SqueezeRoundTrip: sizes reach less than 2^31, as the signed header fields need.
- Path.HostPathFromRoPath: a verbatim path that does not fit its block is excluded by its precondition, whose exact extent is Path.HostPathFits; `char` is taken to be signed.
- Terminal, file and window system code, SWI stubs, sharedclib, module loading, the disassembler and code generation are not part of this model.
