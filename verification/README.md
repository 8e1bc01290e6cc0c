# A verified model of the 68000/68030 core, its disassembler and its checkpoint files

This project models three components of a Macintosh and Lisa emulator and proves
properties of them with Dafny 4.11.

* **The execution core** (`src/core/cpu`). Memory is a total map from 32-bit
  addresses to bytes behind a bus with a user and a supervisor view
  (`Memory.dfy`). Effective addresses, operand access and MOVE are in
  `Operands.dfy`; the status register, the banked stack pointers, exception entry
  and RTE in `System.dfy`; MOVEC and MOVES in `Banking.dfy`; MOVEM in
  `Movem.dfy`; flag arithmetic, comparison and extended arithmetic in
  `Arithmetic.dfy`; the BCD formulas in `Bcd.dfy`; chains of ADDX, SUBX, ABCD and
  SBCD on limbs in `LimbChains.dfy` and in memory in `Chains.dfy`; bit fields in
  `BitField.dfy` over the bit theory of `Bits.dfy`; long multiplication and
  division in `MulDiv.dfy`. `Instructions.dfy` puts them together as one
  instruction of either decoder and `Sprint.dfy` as a run of them, with the
  delivery of faults. What all this means to a programmer is stated without
  reference to the routines: `Addressing.dfy` gives the address and value of
  every operand from registers and instruction words, `Manual.dfy` says what the
  instructions do from their opcodes, and `Boundary.dfy` what happens between
  them. `Processor.dfy` is the same core as a mutable object that
  runs the sprint loops, each method tied to the function on values that the
  theorems are about. The theorems over whole runs are in `Nesting.dfy`
  (exceptions nested to any depth), `Restart.dfy` (faulting instructions
  restarted any number of times) and `SelfIndex.dfy` (the encodings that do not
  restart).
* **The disassembler** (`src/core/cpu/cpu_disasm.c`, `tools/dump`). `Disasm.dfy`
  sets its account of instruction length against the executor's program counter;
  `Branch.dfy` sets the branch targets it prints against the ones executed.
* **The checkpoint codec** (`src/core/checkpoint.c`). `Rle.dfy` has the run-length
  coder, `CheckpointFormat.dfy` the two record streams as functions and
  `Checkpoint.dfy` the header and the handle object that reads and writes them.

`Words.dfy` holds the fixed-width values shared by all of them.

The central idea of the core is deferred faults: an access that faults does not
stop the instruction, which runs on with all ones and is undone by hand. The
model keeps that order of events. `Bus.fault` is the pending bus error and
`Bus.seen` the set of bytes an instruction has read, which lets a theorem say
what an instruction looked at.

## What the code does that one might not expect

* Exception entry from user mode with M set takes the master stack but clears M,
  so RTE does not give the master and interrupt pointers back.
  `Nesting.NestingExact` states exactly when a run restores all three pointers.
* A comment above `movem_to_register` says a fault leaves the address register
  alone. For the postincrement form it does not: the effective address has
  already stepped it (`Movem.PostincrementLoadNotRestartable`).
* MOVE to a data register is not undone. It still restarts correctly unless it
  indexes its source by the register it loads, and then it does not:
  `SelfIndex.ExactlySelfIndexed` is that equivalence.
* ADDX, SUBX, ABCD and SBCD -(Ay),-(Ax) store even when an operand could not be
  read (`Chains.StepStores`). When the source faults, the destination survives
  for ADDX and SUBX exactly if X was set, and never for ABCD and SBCD
  (`Chains.SourceFaultStores`).
* MOVES whose own words cannot be fetched stores too: `Banking.MovesRollback` says
  exactly when and what, and `Banking.FaultingMovesWrites` shows a byte change.
* The reset after a double fault is described as loading $2700 into the status
  register. It leaves M and the five flags (`Boundary.ResetStatus` is the exact
  condition), and a halt in user mode with M set comes back as $3700
  (`Boundary.ResetKeepsMaster`).
* An RTE refused for its frame format stacks the status word with the trace bits
  already clear, though a comment calls it the one before the RTE
  (`Manual.FormatErrorDoes`).
* A request of level 7 is taken again at every poll while it lasts, others once
  (`Boundary.PollTwice`).
* A v2 block can grow past the reader's 256 MiB limit when written. Up to
  111,848,105 bytes it never does (`CheckpointFormat.SmallBlocksReadable`); one
  byte more and a block exists that is written but refused on reading
  (`CheckpointFormat.NextSizeHasUnreadableBlock`).
* The adjustment of a negative bit-field offset computes `-offset + 7` in a signed
  32-bit integer, so it is defined only from -2,147,483,640 up; `BitField.IsOffset`
  is that range.
* The negation in `format_pc_displacement` overflows for the displacement
  -2,147,483,648; it is modelled modulo 2^32, where the printed target is right.

## Model

| member | source | states |
|---|---|---|
| `Rle.RoundTrip` | src/core/checkpoint.c:58-143 | decoding an encoding, with any bytes after it, gives the input back, for every byte string |
| `Rle.PrefixRejected` | src/core/checkpoint.c:109-143 | every strict prefix of the encoding of a non-empty input is rejected |
| `Rle.RunForm` | src/core/checkpoint.c:63-80 | four or more equal bytes become a 1, the count and the byte |
| `Rle.LiteralForm` | src/core/checkpoint.c:81-103 | bytes without four equal in a row become a 0, the count and the bytes |
| `Words.LeByteAt` | src/core/checkpoint.c:76-78 | a stored number has its bytes in order of weight, lowest first |
| `Rle.AfterLiteral` | src/core/checkpoint.c:81-103 | a literal chunk shorter than the maximum is followed by a run or by nothing |
| `Rle.ExpansionBound` | src/core/checkpoint.c:58-106 | the encoded size s of n bytes satisfies 5s <= 12n + 18 |
| `Rle.BoundTight` | src/core/checkpoint.c:58-106 | inputs of 5k+1 bytes reach that bound, for every k |
| `Rle.ScanChunk` | src/core/checkpoint.c:62-92 | the scanning loops find the longest run, or the literal that ends where four equal bytes begin |
| `Rle.RleEncode` | src/core/checkpoint.c:58-106 | a dry run returns the exact size; a buffer of that size never overflows and holds the encoding; a smaller one returns 0 |
| `Rle.ReadChunk` | src/core/checkpoint.c:112-140 | one chunk is read with its header and bounds checks, or refused |
| `Rle.RleDecode` | src/core/checkpoint.c:109-143 | succeeds exactly when the decoding exists and then fills the output with it |
| `CheckpointFormat.BlockRoundTrip` | src/core/checkpoint.c:290-366 | a v2 block reads back exactly when it is short or its compressed size is within the limit |
| `CheckpointFormat.DataRoundTrip` | src/core/checkpoint.c:205-473 | a data record of either format reads back its bytes and the cursor ends after it, exactly when it is readable |
| `CheckpointFormat.ContentRoundTrip` | src/core/checkpoint.c:1138-1163 | embedded contents give the first min(capacity, length) bytes and the rest is skipped |
| `CheckpointFormat.PayloadRoundTrip` | src/core/checkpoint.c:986-1175 | a file record read with any capacity gives its path and min(capacity, length) bytes, of the file there was on writing if it is carried and of the one found on reading if it is not |
| `CheckpointFormat.FileSize` | src/core/checkpoint.c:844-900 | a file adds its path and five bytes, a v2 header, and its contents only if they are carried |
| `CheckpointFormat.CarriedExactly` | src/core/checkpoint.c:850-890 | a named file comes back as it was written whatever is found on reading if and only if, in v3, its path does not begin with "/opfs/" and, in v2, references are off |
| `CheckpointFormat.RecordRoundTrip` | src/core/checkpoint.c:835-1175 | one record of either kind and format, written with one set of files and read with another, with the exact condition for success |
| `CheckpointFormat.StreamRoundTrip` | src/core/checkpoint.c:205-473 | a stream of any length reads back whole, cursor on its end, if and only if each record is readable |
| `CheckpointFormat.BlockSize` | src/core/checkpoint.c:422-473 | a block below 64 bytes takes one byte more; from 64 on a run of any length takes 15 |
| `CheckpointFormat.SmallBlocksReadable` | src/core/checkpoint.c:319-326 | every block of at most 111,848,105 bytes passes the compressed-size check |
| `CheckpointFormat.NextSizeHasUnreadableBlock` | src/core/checkpoint.c:319-326 | a block of 111,848,106 bytes that is written but not readable |
| `Checkpoint.HeaderRoundTrip` | src/core/checkpoint.c:478-560 | a written header is read back field by field |
| `Checkpoint.OpensOnly` | src/core/checkpoint.c:498-545 | what opens begins with GSCHKPT2 or GSCHKPT3, the build, the name and the memory size |
| `Checkpoint.ModelName` | src/core/checkpoint.c:684-689 | the name field is the name cut to 15 bytes, null from there on |
| `Checkpoint.OtherBuildRejected` | src/core/checkpoint.c:508-527 | a file of another build does not open |
| `Checkpoint.OpenImage` | src/core/checkpoint.c:478-660 | what opening a closed file gives, and the v3 size limit |
| `Checkpoint.OpenPacked` | src/core/checkpoint.c:568-610 | a v3 file with a run-length coded payload opens to the payload |
| `Checkpoint.CheckpointRoundTrip` | src/core/checkpoint.c:478-809 | write, close, open and read a whole checkpoint: everything back, cursor at the end, with the exact condition, also when the files found on reading are not those of the writing |
| `Checkpoint.Handle.OpenWrite` | src/core/checkpoint.c:668-749 | a writer starts with a well-formed header, the model name cut and padded, and the header bytes (v2) or an empty buffer (v3) |
| `Checkpoint.Handle.OpenRead` | src/core/checkpoint.c:478-660 | the reads in turn, signature to payload, succeed exactly on the files `Open` accepts and end at its position |
| `Checkpoint.Handle.NextHeader` | src/core/checkpoint.c:498-545 | header fields are read and checked in order as `ReadHeader` says |
| `Checkpoint.Handle.LoadPayload` | src/core/checkpoint.c:568-610 | a v3 payload is taken raw or decoded, or refused |
| `Checkpoint.Handle.Close` | src/core/checkpoint.c:772-806 | the file left behind is the image of the header and the stream |
| `Checkpoint.Handle.BufAppend` | src/core/checkpoint.c:166-188 | the buffer grows as needed and the stream gains exactly the data |
| `Checkpoint.Handle.Append` | src/core/checkpoint.c:166-188 | one append, to the buffer or to the file |
| `Checkpoint.Handle.Next` | src/core/checkpoint.c:191-200 | all n bytes and a moved cursor, or the error flag |
| `Checkpoint.Handle.AppendBlock` | src/core/checkpoint.c:422-473 | the stream gains the v2 block encoding of the data |
| `Checkpoint.Handle.WriteData` | src/core/checkpoint.c:369-473 | the stream gains exactly the record; a failed handle is left alone |
| `Checkpoint.Handle.NextBlock` | src/core/checkpoint.c:290-366 | the block body is read as the format function says, or the error flag is set |
| `Checkpoint.Handle.ReadData` | src/core/checkpoint.c:205-367 | the destination and cursor are those of the format function; errors are sticky |
| `Checkpoint.Handle.WriteFile` | src/core/checkpoint.c:835-984 | the stream gains exactly the file record |
| `Checkpoint.Handle.NextContent` | src/core/checkpoint.c:1138-1163 | embedded contents are loaded or skipped in chunks as the format function says |
| `Checkpoint.Handle.ReadFile` | src/core/checkpoint.c:986-1175 | contents, path and cursor are those of the format function |
| `Addressing.CalcEaIs` | src/core/cpu/cpu_internal.h:156-345 | a fault-free address computation gives the address each mode names from registers and instruction words, full extension words and memory indirection included, and steps past the operand |
| `Addressing.ReadEaIs` | src/core/cpu/cpu_internal.h:347-384 | a fault-free operand read gives the low bytes of the register, the immediate value or the bytes addressed |
| `Addressing.WriteEaIs` | src/core/cpu/cpu_internal.h:393-458 | a fault-free operand store puts the value at that address and nowhere else |
| `Addressing.MoveMoves` | src/core/cpu/cpu_ops.h:622-638 | MOVE without a fault moves the source operand to the destination, memory changing in its bytes only, or a data register in its low bytes only |
| `Addressing.MoveDecodes` | src/core/cpu/cpu_ops.h:622-638 | size, modes and registers of a MOVE opcode, and which operands it accepts |
| `Manual.MoveDoes` | src/core/cpu/cpu_ops.h:618-638 | the same through the dispatcher, with N the sign, Z zero, V and C clear and X kept |
| `Manual.MovesDoes` | src/core/cpu/cpu_ops.h:1654-1805 | a MOVES access faults if and only if it is missing in the space of SFC or DFC, and otherwise moves the register the second word names, stepped, sign-extended or merged as it should be |
| `Manual.SaveDoes` | src/core/cpu/cpu_internal.h:513-548 | MOVEM to -(An) by its mask bits: each listed register at its place below An, the 68030 storing An stepped, nothing else changed |
| `Manual.RestoreDoes` | src/core/cpu/cpu_internal.h:467-506 | MOVEM from memory by its mask bits: each listed register from its place, words sign-extended, (An)+ past the last |
| `Manual.ExtendedDoes` | src/core/cpu/cpu_ops.h:411-457 | ADDX, SUBX, ABCD, SBCD -(Ay),-(Ax) by opcode: the result of the two operands and X replaces the one below Ax, with all five flags of the binary forms |
| `Manual.ReadControlDoes` | src/core/cpu/cpu_68030.c:368-405 | MOVEC Rc,Rn by register code |
| `Manual.WriteControlDoes` | src/core/cpu/cpu_68030.c:410-452 | MOVEC Rn,Rc loads that register, masked bit by bit, and no other |
| `Manual.RteDoes` | src/core/cpu/cpu_ops.h:1503-1542 | RTE by frame format: status word and PC restored, exactly the frame dropped |
| `Manual.FormatErrorDoes` | src/core/cpu/cpu_ops.h:1527-1535 | a frame of any other format is refused through vector 14 |
| `Manual.IllegalControlDoes` | src/core/cpu/cpu_68030.c:368-452 | a control register that does not exist is refused through vector 4 |
| `Manual.PrivilegeDoes` | src/core/cpu/cpu_internal.h:1053-1055 | in user mode RTE, MOVEC and MOVES are refused through vector 8 at their own address |
| `Manual.ImmediateDoes` | src/core/cpu/cpu_ops.h:226-255 | ORI, ANDI, SUBI, ADDI, EORI by opcode: the result bit by bit or modulo the size replaces the operand, stepped past once; CMPI stores nothing |
| `Manual.FamilyOpcodes` | src/core/cpu/cpu_decode.h:50-390 | no other opcode is taken for one of these families |
| `Operands.CalcEaQuiet` | src/core/cpu/cpu_internal.h:169-345 | address computation changes PC, the stepped register, the pending fault and nothing else |
| `Operands.WriteEaRollback` | src/core/cpu/cpu_internal.h:393-458 | a store that faults, or follows a fault, leaves registers and memory alone |
| `Operands.MoveRollback` | src/core/cpu/cpu_ops.h:622-638 | MOVE to memory: a fault on any access leaves every register and all memory as they were |
| `Operands.MoveSame` | src/core/cpu/cpu_ops.h:622-638 | MOVE depends on memory only through the bytes it read |
| `Operands.MoveSettles` | src/core/cpu/cpu_ops.h:622-638 | a completed MOVE from two memories that agree on what it reads ends alike, the bytes it stores included |
| `Operands.MoveLoadUndone` | src/core/cpu/cpu_ops.h:622-638 | MOVE into a data register that faults has changed the low bytes of that register and nothing else |
| `Operands.ReadEaIgnores` | src/core/cpu/cpu_internal.h:156-249 | an operand address and value do not depend on a data register that does not index it |
| `System.RebankKeeps` | src/core/cpu/cpu_internal.h:968-1037 | switching stacks moves none of USP, ISP and MSP as a program sees them |
| `System.LoadSrRefines` | src/core/cpu/cpu_internal.h:968-1041 | loading any status word keeps the three pointers, registers and memory, and is read back masked by 0xF71F or 0xA71F |
| `System.SrRange` | src/core/cpu/cpu.c:130-147 | the status word has only implemented bits and shows S, M and the mask |
| `System.SrFlags` | src/core/cpu/cpu.c:130-147 | the low five bits of the status word are X, N, Z, V and C |
| `System.SrInjective` | src/core/cpu/cpu.c:130-147 | equal status words mean equal flags, mask, trace, S and M |
| `System.CcrFields` | src/core/cpu/cpu_internal.h:113-137 | `read_ccr` inverts `write_ccr` |
| `Nesting.ExceptionEnters` | src/core/cpu/cpu_internal.h:651-712 | an exception stacks status word, PC, format and vector, and the instruction address in a long frame, writes nothing outside its frame, and goes to the handler its vector names |
| `Nesting.LongFrames` | src/core/cpu/cpu_internal.h:678-690 | which vectors have the long frame |
| `Nesting.BusErrorEnters` | src/core/cpu/cpu_internal.h:719-942 | both bus-error paths stack a format $B frame with the address that faulted and a status word that shows read or write and the function code, and go to vector 2; the retry path stacks the instruction's own address |
| `Nesting.InterruptEnters` | src/core/cpu/cpu_internal.h:957-964 | an interrupt stacks the old status word, raises the mask and goes to its autovector |
| `Nesting.EnterStacks` | src/core/cpu/cpu_internal.h:651-964 | every entry stacks the current status word and its PC, ends in supervisor mode with M clear, and continues at the address in its vector |
| `Nesting.RteReturns` | src/core/cpu/cpu_ops.h:1503-1542 | RTE of an intact frame restores status word and PC and drops exactly the frame |
| `Nesting.EntryUndone` | src/core/cpu/cpu_ops.h:1503-1542 | entry then RTE restores the interrupted program, flags and mask included, whatever the handler left in them, if it gives D0-A7, USP, MSP and the frame back |
| `Nesting.NestingRestores` | src/core/cpu/cpu_internal.h:651-712 | any well-nested run of instructions, stores, exceptions and returns, to any depth, leaves SR, PC, D0-A7 and all three stack pointers as the program's own instructions alone would |
| `Nesting.ExceptionsRestore` | src/core/cpu/cpu_internal.h:651-712 | exceptions and returns with no instruction of the program between them restore SR, D0-D7, A0-A6 and the three stack pointers |
| `Nesting.NestingExact` | src/core/cpu/cpu_internal.h:665-684 | that holds for a run that enters at all if and only if it did not begin in user mode with M set and differing ISP and MSP |
| `Nesting.UserTrapLosesStack` | src/core/cpu/cpu_internal.h:665-684 | the failing case is reached by one TRAP from user mode with M set |
| `Nesting.ConfinedWrites` | src/core/cpu/cpu_internal.h:651-712 | a run writes only in its frames and where its handlers store |
| `Banking.ControlReadsPointers` | src/core/cpu/cpu_68030.c:368-405 | MOVEC reads USP, MSP and ISP as the program sees them |
| `Banking.ControlWritesPointers` | src/core/cpu/cpu_68030.c:410-452 | MOVEC loads one control register, reads back what it loaded and disturbs no other |
| `Banking.MovesRollback` | src/core/cpu/cpu_ops.h:1687-1805 | MOVES that faults changes no register, and memory exactly when an instruction word could not be fetched and the store is mapped; what is then stored, and where |
| `Banking.MovesStoresAnyway` | src/core/cpu/cpu_ops.h:1687-1704 | MOVES.B Rn,(An) whose second word faults stores the low byte of A7 at (An) |
| `Banking.FaultingMovesWrites` | src/core/cpu/cpu_ops.h:1687-1704 | a machine on which a faulting MOVES changes a byte |
| `Banking.ViewsFollowPrivilege` | src/core/cpu/cpu_internal.h:968-1041 | over every sequence of status loads, exceptions, returns, MOVEC, MOVES and interrupts the active tables agree with S and fields stay in range |
| `Banking.RteSteady` | src/core/cpu/cpu_ops.h:1503-1542 | RTE, whatever it finds on the stack, keeps fields in range, tables in step with S, and the instruction address |
| `Instructions.DispatchSteady` | src/core/cpu/cpu_decode.h:50-390 | so does every instruction, those outside the families being any sequence of register updates, accesses, exceptions and status loads |
| `Movem.MasksMirror` | src/core/cpu/cpu_internal.h:467-548 | the load mask of a list is its store mask bit-reversed |
| `Movem.StoreDownFills` | src/core/cpu/cpu_internal.h:513-548 | a completed store puts every listed register in its slot and touches nothing else |
| `Movem.LoadUpReads` | src/core/cpu/cpu_internal.h:467-506 | a completed load takes every listed register from its slot |
| `Movem.SaveRestore` | src/core/cpu/cpu_internal.h:467-548 | storing any list to -(An) and loading it from (An)+ restores each register and An, on both models, the word form as sign-extended low halves |
| `Movem.LoadFault` | src/core/cpu/cpu_internal.h:467-506 | a load that faults commits no register; An stays if and only if the mode is not (An)+ or the register mask itself could not be fetched |
| `Movem.PostincrementLoadNotRestartable` | src/core/cpu/cpu_internal.h:472-506 | a faulting (An)+ load leaves An four higher |
| `Movem.FaultingLoadMovesBase` | src/core/cpu/cpu_internal.h:472-506 | a machine on which this happens |
| `Movem.StoreFault` | src/core/cpu/cpu_internal.h:513-548 | a store that faults leaves every register, and memory outside its own slots |
| `Movem.MovemStoreCovers` | src/core/cpu/cpu_internal.h:513-548 | a completed store overwrites whatever earlier partial attempts left |
| `Restart.AttemptUndone` | src/core/cpu/cpu_ops.h:618-638 | a faulting attempt of MOVE or MOVEM leaves registers, X and the system byte, but for the low bytes of a data register being loaded |
| `Restart.RoundResumes` | src/core/cpu/cpu_internal.h:719-828 | fault, retry frame, any handler run that gives D0-A7 back, and RTE lead back to the same instruction in the same state |
| `Restart.RetriesResume` | src/core/cpu/cpu_internal.h:719-828 | so do any number of them under changing page tables and handlers |
| `Restart.SuccessSame` | src/core/cpu/cpu_ops.h:618-638 | the attempt that completes ends as it would have at first, the bytes it stores included |
| `Restart.RestartTransparent` | src/core/cpu/cpu_internal.h:386-392 | after any number of faults and handlers the completed MOVE or MOVEM leaves registers, PC, SR, stack pointers and memory as one undisturbed execution, but for bytes of the dead frame and the handlers it did not store itself |
| `Restart.LoadSame` | src/core/cpu/cpu_ops.h:622-638 | a load that does not index its source by its destination gives the same result from a register already overwritten |
| `Restart.ExecuteIsInstruction` | src/core/cpu/cpu_68030.c:512-531 | an attempt is the instruction of the sprint loop |
| `Restart.FetchTrapIsDelivery` | src/core/cpu/cpu_internal.h:1122-1148 | the inline delivery of a faulting opcode fetch is the same retry entry as the deferred one |
| `Restart.MoveIsCodeSafe` | src/core/cpu/cpu_ops.h:622-638 | for MOVE the frame cannot lie on the instruction |
| `SelfIndex.ExactlySelfIndexed` | src/core/cpu/cpu_ops.h:622-638 | MOVE from memory to a data register restarts with the registers, PC, memory and value of one undisturbed run on every machine if and only if that register does not index its source |
| `SelfIndex.SelfIndexedFails` | src/core/cpu/cpu_ops.h:622-638 | for every encoding, brief or full, direct or indirect, that indexes the source by the register loaded there is a machine on which the retry loads the wrong value |
| `SelfIndex.IndexedLoadRestart` | src/core/cpu/cpu_ops.h:622-638 | one self-indexed encoding in full: MOVE.L (0,A0,D0.L),D0 restarts wrongly unless two longs happen to be equal |
| `Arithmetic.FormulasByTop` | src/core/cpu/cpu_ops.h:187-193 | the carry and overflow bit formulas as functions of the three sign bits, at every width |
| `Arithmetic.CompareFlags` | src/core/cpu/cpu_ops.h:199-204 | the flags of a compare are the unsigned order, equality, signed overflow and sign |
| `Arithmetic.CompareThenTest` | src/core/cpu/cpu_ops.h:184-204 | after a compare every condition decides its unsigned or signed comparison, or overflow and sign |
| `Arithmetic.ExtendedStep` | src/core/cpu/cpu_ops.h:298-304 | one ADDX or SUBX: X is the carry or borrow, V signed overflow, N the sign, Z only cleared |
| `LimbChains.ChainValue` | src/core/cpu/cpu_ops.h:398-403 | a chain on limbs of any one size computes the exact sum or difference with X at the top; Z tests the whole |
| `LimbChains.ChainOverflow` | src/core/cpu/cpu_ops.h:298-326 | V and N of the last step are overflow and sign of the whole number |
| `LimbChains.DecimalChainValue` | src/core/cpu/cpu_internal.h:575-600 | a chain of ABCD or SBCD on packed bytes is decimal addition or subtraction modulo 100^k, stays packed, Z tests the whole |
| `Bcd.AbcdDigits` | src/core/cpu/cpu_internal.h:575-587 | ABCD on packed bytes gives two packed digits and the decimal carry |
| `Bcd.SbcdDigits` | src/core/cpu/cpu_internal.h:590-600 | SBCD gives two packed digits and the decimal borrow |
| `Bcd.DecimalFlags` | src/core/cpu/cpu_internal.h:581-599 | N, Z and C of every decimal step, packed or not, and V clear on the 68030 |
| `Bcd.DecimalAllOnes` | src/core/cpu/cpu_internal.h:575-600 | a decimal step with all ones for its source never keeps the byte |
| `Bcd.AbcdCorrection` | src/core/cpu/cpu_internal.h:577-579 | the correction term in terms of the digits of the binary sum |
| `Chains.MemChainIsChain` | src/core/cpu/cpu_ops.h:315-326 | a fault-free chain of -(Ay),-(Ax) steps is the chain on limbs and writes nothing else |
| `Chains.MemChainAdds` | src/core/cpu/cpu_ops.h:411-422 | ADDX or SUBX -(Ay),-(Ax) repeated adds or subtracts the big-endian numbers below Ax and Ay |
| `Chains.MemChainOverflow` | src/core/cpu/cpu_ops.h:315-326 | its final V and N describe the whole two's-complement number |
| `Chains.DecimalMemChain` | src/core/cpu/cpu_ops.h:445-457 | ABCD or SBCD -(Ay),-(Ax) repeated adds or subtracts packed decimal numbers in memory |
| `Chains.ExtendedRollback` | src/core/cpu/cpu_ops.h:315-326 | a faulting ADDX, SUBX, ABCD or SBCD -(Ay),-(Ax) puts both address registers back |
| `Chains.SourceFaultStores` | src/core/cpu/cpu_ops.h:411-422 | with a source that faults the destination is still written; it keeps its value if and only if the step is ADDX or SUBX and X was set, never for ABCD and SBCD |
| `Chains.StepStores` | src/core/cpu/cpu_ops.h:445-455 | what a step of any of the four stores, whichever of its three accesses fault |
| `BitField.ExtractRegBits` | src/core/cpu/cpu_ops.h:981-986 | register extraction reads exactly the w bits from the offset on, modulo 32 |
| `BitField.InsertRegBits` | src/core/cpu/cpu_ops.h:989-998 | register insertion changes exactly those bits |
| `BitField.RegRoundTrip` | src/core/cpu/cpu_ops.h:981-998 | extraction after insertion gives the low w bits of the source |
| `BitField.Locate` | src/core/cpu/cpu_ops.h:1007-1013 | the adjusted byte and bit are those of the signed bit position |
| `BitField.ExtractMem` | src/core/cpu/cpu_ops.h:1001-1021 | the result spells exactly the bits [8*ea+offset, +w) of memory |
| `BitField.InsertMem` | src/core/cpu/cpu_ops.h:1024-1050 | exactly those bits are replaced by the low w bits of the value |
| `BitField.FindFirst` | src/core/cpu/cpu_ops.h:1175-1181 | the scan finds the first set bit, or the width |
| `BitField.MemRoundTrip` | src/core/cpu/cpu_ops.h:1001-1050 | extraction after insertion gives the low w bits of the source |
| `BitField.InsertThenExtract` | src/core/cpu/cpu_ops.h:1001-1050 | running the insertion and then the extraction gives the low w bits of the source |
| `BitField.OtherFieldKept` | src/core/cpu/cpu_ops.h:1024-1050 | a field that shares no bit is not disturbed |
| `BitField.ChangeFlips` | src/core/cpu/cpu_ops.h:1112-1113 | BFCHG flips exactly the bits of the field |
| `MulDiv.ExtensionFields` | src/core/cpu/cpu_ops.h:1399-1403 | the fields of the extension word |
| `MulDiv.MulLResult` | src/core/cpu/cpu_ops.h:1397-1439 | the pair holds the exact product, N and Z its sign and zero; the 32-bit form sets V exactly when it does not fit |
| `MulDiv.DivLResult` | src/core/cpu/cpu_ops.h:1445-1486 | V clear means dividend = q*divisor + r with the C remainder; V set, exactly when no 32-bit quotient exists, changes nothing |
| `MulDiv.MultiplyThenDivide` | src/core/cpu/cpu_ops.h:1397-1486 | multiply then divide by the same number returns the original with remainder 0 and V clear |
| `Disasm.WordsAgree` | src/core/cpu/cpu_disasm.c:352-380 | `ea_words` counts what `disasm_ea` uses up, for every operand it renders |
| `Disasm.FullAgrees` | src/core/cpu/cpu_disasm.c:118-175 | a rendered full extension word takes the executor past the same words |
| `Disasm.EaAgrees` | src/core/cpu/cpu_disasm.c:244-345 | so does every rendered operand |
| `Disasm.LengthAgrees` | src/core/cpu/cpu_disasm.c:1228-1240 | the length of a MOVE or immediate instruction is the distance PC moves |
| `Disasm.PcTargetShown` | src/core/cpu/cpu_disasm.c:300-324 | a printed PC-relative number names the address the executor computes |
| `Disasm.NumbersShown` | src/core/cpu/cpu_disasm.c:244-345 | the other displacements, absolute addresses and immediates printed are those executed |
| `Disasm.SkipAgrees` | src/core/cpu/cpu_internal.h:1165-1205 | skipping a refused operand moves PC as evaluating it would, for every encoding |
| `Disasm.SourceWordsBound` | tools/dump/annotate_disasm.c:55-71 | lookahead stays inside the eight words of padding |
| `Disasm.BytesToWords` | tools/dump/annotate_disasm.c:58-71 | the buffer holds the big-endian words and eight zeros |
| `Disasm.BytesLoaded` | tools/dump/annotate_disasm.c:58-71 | the words made of the bytes of memory are the words an execution finds there |
| `Disasm.WriteListing` | tools/dump/annotate_disasm.c:311-388 | the loop emits exactly the lines of the listing function |
| `Disasm.ListingFollowsExecution` | tools/dump/annotate_disasm.c:311-388 | for a run of any length the listing addresses are the PCs visited and the words listed the opcodes there |
| `Branch.ScanPrinted` | tools/dump/annotate_disasm.c:45-48 | a number printed by the disassembler is scanned back |
| `Branch.PrintedDestination` | tools/dump/annotate_disasm.c:37-53 | a printed displacement, after any prefix, is annotated with its target |
| `Branch.BccTarget` | src/core/cpu/cpu_disasm.c:59-68 | the annotation of Bcc (8, 16, 32 bits) is the PC of the taken branch |
| `Branch.BccFallsThrough` | src/core/cpu/cpu_ops.h:829-831 | a branch not taken goes on past its displacement |
| `Branch.DbccTarget` | src/core/cpu/cpu_ops.h:650-657 | the same for DBcc when its test fails and the counter has not run out; the register is one lower |
| `Branch.DbccFallsThrough` | src/core/cpu/cpu_ops.h:650-657 | otherwise DBcc continues after its displacement word, having counted only if the test failed |
| `Sprint.OrderlyBound` | src/core/cpu/cpu_68000.c:83-116 | an orderly record has at most as many starts as the budget |
| `Sprint.DeliveredRetry` | src/core/cpu/cpu_68030.c:537-550 | a delivered data fault stacks the instruction address, status word, access address, direction and function code, goes to vector 2, and nothing stays pending |
| `Sprint.DeliveredSkip` | src/core/cpu/cpu_internal.h:834-942 | the same on the skipping path with the next PC; a repeat at a remembered instruction halts |
| `Sprint.RetryHalts` | src/core/cpu/cpu_internal.h:790-826 | a retry entry halts exactly when one of its own stores or the read of its vector faults |
| `Sprint.DeliveredGroupZero` | src/core/cpu/cpu_68000.c:131-146 | on the 68000 it stacks that address plus 2, SR, access address, cycle and instruction register and goes to vector 2, or halts on a repeat |
| `Sprint.InstructionKeeps` | src/core/cpu/cpu_68030.c:512-531 | every instruction records its own address and keeps the machine sound, a faulting fetch included |
| `Sprint.SprintStacksRetry` | src/core/cpu/cpu_68030.c:537-550 | when a 68030 run ends in a data fault the retry frame holds the status word, the access that faulted and the address of the last instruction started |
| `Sprint.SprintStacksGroupZero` | src/core/cpu/cpu_68000.c:131-146 | when a 68000 run ends in a data fault the group-0 frame holds that address plus 2, or a repeat halts |
| `Boundary.PollDoes` | src/core/cpu/cpu_internal.h:957-964 | a poll takes a request above the mask or of level 7, through autovector 24 + level, and otherwise does nothing |
| `Boundary.PollTwice` | src/core/cpu/cpu_internal.h:957-964 | a second poll does nothing more if and only if the level is not 7 |
| `Boundary.TraceDoes` | src/core/cpu/cpu_68030.c:551-554 | the trace exception is taken exactly if T1 was set before and still is, with a long frame through vector 9 |
| `Boundary.ResetDoes` | src/core/cpu/cpu_68030.c:459-498 | a halted processor restarts from the first two longs, in supervisor mode with mask 7 |
| `Boundary.ResetStatus` | src/core/cpu/cpu_68030.c:459-481 | its status word is then $2700 if and only if M and the flags were clear |
| `Boundary.ResetKeepsMaster` | src/core/cpu/cpu_68030.c:459-481 | a machine that comes back with M set |
| `Boundary.InstructionDoes` | src/core/cpu/cpu_68030.c:512-531 | the word at PC is dispatched with the word after it, the address remembered |
| `Boundary.FetchTrap68000` | src/core/cpu/cpu_internal.h:1070-1148 | a faulting fetch on the 68000 stacks PC by the transfer that led there |
| `Boundary.FetchTrap68030` | src/core/cpu/cpu_internal.h:1122-1148 | on the 68030 the frame leads back to the instruction; a refusal by the bus is remembered and the next one halts |
| `Processor.Processor.CalculateEaFull` | src/core/cpu/cpu_internal.h:169-249 | the object ends as `FullEa` says |
| `Processor.Processor.CalculateEa` | src/core/cpu/cpu_internal.h:256-345 | the object ends as `CalcEa` says |
| `Processor.Processor.ReadOperand` | src/core/cpu/cpu_internal.h:347-384 | the object ends as `ReadEa` says |
| `Processor.Processor.WriteOperand` | src/core/cpu/cpu_internal.h:393-458 | the object ends as `WriteEa` says, rollback included |
| `Processor.Processor.ExecuteMove` | src/core/cpu/cpu_ops.h:622-638 | ends as `Move` says; a fault leaves memory, the address registers and, with a memory destination, the data registers |
| `Processor.Processor.ExecuteMovemStore` | src/core/cpu/cpu_internal.h:513-548 | the two loops end as `MovemStore` says; a fault leaves every register |
| `Processor.Processor.ExecuteMovemLoad` | src/core/cpu/cpu_internal.h:467-506 | the staged loops end as `MovemLoad` says |
| `Processor.Processor.ExecuteExtended` | src/core/cpu/cpu_ops.h:315-326 | ends as `ExtendedMem` says for ADDX, SUBX, ABCD and SBCD; a fault leaves the address registers |
| `Processor.Processor.RaiseException` | src/core/cpu/cpu_internal.h:651-712 | ends as `Exception` says, with fields in range and tables in step |
| `Processor.Processor.PollInterrupt` | src/core/cpu/cpu_internal.h:957-964 | the object ends as `CheckInterrupt` says |
| `Processor.Processor.WriteStatus` | src/core/cpu/cpu_internal.h:968-1041 | ends as `WriteSr` says; without an interrupt the three stack pointers stay and SR reads back masked |
| `Processor.Processor.RaiseRetry` | src/core/cpu/cpu_internal.h:719-828 | the object ends as `BusErrorRetry` says, double faults included |
| `Processor.Processor.RaiseSkip` | src/core/cpu/cpu_internal.h:834-942 | the object ends as `BusErrorSkip` says |
| `Processor.Processor.RaiseGroupZero` | src/core/cpu/cpu_internal.h:834-917 | the object ends as `GroupZero` says |
| `Processor.Processor.ReturnFromException` | src/core/cpu/cpu_ops.h:1503-1542 | the object ends as `Rte` says |
| `Processor.Processor.ReadControlRegister` | src/core/cpu/cpu_68030.c:368-405 | the object ends as `MovecOut` says |
| `Processor.Processor.WriteControlRegister` | src/core/cpu/cpu_68030.c:410-452 | the object ends as `MovecIn` says |
| `Processor.Processor.MoveAlternate` | src/core/cpu/cpu_ops.h:1687-1805 | ends as `Moves` says, the swapped table back in place; a fault leaves every register |
| `Processor.Processor.Begin` | src/core/cpu/cpu_68030.c:512-531 | fetch and bookkeeping end as `Head` says; the counter falls, to 0 if the fetch faulted |
| `Processor.Processor.Execute` | src/core/cpu/cpu_decode.h:50-390 | the dispatch to every family routine ends as `Dispatch` says, and a fault leaves nothing of the budget |
| `Processor.Processor.TrapFetch` | src/core/cpu/cpu_internal.h:1122-1148 | a faulting fetch is delivered at once as `FetchTrap` says |
| `Processor.Processor.Pass` | src/core/cpu/cpu_68030.c:512-531 | one pass ends as `Instruction` says, the counter falls, and a fault it leaves has spent the rest |
| `Processor.Processor.RunLoop` | src/core/cpu/cpu_68030.c:512-531 | the starts recorded are those of the instructions run, the counter falls at every start, none has a fault waiting, nothing is left, and without slow accesses or faults exactly the budget of instructions runs |
| `Processor.Processor.RunSprint030` | src/core/cpu/cpu_68030.c:487-556 | prologue, loop and epilogue compose; a traced sprint is one instruction; without slow accesses the whole budget is granted and used; a data fault goes out through a retry frame that holds the address of the last instruction started |
| `Processor.Processor.RunSprint000` | src/core/cpu/cpu_68000.c:72-146 | the same for the 68000, the group-0 frame holding that address plus 2 |

## Left out

- Memory layer: `memory.c` and the MMU are not part of this model. Each sized access is taken as atomic; a faulting one writes nothing, reads as all ones, sets the pending error and ends the sprint. Both views see the same bytes and differ only in what faults.
- Restart of instructions that do not fully roll back: ADD and similar reads into a register, MOVEA, MOVEM from (An)+, LINK after a faulting push, CAS, and ADDX, SUBX, ABCD and SBCD, which lose flags and may store. `Restart` covers MOVE and MOVEM to -(An).
- Restart.RestartTransparent: assumes no interrupt request during the retries and an instruction that reads neither the dead retry frame nor what the handlers wrote; user mode with M set is excluded because entry loses the master pointer there.
- Nesting.NestingRestores: handlers may change any register, flag and the mask but give D0-A7 back before RTE, do not write USP, MSP or the S and M bits, and write memory only outside the live frames; RTE is bare; the 14-byte group-0 frame of the 68000, of which a handler must first drop eight bytes, is not returned from.
- BitField.ExtractMem: the result of an extraction with a faulting byte is unspecified, as it is in the source.
- MulDiv.DivLResult: excludes -2^63 divided by -1, which the source language leaves undefined; division by zero is an outcome of `DivL` and its exception is not followed further.
- Chains.MemChainAdds: the operands do not overlap, the registers differ, and byte operands are not addressed through A7, whose steps are two bytes.
- Disasm.ListingFollowsExecution: covers MOVE and ORI, ANDI, SUBI, ADDI, EORI, CMPI; for other opcodes the listing loop takes the disassembler's answer as a parameter. Operand text is modelled by the numbers printed in it; flags of the immediate group are not computed.
- Branch.ScanPrinted: the optional sign and `0x` prefix that `%x` also accepts never occur in these texts and are not modelled; buffer truncation of the annotated line is not either.
- Processor.Processor.RunSprint030: instructions outside the families are a parameter, any finite sequence of register updates, accesses, exceptions and status loads, and so is the cost of slow accesses; the peripheral reset after a double fault is left out.
- Processor.Processor.TrapFetch: the test of `f_trap` for an instruction page with no table entry and no pending fault depends on the page tables and is not modelled.
- Processor.Processor.RunLoop: the 68030 decoder does not keep the instruction register; latching it there too is harmless, as only the 68000 reads it.
- Processor.Processor.CalculateEaFull: three branches of the source that compute the same address are written as one.
- Flags are truth values, as `read_ccr` sees them; the source keeps words that are zero or not.
- Checkpoint.Handle.OpenRead: file and allocation failures, and the legacy signature message, are not modelled; hosts are little-endian with 64-bit sizes, and a file does not change while it is being written to the checkpoint.
- The opcode dispatch table, the FPU, PMMU instructions, shifts, 16-bit division, CHK, CAS, PACK and the remaining instructions would add members without harder properties.
- Object attributes, symbol tables, trap and global annotations and the scheduler are outside the three components.
