# Verification of the on-chip monitor

A Dafny model of the parts of the monitor whose behaviour cannot be seen by reading one function:
the Thumb assembler and disassembler, the interactive assembly editor built on them, the list of
memory entries, the serial path, and the bounded number conversions. `dafny verify dfyconfig.toml`
checks all of it.

- **Encodings** (`ThumbEncoding`, `EncodingLaws`, `Encodings`, `Patterns`, `Ranges`, `Overlaps`): each
  encoding has its matcher, encoder and decoder over bit vectors. They are mutually inverse; the
  offsets that the fit checks let through but the fields cannot hold are determined exactly, and so
  are the pairs of encodings that share words. `Patterns` has the diagrams of the ARMv7-M
  Architecture Reference Manual a second time, as masks, values and numbers in their places, and ties
  all three to them.
- **Assembler and disassembler** (`ThumbAsm`, `Disassembly`, `ReadBack`, `Meaning`, `AsmRoundTrip`,
  `WordRoundTrip`, `Readings`, `Choices`, `Refusals`, `Acceptance`, `LoadSelection`, `KnownGaps`):
  `Meaning.EffectOf` says what an instruction does regardless of spelling. Assembling and
  disassembling preserves it if and only if `AsmRoundTrip.Faithful` holds of the request, which a
  caller can check beforehand; `KnownGaps` has an input that fails each of its clauses.
  `WordRoundTrip` goes the other way, over all words. `Readings` is a table of what each encoding
  reads as, and `Choices` one of the encoding and the fields each request gets. `Acceptance` says
  which requests assemble at all, and to which width, and `Refusals` which failure the others report.
  `LoadSelection` says which encoder a load by an immediate gets, and exactly which literal loads
  come out as a word that the matcher of LDR (immediate) T4 takes for something else.
- **Instructions in memory** (`ThumbMemory`): assembling through a pointer, the loops over register
  lists, and stepping over what was stored.
- **Editor** (`InstructionStream`, `Editor`, `MonitorAssemble`): a stream of one- and two-halfword
  instructions that can only be walked forwards. The condition under which an assembly keeps the
  stream whole is exact, over single commands and over whole runs.
- **Memory entries** (`Bytes`, `MemoryEntries`, `MemoryList`): one linked list that is a first-fit
  allocator, a label table and a section table. The pointers refine a sequence, and the sequence
  refines a map from names.
- **Serial path** (`IntQueue`, `Interrupts`, `Transfer`, `SerialLink`): the ring, its critical
  section and the sleep on an empty queue as interleaved steps, the stop-and-wait transfer as
  interleaved steps of sender, line, handler and receiver over a first-in first-out queue, and the
  one over the other. The transfer can stop for good: a byte that arrives after the queue was seen
  empty and before the sleep wakes nobody.
- **Numbers** (`Numerals`, `Pad`, `MenuNumber`, `RuntimeAbi`): writing, reading and typing numbers,
  64-bit division by subtraction, and the baud rate divider.

Conventions. Struct members of the encoder parts are 32-bit, signed ones in two's complement, so
`simm - 4` wraps. A condition is the raw enumeration value, and values past AL are covered too. A
null pointer is address 0. Editor addresses and section sizes are counted in halfwords. Negating the
smallest int gives itself, in strtoi as in the comment in menu.c; its result is undefined in C.
`Wide` and `Narrow` in the names are the 32-bit and 16-bit encodings.

Where the source differs from what one would expect, the model follows the source: memcmp returns
the difference of the bytes the other way round than the C standard's sign, `transfer_bytes` of the
header is sent without looking at its result, and `memory_init` writes a link into what lies at the
stack ceiling.

## Model

| member | source | states |
|---|---|---|
| Encodings.PartsNarrow | monitor/autogen_encodings/t32_encoding.c:178-1197 | every narrow encoder stores a word that its own matcher accepts, and decoding it gives the same parts if and only if the fields keep them (only the branch and scaled load offsets can be lost) |
| Encodings.PartsWide | monitor/autogen_encodings/t32_encoding.c:208-1197 | the same for every wide encoder, with the split immediates of ADDW, SUBW, MOVW and UDF and the J1/J2 sign mixing of B T4 and BL |
| Encodings.WordsNarrow | monitor/autogen_encodings/t32_encoding.c:18-1187 | every halfword a matcher accepts is exactly the encoding of what it decodes to |
| Encodings.WordsWide | monitor/autogen_encodings/t32_encoding.c:24-1197 | every word a matcher accepts is exactly the encoding of what it decodes to |
| Patterns.NarrowDiagrams | monitor/autogen_encodings/t32_encoding.c:18-1187 | a narrow matcher accepts exactly the halfwords that have the fixed bits of the encoding's diagram, and each decoded field is the number in its place there |
| Patterns.WideDiagrams | monitor/autogen_encodings/t32_encoding.c:24-1197 | the same for the wide matchers, with split immediates and branch offsets put together as sums |
| Patterns.NarrowStores | monitor/autogen_encodings/t32_encoding.c:178-1197 | for fields that fit, an encoder stores a halfword if and only if it is the one that has the diagram's fixed bits with these numbers in their places |
| Patterns.WideStores | monitor/autogen_encodings/t32_encoding.c:208-1197 | the same for the wide encoders |
| EncodingLaws.BCondT1Law | monitor/autogen_encodings/t32_encoding.c:263-279 | an accepted conditional offset comes back sign-extended from 9 bits, the condition unchanged |
| EncodingLaws.BT2Law | monitor/autogen_encodings/t32_encoding.c:280-292 | an accepted offset comes back sign-extended from 12 bits |
| EncodingLaws.BCondT3Law | monitor/autogen_encodings/t32_encoding.c:293-317 | an accepted conditional offset comes back sign-extended from 21 bits, through the J1, J2 and sign bits |
| EncodingLaws.BT4Law | monitor/autogen_encodings/t32_encoding.c:318-338 | an accepted offset comes back sign-extended from 25 bits, through J1 and J2 mixed with the sign |
| EncodingLaws.BlT1Law | monitor/autogen_encodings/t32_encoding.c:348-368 | the same for BL |
| EncodingLaws.LdrIT1Law | monitor/autogen_encodings/t32_encoding.c:429-449 | an accepted scaled offset comes back modulo 128 |
| EncodingLaws.LdrIT2SpLaw | monitor/autogen_encodings/t32_encoding.c:450-466 | an accepted SP-relative offset comes back modulo 1024 |
| EncodingLaws.LdrLitT1Law | monitor/autogen_encodings/t32_encoding.c:513-529 | an accepted PC-relative offset comes back modulo 1024 |
| Ranges.BT2Range | monitor/autogen_encodings/t32_encoding.c:280-292 | accepted within 4096 either way, kept exactly within 2048 |
| Ranges.BT4Range | monitor/autogen_encodings/t32_encoding.c:318-338 | accepted within 2^25 either way, kept exactly within 2^24 |
| Ranges.BlT1Range | monitor/autogen_encodings/t32_encoding.c:348-368 | accepted within 2^25 either way, kept exactly within 2^24 |
| Ranges.BCondT1Range | monitor/autogen_encodings/t32_encoding.c:263-279 | accepted within 512 either way, kept exactly within 256 |
| Ranges.BCondT3Range | monitor/autogen_encodings/t32_encoding.c:293-317 | accepted within 2^21 either way, kept exactly within 2^20 |
| Ranges.LdrIT1Range | monitor/autogen_encodings/t32_encoding.c:429-449 | accepted below 512, kept exactly below 128 |
| Ranges.LdrIT2SpRange | monitor/autogen_encodings/t32_encoding.c:450-466 | accepted below 4096, kept exactly below 1024 |
| Ranges.LdrLitT1Range | monitor/autogen_encodings/t32_encoding.c:513-529 | accepted below 4096, kept exactly below 1024 |
| Overlaps.SharedNarrow | monitor/autogen_encodings/t32_encoding.c:18-172 | two narrow encodings share a word only if they are UDF or SVC and conditional B |
| Overlaps.SharedWide | monitor/autogen_encodings/t32_encoding.c:24-176 | two wide encodings share a word only if they are UDF or NOP and conditional B, a literal load and another load, or POP T3 and LDR T4 |
| Overlaps.ShadowedNarrow | monitor/autogen_encodings/t32_encoding.c:18-172 | each of those narrow pairs does share a word |
| Overlaps.ShadowedWide | monitor/autogen_encodings/t32_encoding.c:24-176 | each of those wide pairs does share a word |
| Disassembly.ChainBCondT1 | monitor/thumb_asm.c:161-460 | a narrow conditional branch of condition 14 reads as UDF, of 15 as SVC, and of any other as itself |
| Disassembly.ChainLoads32 | monitor/thumb_asm.c:161-460 | which load encoding the chain picks: POP T3 is never picked, a literal load only below 2048 backwards, a register load only when its base is not PC |
| AsmRoundTrip.AssembleThenDisassemble | monitor/thumb_asm.c:161-1374 | for every instruction that assembles, over whatever memory held before, disassembling gives the same meaning if and only if the request is faithful: registers at most 255, offsets inside the chosen field, no AL collision, no PC base of a register load, literal loads back by less than 2048 |
| AsmRoundTrip.WidthAgreement | monitor/thumb_asm.c:11-26 | a narrow result is never read as wide and a wide one never as narrow |
| AsmRoundTrip.WidthAsked | monitor/thumb_asm.c:529-1374 | an explicit width is honoured: NARROW never gives a wide encoding and WIDE never a narrow one |
| LoadSelection.PickedEncoder | monitor/thumb_asm.c:861-953 | which encoder every wide load by an immediate comes from: T3 for a plain offset, the literal T2 for a negative one from PC, and otherwise T4 with parts that are neither LDRT nor without index and writeback |
| LoadSelection.EmitsLdrt | monitor/thumb_asm.c:861-953 | the word assembled has the bits that the matcher and decoder of LDR T4 take for LDRT if and only if the request is a literal load from 3584 to 3839 back, over every request that assembles wide |
| LoadSelection.MakesAssertionFail | monitor/thumb_asm.c:161-1374 | disassembling what was assembled fails the disassembler's assertion if and only if the request is a literal load from 2048 to 2303 or 2560 to 2815 back, over every request that assembles |
| Acceptance.Accepts | monitor/thumb_asm.c:525-1374 | for every instruction: it assembles narrow if and only if that is allowed and its operands are in the ranges of a narrow encoding, and wide if and only if that is allowed, its operands are in the ranges of a wide one, and narrow did not take it |
| WordRoundTrip.DisassembleThenAssemble | monitor/thumb_asm.c:161-1374 | of all 32-bit words, exactly those read as a returnable instruction assemble again at the same width to something that is read as the same instruction |
| WordRoundTrip.AssertionFails | monitor/thumb_asm.c:209-226 | the disassembler's unreachable assertion is reached by exactly the LDR T4 words that neither index nor write back |
| Readings.NarrowReads | monitor/thumb_asm.c:161-460 | a halfword that an encoding accepts, and that UDF or SVC does not take from a conditional branch, reads as the table says: mnemonic, operands in their order, and offsets as numbers |
| Readings.WideReads | monitor/thumb_asm.c:161-460 | the same for words, where NOP and UDF come before conditional branches, literal loads and LDR T4 before what they share |
| Readings.NarrowUnknown | monitor/thumb_asm.c:161-460 | a halfword reads as unknown if and only if no narrow encoding accepts it, and any other by the entry of an encoding that accepts it |
| Readings.WideUnknown | monitor/thumb_asm.c:161-460 | the same for words |
| Readings.WideTest | monitor/thumb_asm.c:11-16 | a first halfword is wide if and only if it is at least 0xe800, whether or not an encoding uses it |
| Readings.OneHotDoubles | monitor/thumb_asm.c:250-270 | a list of one register is that power of two |
| Choices.StoresChoice | monitor/thumb_asm.c:525-1374 | what is stored is the encoding of the table's entry for the request: which encoding, and which operand in which field |
| Choices.StoresDiagram | monitor/thumb_asm.c:525-1374 | so it has that encoding's diagram with the request's numbers in its fields, wherever they fit |
| Choices.ByteIsRemainder | monitor/thumb_asm.c:768-809 | a register number kept in a uint8_t is its remainder by 256 |
| Refusals.Refuses | monitor/thumb_asm.c:525-1374 | a refused request fails for its mnemonic, its width or an operand, exactly as stated of the request |
| ReadBack.BCondT3Reads | monitor/thumb_asm.c:161-201 | what a wide conditional branch reads as, including the offsets at which it is NOP or UDF |
| ReadBack.SingleTop | monitor/thumb_asm.c:1133-1146 | the bit found in a one-register list is that register |
| ReadBack.CountStep | monitor/thumb_asm.c:74-83 | clearing the lowest bit of a register list takes exactly one register from it |
| ThumbMemory.CountRegisterList | monitor/thumb_asm.c:74-83 | the popcount loop returns the number of registers in the list |
| ThumbMemory.RegisterIndex | monitor/thumb_asm.c:1139-1144 | the shift loop returns the index of the highest register |
| ThumbMemory.PopInto | monitor/thumb_asm.c:1103-1164 | POP stores exactly what the specification says, whichever encoders were tried before |
| ThumbMemory.PushInto | monitor/thumb_asm.c:1165-1222 | PUSH stores exactly what the specification says, whichever encoders were tried before |
| ThumbMemory.LdrImmediateInto | monitor/thumb_asm.c:861-953 | up to five encodings are tried in turn, and exactly the one that is reported is stored |
| ThumbMemory.PreferInto | monitor/thumb_asm.c:662-708 | a narrow attempt that fails leaves no trace before the wide one |
| ThumbMemory.ThumbAssemble | monitor/thumb_asm.c:536-1374 | success replaces exactly one halfword or two, failure leaves memory unchanged |
| ThumbMemory.StoredInstruction | monitor/thumb_asm.c:161-1374 | what is disassembled where an instruction was assembled means the same if and only if the request was faithful |
| ThumbMemory.StepsOverStored | monitor/thumb_asm.c:18-26 | stepping over what was assembled moves past exactly the halfwords stored |
| KnownGaps.ShortBranchTooFar | monitor/thumb_asm.c:662-708 | AUTO picks a narrow conditional branch for an offset that only the wide one holds |
| KnownGaps.NarrowBranchTooFar | monitor/thumb_asm.c:662-708 | AUTO picks a narrow branch for an offset that only the wide one holds |
| KnownGaps.WideBranchTooFar | monitor/thumb_asm.c:662-708 | a wide branch is accepted past its reach and goes elsewhere |
| KnownGaps.WideConditionalTooFar | monitor/thumb_asm.c:662-708 | so is a wide conditional branch |
| KnownGaps.CallTooFar | monitor/thumb_asm.c:721-742 | so is BL |
| KnownGaps.AlwaysIsUndefined | monitor/thumb_asm.c:662-708 | a narrow branch with condition AL reads as UDF |
| KnownGaps.PastAlwaysIsCall | monitor/thumb_asm.c:662-708 | a narrow branch with the condition value past AL reads as SVC |
| KnownGaps.AlwaysIsNop | monitor/thumb_asm.c:662-708 | a wide branch with condition AL to 0x2f004 bytes ahead reads as NOP |
| KnownGaps.PastAlwaysIsUndefined | monitor/thumb_asm.c:662-708 | a wide branch with the condition value past AL can read as UDF |
| KnownGaps.ScaledOffsetTooFar | monitor/thumb_asm.c:871-902 | a narrow load of offset 128 reads as offset 0 |
| KnownGaps.StackOffsetTooFar | monitor/thumb_asm.c:871-902 | a narrow load from SP at offset 1024 reads as offset 0 |
| KnownGaps.LiteralOffsetTooFar | monitor/thumb_asm.c:871-902 | so does a narrow literal load |
| KnownGaps.RegisterLoadFromPc | monitor/thumb_asm.c:822-861 | a register load based on PC reads as a literal load |
| KnownGaps.RegisterTruncated | monitor/thumb_asm.c:768-809 | register 256 is assembled as register 0 |
| KnownGaps.LiteralAsserts | monitor/thumb_asm.c:917-930 | a literal load from 2048 back assembles to a word on which the disassembler's assertion fails |
| KnownGaps.LiteralIsLdrt | monitor/thumb_asm.c:917-930 | a literal load from 3584 back assembles to a word that T4's matcher takes, with the bits of LDRT |
| KnownGaps.PopOneIsLoad | monitor/thumb_asm.c:1133-1149 | the word of POP.W {R0} in encoding T2 reads as a POP that assembles to the word of encoding T3, which reads as LDR R0, [SP], #4 |
| KnownGaps.OverwriteBreaks | monitor/monitor_cmds/monitor_assemble.c:112-125 | typing a wide instruction over a narrow one and half a wide one leaves the editor hanging at the end |
| InstructionStream.SearchEnds | monitor/monitor_cmds/monitor_assemble.c:19-35 | some step of the walk from the start leads to the target, which is what the search waits for, if and only if the target lies past the start on an instruction boundary |
| InstructionStream.OnePredecessor | monitor/monitor_cmds/monitor_assemble.c:19-35 | what the search finds is the only instruction of the stream that ends at the target |
| InstructionStream.PreviousThumbInstruction | monitor/monitor_cmds/monitor_assemble.c:19-35 | where the search ends at all, the loop terminates with what it finds |
| InstructionStream.StepInside | monitor/thumb_asm.c:18-26 | a step from one boundary never passes a later one |
| Editor.StepKeepsGood | monitor/monitor_cmds/monitor_assemble.c:445-586 | from a sound prompt no command hangs, and the next prompt is sound if and only if an assembly reaches the end or leads on to it |
| Editor.AppendOrReplaceKeeps | monitor/monitor_cmds/monitor_assemble.c:112-125 | appending, and replacing by the same width, meet that condition |
| Editor.EveryRun | monitor/monitor_cmds/monitor_assemble.c:445-589 | over every run from a sound prompt, all prompts are sound and no search hangs if and only if every assembly meets the condition |
| Editor.GoodRunEnds | monitor/monitor_cmds/monitor_assemble.c:445-589 | such a run gets to its last prompt: start <= cursor <= end, the stream splits, and a section is at least as long as the stream, Rewind and regrowth included |
| Editor.LooksBackForever | monitor/monitor_cmds/monitor_assemble.c:560-582 | looking back from the end searches forever if and only if the stream no longer splits |
| Editor.EnterGood | monitor/monitor_cmds/monitor_assemble.c:445-458 | the first prompt is sound without a section, or with one that splits |
| Editor.FirstPrompt | monitor/monitor_cmds/monitor_assemble.c:445-458 | the first prompt is at the address asked for, or at the place in the section nearest to it, with no width asked for |
| Editor.SettledAt | monitor/monitor_cmds/monitor_assemble.c:459-467 | the end follows a cursor that has passed it, and a section grows to that end and no further |
| Editor.StepFrame | monitor/monitor_cmds/monitor_assemble.c:459-589 | what a command leaves alone: the start, what lies before the cursor, memory and section unless it assembles, and the width unless it sets one |
| Editor.WidthOfRun | monitor/monitor_cmds/monitor_assemble.c:539-541 | after every run the width in force is the last one asked for, or the first prompt's |
| Editor.CursorMoves | monitor/monitor_cmds/monitor_assemble.c:459-586 | seen as a program and a place in it, every command but an assembly moves the place as in a line editor, only Rewind changes the program, and it takes the last instruction off |
| Editor.UpUndoesDown | monitor/monitor_cmds/monitor_assemble.c:569-578 | Down then Up is where it was |
| Editor.DownUndoesUp | monitor/monitor_cmds/monitor_assemble.c:569-578 | Up then Down is where it was |
| Editor.AppendAdds | monitor/monitor_cmds/monitor_assemble.c:112-125 | assembling at the end adds one instruction to the listing and changes no other |
| Editor.ReplaceReplaces | monitor/monitor_cmds/monitor_assemble.c:112-125 | assembling over an instruction of equal width replaces it and changes no other |
| Editor.RewindRemoves | monitor/monitor_cmds/monitor_assemble.c:579-586 | Rewind takes exactly the last instruction off the listing |
| Editor.TypedProgram | monitor/monitor_cmds/monitor_assemble.c:459-589 | of any instructions typed in, those that assemble are listed back in order, each with its meaning if and only if it was faithful, and the others leave nothing |
| Editor.WidthThenProgram | monitor/monitor_cmds/monitor_assemble.c:459-589 | after asking for a width, the listing gains exactly the typed instructions that assemble in that width, each shown as assembled in it |
| MonitorAssemble.Session.TopOfLoop | monitor/monitor_cmds/monitor_assemble.c:459-467 | the end and the section size grow with the cursor |
| MonitorAssemble.Session.AssembleAndShowResult | monitor/monitor_cmds/monitor_assemble.c:112-125 | memory and cursor after an assembly, or unchanged after a failure |
| MonitorAssemble.Session.Do | monitor/monitor_cmds/monitor_assemble.c:459-589 | one command changes the editor's variables and memory exactly as the step does |
| MonitorAssemble.Session.Edit | monitor/monitor_cmds/monitor_assemble.c:459-589 | a session whose assemblies keep the stream runs to its end with the invariant |
| MemoryEntries.Disjoint | monitor/memory.c:50-71 | no byte belongs to two headers or blocks, and all lie between the last entry and the ceiling |
| MemoryEntries.Descending | monitor/memory.c:61-71 | each entry with its block lies wholly below every earlier one |
| MemoryEntries.Conservation | monitor/memory.c:61-71 | the distance from the ceiling to the last entry is the sum of headers and blocks |
| MemoryEntries.RunSound | monitor/memory.c:73-314 | the list is sound after every run of label creations, allocations, releases of live blocks and section resizing |
| MemoryEntries.RunFromInitial | monitor/memory.c:73-314 | after memory_init and any such run the list is sound and its labels are the map of the label requests of the run |
| MemoryEntries.LiveUntilReleased | monitor/memory.c:272-314 | a live block keeps its place and size through every run until it is released |
| MemoryEntries.RunRefinesMap | monitor/memory.c:87-116 | over every run the labels are the map that the label requests alone define |
| MemoryEntries.LookupIsMap | monitor/memory.c:140-152 | a name is found if and only if the map has it, with the address and kind the map says |
| MemoryEntries.LabelKept | monitor/memory.c:87-116 | an accepted label is kept at the address given, or for code at the odd address of its halfword, and reverse lookup of the address given finds it or an earlier one; a name that is too long, empty or known changes nothing |
| MemoryEntries.LookupsUnchanged | monitor/memory.c:140-177 | allocating, freeing and resizing change no lookup by name or address |
| MemoryEntries.RLookupEarliest | monitor/memory.c:154-177 | reverse lookup finds the earliest label of the address, for code with or without bit 0 |
| MemoryEntries.SectionLookup | monitor/memory.c:179-196 | an address is found in the user section if and only if it is within its bounds, the byte after it included |
| MemoryEntries.UserSection | monitor/memory.c:73-85 | over every run the first entry is the user section, 24 bytes below the ceiling, with its first address and the size it was last given |
| MemoryEntries.AllocGives | monitor/memory.c:256-301 | the block is large enough, the first free one that would do, and the last entry moves only if none would |
| MemoryEntries.NewBlockSize | monitor/memory.c:61-71 | a new block is the size asked for rounded up to whole headers |
| MemoryEntries.HeaderFound | monitor/memory.c:303-314 | the header directly before a block's address is that block's own |
| MemoryEntries.AllocThenFree | monitor/memory.c:272-314 | freeing what was just allocated restores the list, but for a new block, which is then free |
| MemoryEntries.FreeThenAlloc | monitor/memory.c:272-314 | a freed block, or an earlier one, serves the next request that fits it |
| MemoryList.Memory.constructor | monitor/memory.c:73-85 | memory_init leaves the list with the empty user section alone |
| MemoryList.Memory.CreateMemoryEntry | monitor/memory.c:61-71 | which pointers are written and where the new header goes |
| MemoryList.Memory.CreateLabel | monitor/memory.c:87-116 | created if and only if the name is 1 to 8 bytes and new, and appended with bit 0 set for code |
| MemoryList.Memory.LookupLabel | monitor/memory.c:140-152 | the pointer walk returns the first label of the name, or null |
| MemoryList.Memory.RLookupLabel | monitor/memory.c:154-177 | the pointer walk returns the first label of the address, or null |
| MemoryList.Memory.LookupSection | monitor/memory.c:179-196 | the pointer walk returns the first section holding the address, or null |
| MemoryList.Memory.FindFreeAllocation | monitor/memory.c:256-270 | the pointer walk returns the first free block large enough, or null |
| MemoryList.Memory.SysAlloc | monitor/memory.c:272-301 | the list after an allocation, and the address of a live block |
| MemoryList.Memory.SysFree | monitor/memory.c:304-314 | only the flag of the block's own header changes |
| MemoryList.Memory.UpdateUserSectionSize | monitor/memory.c:240-243 | only the size of the user section changes |
| Bytes.Memcmp | monitor/string.c:157-167 | zero if and only if the bytes agree, and otherwise the second byte minus the first at the first difference |
| Bytes.FirstDifference | monitor/string.c:157-167 | at the first place where they differ, the result is the second byte minus the first |
| Bytes.DifferenceSwaps | monitor/string.c:157-167 | swapping the arguments of memcmp swaps the sign |
| IntQueue.Queue.Get | monitor/hardware/stm32f411xce/stm32f411xce_usart.c:86-98 | takes the first byte of the queue, or gives 0 of an empty one |
| IntQueue.Queue.PutFromIsr | monitor/hardware/stm32f411xce/stm32f411xce_usart.c:100-109 | appends a byte, or drops it if and only if 24 are queued |
| IntQueue.PutAppends | monitor/hardware/stm32f411xce/stm32f411xce_usart.c:100-109 | writing at the back of the ring appends |
| IntQueue.GetRemoves | monitor/hardware/stm32f411xce/stm32f411xce_usart.c:91-95 | moving the front of the ring on removes the first byte |
| Interrupts.EveryInterleaving | monitor/hardware/stm32f411xce/stm32f411xce_usart.c:78-150 | with the handler allowed between any two steps outside the critical section, delivered, in-hand and queued bytes are the accepted ones in order, back is front plus length modulo 24 and the length stays within 0 and 24 |
| Interrupts.DroppedOnlyWhenFull | monitor/hardware/stm32f411xce/stm32f411xce_usart.c:100-109 | at every event of every interleaving, a byte the handler takes is dropped if and only if the bytes accepted exceed those delivered and in hand by 24, and is otherwise accepted |
| Interrupts.SleepsOnBytes | monitor/hardware/stm32f411xce/stm32f411xce_usart.c:190-213 | at every point of every interleaving, usart_getbyte sleeps or is about to with a byte in the queue if and only if it accepted one after seeing the queue empty and before __WFI, and no interrupt has woken it since |
| Interrupts.BreaksCounted | monitor/hardware/stm32f411xce/stm32f411xce_usart.c:132-150 | a break is raised for each Ctrl-C the handler takes while breaks are enabled, and for nothing else |
| Interrupts.WithoutMasking | monitor/util.c:9-23 | without the critical section an interrupt between reading and writing the length loses a count |
| Transfer.StopAndWait | tools/binsend.c:73-102 | in every interleaving at most one byte is unacknowledged, what is stored is a prefix of what is sent, and nothing is dropped or refused |
| Transfer.EveryRunDelivers | tools/binsend.c:104-155 | every interleaving over a queue that is read whenever it holds a byte ends within five steps a byte, and one that can go no further has delivered the header and the file |
| SerialLink.StepRefines | monitor/hardware/stm32f411xce/stm32f411xce_usart.c:78-213 | with usart_getbyte, its sleep and the handler step by step under the transfer, every step is one of the transfer over a queue or hidden from it, and all but a wake-up bring the run one step on |
| SerialLink.RunRefines | monitor/hardware/stm32f411xce/stm32f411xce_usart.c:78-213 | so every run of the link is, as far as it goes, a run of the transfer |
| SerialLink.EveryRunDelivers | monitor/transfer.c:9-33 | in every interleaving of sender, line, handler and usart_getbyte nothing is dropped and what is received is a prefix of header and file; a run ends within fifteen steps a byte, and ends with everything received if and only if no byte arrived between the check for an empty queue and __WFI; such a run takes thirteen steps a byte and two more for each wake-up |
| SerialLink.SleepsThrough | monitor/hardware/stm32f411xce/stm32f411xce_usart.c:205-213 | for every file there is a run of four steps after which nothing was received and nothing can happen |
| SerialLink.StuckIff | monitor/hardware/stm32f411xce/stm32f411xce_usart.c:205-213 | a run can go no further if and only if everything is sent, or the receiver is asleep with a byte in its queue |
| SerialLink.Oversleeps | monitor/hardware/stm32f411xce/stm32f411xce_usart.c:205-213 | the receiver sleeps, or is about to, with a byte in its queue if and only if some byte arrived between the check and __WFI |
| Transfer.HeaderRoundTrip | monitor/transfer.c:18-29 | the length read from the header is the length sent |
| Transfer.LowByteFirst | monitor/transfer.c:18-29 | the header's first byte is the low one |
| Transfer.AfterRefusal | tools/binsend.c:104-155 | after a reply that is not ACK the rest of the header is skipped and the file goes on, but within the file nothing more is sent |
| Transfer.PreparesIff | tools/binsend.c:115-119 | a file is sent if and only if it has at most 65535 bytes |
| Transfer.ReceiveInto | monitor/transfer.c:9-16 | stores the bytes in order and acknowledges each |
| Transfer.TransferReceive | monitor/transfer.c:18-33 | the file ends up at the destination and nothing beyond it changes |
| Transfer.TransferByte | tools/binsend.c:73-93 | succeeds if and only if the reply is an ACK |
| Transfer.TransferBytes | tools/binsend.c:95-102 | succeeds if and only if all replies are ACKs, and sends nothing after the first that is not |
| Transfer.SendFile | tools/binsend.c:104-155 | what goes out for any replies; with ACKs throughout, the header and the file |
| Numerals.Strtou | monitor/string.c:99-120 | stops at the first character that is no digit of the base, with the value of the digits modulo 2^32 |
| Numerals.Strtoi | monitor/string.c:122-137 | the same with a sign, negating the smallest int to itself |
| Numerals.SignedReading | monitor/string.c:122-137 | the result is the only 32-bit int that is the value of the digits modulo 2^32, or its negation after a minus, and the end is where the digits end |
| Numerals.DigitTable | monitor/char.c:7-33 | a character is digit d if and only if it is the d-th of 0 to 9 and A to F in either case, and no digit if it is none of these |
| Numerals.DigitWritten | monitor/char.c:14-22 | digits are written as 0 to 9 and upper-case A to F |
| Numerals.DigitsStop | monitor/string.c:99-120 | all characters read are digits of the base, and the first one left is not |
| Numerals.ReadsLowered | monitor/string.c:99-120 | lowering the letters of a text does not change what it reads as |
| Numerals.ReadBack | monitor/string.c:36-71 | in any base from 2 to 16, what utoa_pad_w writes is read back by strtou, separators removed, to the same number and to its end if and only if it is filled with zeros or minwidth is at most its own length with separators |
| Numerals.SignedReadBack | monitor/string.c:73-89 | the same for itoa_pad_w and strtoi, for every int |
| Numerals.SpacesInFront | monitor/string.c:64-68 | space fill puts in front exactly the spaces that are missing |
| Numerals.WrittenLength | monitor/string.c:43-56 | D digits take D + (D - 1) / 4 characters |
| Numerals.SeparatorsInPlace | monitor/string.c:43-68 | after the spaces, a separator stands at right-index k if and only if k is 4 modulo 5, and never in front |
| Numerals.FilledDigits | monitor/string.c:57-63 | zero fill writes the digits of the number, or those that fit in minwidth + minwidth / 5 characters if they are more |
| Numerals.RoomIsKept | monitor/string.c:57-63 | that is at least minwidth digits for exactly the widths up to 13, 15, 16, 17, 20, 21 and 25 |
| Numerals.EnoughDigits | monitor/string.c:57-63 | so zero fill gives at least minwidth digits if and only if minwidth is one of those or the number has that many itself |
| Numerals.FourteenIsTooMany | monitor/string.c:57-63 | asked for 14 digits a shorter number gets 13 |
| Numerals.PadSuffices | monitor/string.c:11-52 | the pad's 32 characters are enough for a 32-bit number if and only if the base is at least 3 or the number is below 2^26, and the width is at most 27 with zeros or 32 with spaces |
| Numerals.SignedPadSuffices | monitor/string.c:73-89 | the same for ints, where a negative number in binary must be above -2^25 |
| Pad.Conversions.PadHold | monitor/string.c:27-30 | puts one character in front of the text |
| Pad.Conversions.UtoaPadW | monitor/string.c:36-71 | the loops leave exactly the specified text in the pad, for every number, base and width that it has room for |
| Pad.Conversions.ItoaPadW | monitor/string.c:73-89 | the same for signed numbers |
| MenuNumber.AcceptsIffFits | monitor/menu.c:169-184 | a digit is accepted if and only if the number with it fits in 32 signed bits |
| MenuNumber.EveryEntry | monitor/menu.c:134-242 | whatever is typed, the number fits and the sign bounds it |
| MenuNumber.BackspaceUndoes | monitor/menu.c:228-230 | backspace undoes the last accepted digit in the same base |
| MenuNumber.TypingEnters | monitor/menu.c:169-184 | typing the digits of any number that fits enters that number |
| MenuNumber.FirstKeys | monitor/menu.c:134-168 | entry starts with the initial number and in base 10 |
| MenuNumber.OtherKeys | monitor/menu.c:194-240 | what Ctrl-B, Ctrl-I, Ctrl-Z, minus and backspace do to number, sign and base, and that any other key that is no digit changes nothing |
| MenuNumber.QuotedKey | monitor/menu.c:209-215 | a quoted character's value replaces the number, whatever its sign was |
| MenuNumber.EnterNumber | monitor/menu.c:134-242 | the loop up to the submitting key computes that state |
| RuntimeAbi.LDivMod | monitor/arm/runtime-abi.c:16-26 | quotient and remainder of a positive divisor divide with a remainder below it, which is what C's division gives if and only if the numerator is greater than the negated divisor |
| RuntimeAbi.NeverEnds | monitor/arm/runtime-abi.c:19-21 | without a positive divisor the loop makes no progress: it never ends, or the numerator overflows 64 bits |
| RuntimeAbi.ULDivMod | monitor/arm/runtime-abi.c:29-39 | exact unsigned division |
| RuntimeAbi.OnlyQuotient | monitor/arm/runtime-abi.c:16-26 | no other quotient and remainder satisfy the division law |
| RuntimeAbi.CalculateBaudrateDividerReg | monitor/hardware/stm32f411xce/stm32f411xce_usart.c:111-130 | the register is within clock/baud - 1.16 and clock/baud |
| RuntimeAbi.OrIsSum | monitor/hardware/stm32f411xce/stm32f411xce_usart.c:123-129 | or-ing the fields adds them, because the fraction fits below the mantissa |
| RuntimeAbi.FieldsRound | monitor/hardware/stm32f411xce/stm32f411xce_usart.c:123-129 | mantissa and fraction together are sixteen hundredths of the divider rounded down |

## Left out

- Encoders and decoders accumulate and extract their fields step by step; here each is one expression, and `ThumbMemory.StoreNarrow` and `StoreWide` are their stores; where `thumb_assemble` makes one attempt only, its result is computed before it is stored. `thumb_disassemble` likewise gives a value instead of filling in a local specification, and the operand array of a specification with its count is a sequence.
- Pad.Conversions.UtoaPadW: does not model a `minwidth` so large that `minwidth + minwidth / 5` wraps.
- SerialLink.EveryRunDelivers: assumes a reliable ordered line, one transfer at a time, a receiver that starts with an empty queue, and that no interrupt but its own wakes it; lost acknowledgements, end of file and file errors are not covered.
- Transfer.EveryRunDelivers: also assumes that a waiting usart_getbyte takes a byte whenever one is queued, which SerialLink.SleepsThrough shows is not always so.
- Interrupts.EveryInterleaving: queue resets by switching polling during a read are not covered.
- Editor.EveryRun: takes the requests that the menus build as input; labels defined, code called and listings printed from the editor leave its variables alone and are one command that does nothing. Memory must have room for two halfwords a command.
- MemoryEntries.RunSound: requires address room for each new entry, because nothing in the code keeps the list and the upward-growing user section apart.
- MenuNumber.EnterNumber: does not model options with callbacks.
- RuntimeAbi.NeverEnds: does not model what follows the 64-bit overflow, which C leaves undefined.
- Printing of instructions, entries and prompts, terminal control and menu texts.
- Startup, vector table, fault handling, the debug monitor and calling user code.
- Register accesses of the GPIO, RCC, NVIC, timer and USART devices.
- `thumb_get_referenced_address`, `thumb_print_*`, `io_printf`, memory dump and system calls.
