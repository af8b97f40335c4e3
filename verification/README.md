# A one-pass 6502 assembler, verified

6502ASM translates MOS 6502 source in a single pass. While the parser walks the text, a
listener writes bytes into a sparse memory, binds symbols, and keeps two lists of slots it
cannot fill yet: operands that name later symbols, and branch operands. After the last line
two passes over those lists patch the memory with the final symbols. The finished memory is
then cut into blocks and presented in three ways: a `.PRG` stream, a BASIC program that pokes
the image, and a hexadecimal listing.

This project models that core in Dafny and proves, among others:

* **The one pass is a two-pass assembler.** A plain two-pass assembler is defined
  independently of the listener (`TwoPass.dfy`). For every program it accepts and that does
  not run into the end of the address space, overlaps included, the patched memory is known
  completely: it is the two-pass code written rank by rank, first all bytes known at once,
  then the late operands, then the branch offsets (`MemoryIsLayered`). It is therefore the
  two-pass image exactly where no stale slot wins (`AgreesUnlessStaleSlotWins`), in particular
  where no piece is clobbered (`OnePassRefinesTwoPass`) and everywhere in disjoint programs.
  A concrete program shows that stale slots do win.
* **Errors are exact.** The run is free of errors if and only if the two-pass assembler
  accepts the program, for all programs (`ErrorFreeIffAccepted`), that is, if its definitions are in
  order and every branch is reached by some operand byte, every datum said by some bytes
  (`ErrorFreeIffEncodable`). Each kind of error is reported exactly when some line raises it
  (`ErrorsAreExact`).
* **What both sides compute is fixed from outside.** The operators obey the laws of arithmetic
  modulo 2^32 (`Arithmetic.dfy`); every statement gets the opcode of its addressing mode on the
  grid of the instruction set (`StatementsAreEncoded`); data read back as their values
  (`DataLinesReadBack`); symbols solve the equations of the source (`SymbolsSolveTheSource`).
* **Blocks are maximal.** There are exactly as many as stretches of lines without a gap
  (`BlocksAreMaximal`), and a program makes one block if and only if every line continues where the
  one before it ended (`OneBlockIffContinued`).
* **The documented example** comes out as documented, character by character
  (`ExampleIsAsDocumented`).
* **The `.PRG` stream and the listing agree** with that memory, byte for byte (`Assembler.dfy`); the
  stream has its proper length if and only if no two pieces overlap.
* **The BASIC program does so only where the names of variables count in full.** There it loads the
  image if and only if there is one and `POKE` reaches it (`LoaderLoadsTheImage`). A Commodore, for
  which it is printed, tells names apart by their first two letters: `nby` is `nb`, which is
  harmless, and `byvl` is `byi`, so the value read replaces the loop counter. `CommodoreOutcome`
  gives the result for every image. One block, or any number of disjoint blocks above the first two
  pages, are loaded if and only if the bytes of each block are 1, 2, .. n; a lone `NOP` at 0x1000
  ends up at 0x10E9.
* **The code can be disassembled** again with a decoder built from the opcode tables.

## How the model is organised

| file | content |
|---|---|
| `Words.dfy` | 32-bit wrap-around, bytes, memories |
| `Expressions.dfy` | expression trees, expression objects, the stack machine of rule exits, early binding |
| `Arithmetic.dfy` | the laws of the operators |
| `Opcodes.dfy`, `Source.dfy` | opcode tables with their decoder; source lines |
| `OnePass.dfy` | what one line does, as a function on the state between two lines; the resolve passes |
| `Listener.dfy` | the imperative listener and symbol table: every handler updates fields in place and is proved against `OnePass` |
| `TwoPass.dfy` | the reference assembler |
| `Layers.dfy` | the pieces that claim an address and the order in which they are written, on the reference alone |
| `Emission.dfy`, `Runs.dfy`, `Refinement.dfy` | one line, whole runs, the refinement |
| `Coverage.dfy`, `Patching.dfy`, `DataItems.dfy`, `Decoder.dfy` | coverage, branches and slots, data directives, disassembly |
| `SourceLines.dfy`, `Instructions.dfy`, `SourceData.dfy` | from each source line to its record, its opcode and operand, its data |
| `Acceptance.dfy` | which programs are accepted, and which errors the others get |
| `MemBlocks.dfy`, `BlockIndex.dfy` | block builder, byte index |
| `Coalescing.dfy`, `SourceBlocks.dfy` | how many blocks there are, for code lines and for source lines |
| `PrgImage.dfy`, `Listing.dfy` | the `.PRG` stream; the machine code column of the listing and its reader |
| `BasicText.dfy`, `BasicListing.dfy`, `BasicReader.dfy` | scanning and printing of BASIC text, the printed program, reading it back |
| `BasicMachine.dfy`, `BasicLoader.dfy`, `CommodoreLoader.dfy`, `CommodoreImages.dfy` | running the program: where names count in full, on a Commodore, and which images it loads there |
| `Assembler.dfy` | the driver, and the end-to-end theorems |
| `Example.dfy`, `ExampleListing.dfy`, `ExampleBasic.dfy`, `ExampleOutput.dfy` | the documented example |

Each handler of the listener is a method whose contract gives the whole new state. The method
`WalkLine` replays the rule exits of one line in the parser's post-order and is proved to take
the state to `Step(state, line)`, a function that knows neither the expression stack nor
single bytes. All theorems are about `Step` and its iteration.

## Standing hypotheses

* **Division by zero.** The original divides without a check, which ends the process. Values
  have a third outcome `Trap`; where one is met the run records `DivideTrap`, and the driver
  reports `Crashed`. An error-free run is therefore also free of such divisions.
* **No wrap-around.** Addresses are 32-bit words and wrap explicitly. `PiecesFit` says that no
  piece of the first pass reaches 0xffffffff, which doubles as the sentinel for "no byte on this
  line yet". It is assumed only where named; `FitsIffPiecesFit` ties it to the listener's runs.
  `Assembles` is `Accepts` together with `PiecesFit`.
* **Overlaps.** No theorem about the memory forbids them. `StaleSlotWins` and `Clobbered` describe,
  on the layout of the first pass, the addresses where an older slot outranks the last piece;
  `DisjointPieces` is the stronger condition that no two pieces share an address. It is exactly
  what sorted blocks (`OutputSortedIffDisjoint`) and a `.PRG` stream of the proper length need, and
  `DisjointIffPiecesDisjoint` says that it is the same for code lines. The theorems that lead from a
  source line to its final bytes assume it.
* **Skipped items.** As in the original, an `.ORG` or data item whose value is not known when its
  line is reached has no effect and raises no error. The first pass of the reference does the same.
* **Opcodes.** A failed table lookup yields 0. Among the statements of the grammar this concerns
  exactly `STY ..,X` and `STX ..,Y` in the long form (`StatementsAreEncodable`).
* **Characters.** The original widens a plain `char`; the model assumes a compiler on which that is
  signed, so a character fits a data directive if and only if it is ASCII (`CharacterFitsIffAscii`).
* **BASIC.** The machine knows variables, loops, `READ`, `DATA`, `POKE` with its range, and `END`.
  `Dialect` says whether a name counts in full or by its first two letters.

Where code and intention differ the code is followed: `SBC` with a zero page address and X is
never short because its table key reads `DBC`, and a stale slot keeps the late patch.

## Model

| member | source | states |
|---|---|---|
| Expressions.EarlyBindingIsSound | src/listener/MOS6502Listener.cpp:516-567 | the object built while some symbols are known, evaluated under any larger table, has the value the source expression has there |
| Expressions.MeaningIsStable | src/listener/MOS6502Listener.cpp:113-254 | a value, once defined, is not changed by later symbols |
| Expressions.UnknownIffMissingSymbol | src/listener/MOS6502Listener.cpp:208-220 | evaluation stalls exactly when a named symbol is missing |
| Arithmetic.AdditionCounts | src/listener/MOS6502Listener.cpp:113-123 | x + 0 is x, x + 1 is the next word and zero after the last one, x + (y + 1) is (x + y) + 1 |
| Arithmetic.SubtractionUndoesAddition | src/listener/MOS6502Listener.cpp:125-135 | (x + y) - y and (x - y) + y are x |
| Arithmetic.MultiplicationCounts | src/listener/MOS6502Listener.cpp:149-159 | x * 0 is 0, x * (y + 1) is x * y + x |
| Arithmetic.DivisionLeavesRemainder | src/listener/MOS6502Listener.cpp:137-171 | quotient times divisor plus remainder is the dividend, as whole numbers, and the remainder is less than the divisor; without a divisor both end the process |
| Expressions.ExpressionPushesOneObject | src/listener/MOS6502Listener.cpp:516-607 | the rule exits of an expression never underflow the stack and leave one object on top of any stack |
| Expressions.ListPushesItsObjects | src/listener/MOS6502Listener.cpp:516-618 | a list of expressions leaves one object each, in source order |
| Opcodes.DecodeInvertsLookup | src/listener/MOS6502Listener.cpp:22-102 | an opcode belongs to at most one entry of all the tables, and the decoder returns exactly that entry |
| SymbolTables.SymbolTable.ResolveSymbol | src/listener/SymbolTable.h:34-45 | answers exactly the bound symbols, with their value |
| SymbolTables.SymbolTable.AddSymbol | src/listener/SymbolTable.h:47-52 | binds, overwriting an earlier binding |
| Listeners.Listener.AppendByteToPayload | src/listener/MOS6502Listener.cpp:787-795 | writes at the current address, fixes the line's address on the first byte, advances with wrap-around |
| Listeners.Listener.AddWordToPayload | src/listener/MOS6502Listener.cpp:806-814 | appends the low byte, then the high byte |
| Listeners.Listener.AddDByteToPayload | src/listener/MOS6502Listener.cpp:824-832 | appends the high byte, then the low byte |
| Listeners.Listener.PopExpression | src/listener/MOS6502Listener.cpp:741-750 | takes and evaluates the top object; nothing on an empty stack |
| Listeners.Listener.PopNonEvalExpression | src/listener/MOS6502Listener.cpp:752-761 | takes the top object unevaluated; none on an empty stack |
| Listeners.Listener.PopAllExpressions | src/listener/MOS6502Listener.cpp:773-785 | evaluates all objects in order and empties the stack |
| Listeners.Listener.PushSymbol | src/listener/MOS6502Listener.cpp:551-567 | pushes the value of a known symbol, the symbol itself otherwise |
| Listeners.Listener.CombineExpression | src/listener/MOS6502Listener.cpp:516-549 | replaces the two top objects by one operation, in operand order |
| Listeners.Listener.WalkExpression | src/listener/MOS6502Listener.cpp:516-607 | the handlers leave exactly the frozen object of the expression on top, touching nothing else |
| Listeners.Listener.ExitDataString | src/listener/MOS6502Listener.cpp:609-618 | one object per character, in order |
| Listeners.Listener.AddSymbolCheckAlreadyDefined | src/listener/MOS6502Listener.cpp:352-363 | binds a new symbol; reports a known one and leaves the table alone |
| Listeners.Listener.ExitLabel | src/listener/MOS6502Listener.cpp:332-336 | defines the label as the current address |
| Listeners.Listener.ExitOrgDirective | src/listener/MOS6502Listener.cpp:264-272 | moves the current and the line's address to a known value, otherwise nothing |
| Listeners.Listener.ExitAssDirective | src/listener/MOS6502Listener.cpp:338-350 | defines the symbol, or reports the missing one |
| Listeners.Listener.ExitDataDirective | src/listener/MOS6502Listener.cpp:274-330 | writes the items in range in the directive's byte order, reports the others, empties the stack |
| Listeners.Listener.MakeDeferredExpression | src/listener/MOS6502Listener.cpp:502-506 | records the slot and fills it with 0xff |
| Listeners.Listener.AppendIdxIdrOrIdrIdxOrImmCmd | src/listener/MOS6502Listener.cpp:422-459 | encodes a one-byte operand, defers it, or reports it as too large; an internal error on an empty stack |
| Listeners.Listener.AppendIdxOrZpgCmd | src/listener/MOS6502Listener.cpp:462-500 | encodes the short or the long form, or defers in the long form |
| Listeners.Listener.ExitRelStatement | src/listener/MOS6502Listener.cpp:376-386 | writes the opcode, records the operand slot, leaves a gap of one address |
| Listeners.Listener.ExitOperationStatement | src/listener/MOS6502Listener.cpp:370-419 | selects the tables of the addressing mode |
| Listeners.Listener.ExitLine | src/listener/MOS6502Listener.cpp:657-675 | records address and length of the line, (0,0) if nothing was emitted, and resets the line |
| Listeners.Listener.WalkLine | MOS6502.g4:9-83 | the rule exits of any line take the state between lines to `Step` of it, with the stack empty again |
| Listeners.Listener.ResolveDeferredExpressions | src/listener/MOS6502Listener.cpp:706-734 | patches every slot that evaluates, in order, and reports the others |
| Listeners.Listener.ResolveBranchTargets | src/listener/MOS6502Listener.cpp:677-704 | patches every branch that reaches, in order, and reports the others |
| EmissionProofs.PutAllWritesBlock | src/listener/MOS6502Listener.cpp:787-795 | without wrap-around the byte writer writes one contiguous block from the line's address on |
| EmissionProofs.DataMatchesValues | src/listener/MOS6502Listener.cpp:274-330 | a data line is free of errors exactly when its present items fit under the final symbols, and then its bytes are the two-pass bytes |
| EmissionProofs.BodyMatchesPiece | src/listener/MOS6502Listener.cpp:365-513 | a line resolves without error exactly when the two-pass encoding is legal; both have the same size, and the line holds the bytes known at once, its slots the others |
| Layers.PrevailingPieceDecides | src/listener/MOS6502Listener.cpp:677-734 | written rank by rank, an address ends up with the byte of the piece of the highest rank there, the last one among equals |
| Layers.LayersAgreeUnlessStale | src/listener/MOS6502Listener.cpp:677-734 | writing by rank and writing in order agree at an address if and only if no stale slot wins there |
| RunProofs.RunGrows | src/listener/MOS6502Listener.cpp:352-363 | over every run symbols are never rebound, and errors, slots and code lines are only added |
| RunProofs.StepFollowsFirstPass | src/listener/MOS6502Listener.cpp:264-507 | while no error occurs, address and symbols are those of the first pass |
| RunProofs.ErrorFreeIffAccepted | src/listener/MOS6502Listener.cpp:274-363 | for every program: no error and no division by zero if and only if no symbol is defined twice, assignments use earlier symbols, and every piece is legal under the final symbols |
| Acceptance.ErrorFreeIffEncodable | src/listener/MOS6502Listener.cpp:274-330 | for every program: no error if and only if its definitions are in order and every piece can be encoded: some operand byte leads each branch to its target, some bytes of its directive read as each datum |
| Words.SignedIsTwosComplement | src/listener/MOS6502Listener.cpp:688 | the cast yields the one number between -2^31 and 2^31 - 1 that wraps to the word |
| Acceptance.BranchAcceptedIffWithinReach | src/listener/MOS6502Listener.cpp:677-704 | a branch is accepted if and only if its target has a value and some operand byte, sign-extended and added to the address after it, gives that value |
| Acceptance.ErrorsAreExact | src/listener/MOS6502Listener.cpp:274-381 | for every program and every kind of error: it is reported if and only if some line raises it, with the symbols known there or in the end |
| Refinement.StepAddsPieces | src/listener/MOS6502Listener.cpp:365-513 | every line adds its two-pass piece, each byte to memory, operand slots or branch slots according to its rank, whatever was there before |
| Refinement.MemoryIsLayered | src/ASM6502.cpp:33-35 | main theorem: for every program that assembles, overlaps included, the patched memory is exactly the two-pass code written rank by rank |
| Refinement.AgreesUnlessStaleSlotWins | src/listener/MOS6502Listener.cpp:264-507 | the patched memory agrees with the two-pass image at an address if and only if no stale slot wins there; both have the same addresses |
| Refinement.OnePassRefinesTwoPass | src/listener/MOS6502Listener.cpp:264-507 | they agree wherever the last piece at an address is not outranked by an older one |
| Refinement.DisjointProgramsAssembleExactly | src/ASM6502.cpp:33-52 | with disjoint pieces the final memory equals the two-pass image |
| Refinement.FitsIffPiecesFit | src/listener/MOS6502Listener.h:30 | for accepted programs the no-wrap hypothesis says exactly that each placed piece ends below the sentinel |
| Coverage.ErrorFreeRunIsReadable | src/listener/MemBlocks.cpp:27-30 | after any error-free run every lookup of the block builder succeeds, overlaps and wrap-around included |
| Coverage.RunKeepsBacking | src/listener/MOS6502Listener.cpp:657-669 | at every line boundary of every run, errors and wrap-around included, each address a code line counts is written or reserved for a branch |
| Coverage.RunKeepsTrack | src/listener/MOS6502Listener.cpp:657-669 | at every line boundary of every run an address is in a code line if and only if it is written or reserved for a branch |
| Coverage.ErrorFreeRunIsCovered | src/listener/MOS6502Listener.cpp:677-704 | after an error-free run the memory holds exactly the addresses of the code lines |
| Coverage.DisjointIffPiecesDisjoint | src/listener/MOS6502Listener.cpp:657-669 | the code lines of a program that assembles are disjoint if and only if the pieces of the first pass are |
| Coverage.LabelsAreLineStarts | src/listener/MOS6502Listener.cpp:332-363 | in every program that assembles, the final value of the label of a line with bytes is the start address of its code line |
| SourceLines.AddressesFollow | src/listener/MOS6502Listener.cpp:264-272 | the address law: a line's bytes go to the address it finds; the next line finds the address after them, or the one an `.ORG` names |
| SourceLines.SymbolsSolveTheSource | src/listener/MOS6502Listener.cpp:332-363 | every label is the address its line finds, every assigned symbol the value of its expression under all the final symbols |
| Patching.BranchesLandOnTheirTargets | src/listener/MOS6502Listener.cpp:677-698 | for the last branch at its operand address: sign-extending the stored byte and adding the address after it gives the target, forwards and backwards |
| Patching.BranchLandsIffLastAgrees | src/listener/MOS6502Listener.cpp:677-698 | every branch of every program without errors reaches its target if and only if the last branch at its operand address has the same target |
| Patching.BranchPieceLandsIffLastAgrees | src/listener/MOS6502Listener.cpp:376-386 | the same for the branches of the source, on the layout of the first pass |
| Patching.SharedOperandMissesTarget | src/listener/MOS6502Listener.cpp:376-386 | a program with two overlapping branches that assembles without an error although the first goes to the target of the second |
| Patching.OpenSlotWins | src/listener/MOS6502Listener.cpp:706-734 | in every program without errors, an address in an operand slot ends up with the byte of the last such slot unless a branch offset follows |
| Patching.RunKeepsOneSlot | src/listener/MOS6502Listener.cpp:384-506 | over every run, errors included: where no line reclaims an open slot at most one slot waits |
| Patching.OneSlotIffLateOnce | src/listener/MOS6502Listener.cpp:384-506 | for programs that assemble: at most one slot waits at an address if and only if at most one piece has a late byte there |
| Patching.PatchOrderIsIrrelevant | src/ASM6502.cpp:33-35 | for every program: all patches of both passes may be applied in any order at an address if and only if those that write it agree there; at most one waiting slot is enough |
| Patching.DisjointPatchesCommute | src/ASM6502.cpp:33-35 | for disjoint programs any order of all patches gives the whole final memory |
| Patching.ClobberingBreaksTheRefinement | src/listener/MOS6502Listener.cpp:384-385 | a program with overlapping lines that assembles without an error although a stale slot wins, with both bytes |
| DataItems.ItemsMeanTheirNumbers | src/listener/MOS6502Listener.cpp:609-618 | items in range, in any mix of expressions and strings of any length, mean their values and character codes |
| DataItems.DataLineReadsBack | src/listener/MOS6502Listener.cpp:274-330 | a data line with or without a label reads back from memory as the values and character codes of its items, and has exactly their length |
| DataItems.AssembledDataReadsBack | src/listener/MOS6502Listener.cpp:274-330 | in the finished memory, data no other piece touches reads back as the values its items have under the final symbols |
| DataItems.DisjointDataReadsBack | src/listener/MOS6502Listener.cpp:274-330 | in a disjoint program all data reads back |
| DataItems.ItemInRangeIffTreesFit | src/listener/MOS6502Listener.cpp:609-618 | an item is in range if and only if each of its expression objects is; a string, if and only if it is ASCII |
| SourceData.DataLinesReadBack | src/listener/MOS6502Listener.cpp:274-330 | in a disjoint program the record of a data line counts exactly the items whose names are known when it is reached, and they read back as their final values and character codes |
| SourceData.NumberIsAssembled | src/listener/MOS6502Listener.cpp:274-330 | `.BYTE v` alone assembles without an error if and only if v is below 256, `.WORD v` and `.DBYTE v` if and only if it is below 65536, and then read back as v |
| SourceData.SumIsAssembled | src/listener/MOS6502Listener.cpp:113-123 | `s = x` and `.WORD s+k` read back as (x + k) modulo 2^32 if that is a word, and are refused otherwise |
| DataItems.InternalErrorIsUnreachable | src/listener/MOS6502Listener.cpp:895-898 | no program raises an internal error |
| Decoder.StatementsAreEncodable | src/listener/MOS6502Listener.cpp:91-110 | for statements of the grammar the lookup fails exactly for the indexed stores in the long form |
| Decoder.IndexedStoreBecomesBreak | src/listener/MOS6502Listener.cpp:43-64 | for every v above 255, `STY v,X` assembles without an error to 00, the opcode of `BRK`, and the two bytes of v |
| Decoder.IndexedSubtractTakesThreeBytes | src/listener/MOS6502Listener.cpp:43-53 | `SBC v,X` assembles to the three-byte form for every v, page zero included |
| Decoder.PiecesAreDecoded | src/listener/MOS6502Listener.cpp:365-513 | walking memory that shows a chain of pieces finds their mnemonics, modes, operands and targets |
| Decoder.AssembledCodeDisassembles | src/listener/MOS6502Listener.cpp:365-513 | any stretch of consecutive instructions that no other piece touches disassembles to those instructions |
| Decoder.DisjointCodeDisassembles | src/listener/MOS6502Listener.cpp:365-513 | in a disjoint program any stretch of consecutive instructions disassembles to itself |
| Instructions.StatementsAreEncoded | src/listener/MOS6502Listener.cpp:365-513 | from the source line, for every statement of the grammar that has an opcode, in a disjoint program: its record has the length of the addressing mode, its first byte is the opcode of its operation and mode on the grid, short exactly where the operand is known to fit, and its operand bytes say what the operand means or lead to the target |
| MemBlocks.GetMemBlocks | src/listener/MemBlocks.cpp:7-45 | fails exactly on a missing address; otherwise returns the coalesced blocks, sorted by address |
| BlockIndex.GetByteAt | src/listener/MemBlocks.cpp:103-116 | the byte of the first block that has the address, 0xff without one |
| BlockIndex.BlocksConserveBytes | src/listener/MemBlocks.cpp:14-44 | for all code lines: block bytes add up to the line lengths, and no block is empty |
| BlockIndex.IndexAgreesWithMemory | src/listener/MemBlocks.cpp:7-50 | for code lines in any order, overlapping or not: covered addresses read their byte, others 0xff |
| BlockIndex.BlocksSortedIffLinesDisjoint | src/listener/MemBlocks.cpp:41-50 | each block ends before the next begins if and only if no two code lines share an address |
| Coalescing.BlocksAreMaximal | src/listener/MemBlocks.cpp:14-50 | for all code lines: as many blocks as stretches with bytes; every line is in one block at its place; two lines share a block if and only if every line between starts where the one before it ends |
| SourceBlocks.SameBlockIffContinued | src/listener/MemBlocks.cpp:14-50 | two source lines share a block if and only if every line after the first up to the second has bytes or is an `.ORG` to the address reached anyway |
| SourceBlocks.OneBlockIffContinued | src/listener/MemBlocks.cpp:14-50 | a program with bytes makes exactly one block if and only if every line from the first byte to the last continues; an assignment in between splits it |
| PrgImage.WritePrg | src/listener/MemBlocks.cpp:132-169 | the loop over blocks and padding writes the stream |
| PrgImage.StreamLength | src/listener/MemBlocks.cpp:147-155 | the stream is as long as the image plus three exactly when the blocks are sorted and disjoint, and 2^32 longer per overlap |
| PrgImage.StreamShowsTheImage | src/listener/MemBlocks.cpp:132-169 | the header is the first address modulo 2^16, each later byte is the index's answer for its address, gaps included, the last byte is zero |
| BasicListing.GetBasicMemBlockInitializerListing | src/listener/MemBlocks.cpp:52-101 | the nested loops insert exactly the characters of the listing, line by line |
| BasicReader.PrintedListingReadsBack | src/listener/MemBlocks.cpp:52-98 | read character by character, the printed text is the ten statements of the loader and data lines with one to four values, padded, commas exactly between them |
| BasicReader.ListingNumbers | src/listener/MemBlocks.cpp:67-87 | data lines are numbered by tens from 200 and the last number is 210 plus ten per line that follows |
| BasicReader.DataLineColumns | src/listener/MemBlocks.cpp:83-95 | a data line is its number, `data`, and every four characters a value of three, filled with blanks on the left, and a comma |
| BasicLoader.LoaderLoadsTheImage | src/listener/MemBlocks.cpp:52-101 | where names count in full: the printed program pokes exactly the image, and reaches its END, if and only if there is a block and POKE reaches all of them |
| CommodoreLoader.CommodoreOutcome | src/listener/MemBlocks.cpp:56-65 | on a Commodore, for every image: the program leaves exactly what its two loops compute when the value read is the loop counter, and loads the image if and only if that is the image |
| CommodoreImages.OneBlockLoadsIffCounting | src/listener/MemBlocks.cpp:56-65 | on a Commodore one block is loaded if and only if its bytes are 1, 2, .. n and POKE reaches them |
| CommodoreImages.CountingImageLoads | src/listener/MemBlocks.cpp:56-65 | any number of such blocks, overlapping or not, is loaded |
| CommodoreImages.RegularImageLoadsIffCounting | src/listener/MemBlocks.cpp:56-65 | disjoint blocks above the first two pages are loaded if and only if the bytes of each are 1, 2, .. n and POKE reaches them |
| CommodoreImages.OneBlockEndsIffReached | src/listener/MemBlocks.cpp:60-63 | with one block the program reaches its END if and only if some byte reaches the length of the block before POKE refuses one; a single zero runs out of data |
| CommodoreImages.LowImageLoadsByAccident | src/listener/MemBlocks.cpp:56-65 | two blocks in page zero that are loaded although their bytes do not count |
| CommodoreImages.OverlappingImageLoadsByAccident | src/listener/MemBlocks.cpp:56-65 | two overlapping blocks above the first two pages that are loaded although their bytes do not count |
| MachineCodeListing.GetMachineCode | src/listener/CodeLine.cpp:84-104 | the address loop writes the text of the line |
| MachineCodeListing.MachineCodeReadsBack | src/listener/CodeLine.cpp:84-104 | the text parses back to the line's address and one byte per address |
| MachineCodeListing.MachineCodeColumns | src/listener/CodeLine.cpp:84-104 | the text of a line is empty exactly without bytes; otherwise four digits of address, and every five characters two digits of a byte |
| Assembler.AssembleStream | src/ASM6502.cpp:19-54 | a program comes out exactly when the parser does not complain and the reference accepts, otherwise the errors of both, a crash exactly on a division by zero, never an uncaught lookup failure |
| Assembler.IndexShowsTwoPassImage | src/ASM6502.cpp:50-53 | from source text to byte index, at every address: the index reads the layered code, and the two-pass image if and only if no stale slot wins |
| Assembler.OutputSortedIffDisjoint | src/listener/MemBlocks.cpp:41-50 | the blocks of a program are sorted without overlap if and only if its pieces are disjoint |
| Assembler.StreamShowsTwoPassImage | src/listener/MemBlocks.cpp:132-169 | the `.PRG` stream is as long as the span plus three if and only if the pieces are disjoint, and then it is the two-pass image with 0xff in the gaps |
| Assembler.OverlapMakesTheStreamHuge | src/listener/MemBlocks.cpp:147-155 | a program of three lines whose two overlapping blocks make the stream 2^32 bytes too long |
| Assembler.LoaderLoadsTwoPassImage | src/listener/MemBlocks.cpp:52-101 | where names count in full: the BASIC program reaches its END if and only if there is a block and POKE reaches all of them, and then leaves exactly the layered code, the two-pass image wherever no stale slot wins |
| Assembler.CommodoreLoadsIffCounting | src/listener/MemBlocks.cpp:56-65 | on a Commodore: the BASIC program of a disjoint program above the first two pages loads it if and only if every block counts 1, 2, .. n and POKE reaches them |
| Assembler.CommodoreMisplacesOneByte | src/listener/MemBlocks.cpp:60-63 | from two source lines, `.ORG a` and an instruction of one byte v > 0: on a Commodore the BASIC program runs to its END and leaves only v, v - 1 addresses too far |
| Assembler.ListingShowsFinalBytes | src/listener/CodeLine.cpp:84-104 | the listing of each emitting line parses back to its address and its final bytes |
| Assembler.ListingRecoversTheMemory | src/listener/CodeLine.cpp:84-104 | parsing the listing of all code lines recovers the whole memory, every address and every byte |
| DocumentedOutput.ExampleIsAsDocumented | README.md:25-55 | the documented program assembles to the documented machine code column and the documented BASIC program |

## Left out

- The generated lexer and parser and their error recovery: lines, expression trees and the parser's complaints are the input, and the grammar only fixes the order of the rule exits.
- Command line, files, streams and the exception texts around `assembleFile` and `writeProgFile`.
- Texts of error messages and source positions: only the kind of an error is kept.
- `peekExpression`, which nothing calls, and the evaluation of decimal, hexadecimal and binary literals: literals are 32-bit words.
- Labels and assembly text in the listing, and the padding before them.
- `std::sort`: an insertion sort stands for it; the theorems hold for every sorted permutation.
- The 32-bit wrap-around of the BASIC line counter, which needs more than four hundred million lines.
- BASIC's own limit on line numbers (`ListingNumbers` gives the last number), the effect of a `POKE` on the interpreter itself, and every statement the printed program does not use.
- RegularImageLoadsIffCounting: says nothing of images with overlapping blocks or blocks in pages zero and one, where counting bytes are sufficient but, as two images show, not necessary; `CommodoreOutcome` still gives what each of them leaves.
- Execution of 6502 code beyond operand decoding and branch targets.
- CombineExpression: requires two objects on the stack, where the original would read past the end; `WalkExpression` shows it always has them.
