# A verified model of the class-file decompiler

This Dafny project models the three parts of the decompiler that carry its correctness
argument, and proves what they promise.

1. **Reading archives.** The DEFLATE decoder with its bit reader and canonical Huffman
   tables, and the CRC-32 of the zip entries. The decoder is proved to invert an encoder
   stated from the format's side, with constants by the rules of RFC 1951, to be total on
   arbitrary bytes and to expand its input by at most a factor of 1032. The checksum is
   proved to be the remainder of the message polynomial by the generator of the standard
   and to detect every burst of 32 bits.
2. **From bytecode to statements.** Decoding a code array into instructions, splitting it
   into basic blocks, the depth-first analyses of the control flow graph, the symbolic
   emulation of the operand stack with spilling at joins, and printing the blocks as a
   flat list with labels and jumps. The main results run through all of these stages and
   through the passes that strip, fold and elide: the printed method returns a value
   exactly when the bytecode does.
3. **Rewriting and printing.** Label elision, inlining of temporaries, folding of
   increments, the parenthesising expression printer, and the two text codecs (modified
   UTF-8 and type descriptors).

Code that works on mutable state is modelled as methods and classes with the same loops
(`BitReader.Reader`, `Emulation.Operands`, `MethodEmulation.Emulator`, `Descriptors.Cursor`,
the two depth-first loops, the block splitter, the passes). Each is proved against a
function or predicate, and the theorems are about those.

Tables and constants of the code are never their own specification: RFC 1951, the generator
polynomial, section 6.5 of the Java Virtual Machine Specification and chapter 15 of the Java
Language Specification are stated a second time in the terms of their own text (`Rfc1951`,
`Crc32.Generator`, `Mnemonics`, `PrintedMeaning`), and the code's tables are proved to agree.

## Modules

| Modules | Content |
|---|---|
| `Bits`, `Results`, `Crc32` | words and bit sequences, outcomes, the checksum |
| `Huffman`, `BitReader`, `Inflate` | tables, reader and decoder, with every error path |
| `Rfc1951`, `FormatTables` | the constants of the format by its rules, and that the decoder's are the same |
| `Deflate`, `Streams`, `FixedBlocks`, `DynamicBlocks`, `Refusals`, `Bounds` | the encoder, round trips, stored blocks, fixed blocks bit by bit, headers for any codes, what is refused, the expansion bound |
| `Graph`, `DepthFirst`, `Traversal`, `Tails`, `Loops`, `EmissionOrder` | the graph, its depth-first invariant, orders, loops and reachability |
| `JavaInts`, `Ir`, `Jvm` | two's complement arithmetic, the meaning of expressions and statements, the int fragment of the virtual machine |
| `Emulation`, `BlockMeaning`, `Widths`, `Names`, `Declarations` | emulating one instruction and one block, recorded types, unique variable names, what is declared where |
| `MethodEmulation`, `RunMeaning` | emulating a method, and what its runs mean |
| `Examples`, `ExampleMethods` | bytecode on which the findings show |
| `Cfg`, `CfgMeaning`, `Pipeline` | building the graph, and code run by instruction against code run by block |
| `Decode`, `DecodedCode`, `Mnemonics` | bytes to instructions, those as the other modules need them, and the instruction set they are checked against |
| `Labels`, `LinearCode`, `FallThrough`, `Decompiled` | flat programs, elision, printing in linear mode, the whole way |
| `Temps`, `Increments`, `Completion` | the other passes, alone and on a whole printed method |
| `Printer`, `Parentheses`, `PrintedMeaning` | printing and parsing expressions, and the values of what is printed |
| `ModifiedUtf8`, `Descriptors` | text codecs |

## Findings

Twelve properties that comments or the formats promise do not hold of the code. For each the
model keeps the code as it is, shows a failing input and proves when the code is right.

- **Stored blocks** are read without skipping to a byte boundary first. `Streams.StoredIff`:
  such a block is read as meant if and only if its header happens to end on a boundary.
  `Streams.StoredStreamFails`: no one-block stored stream is ever decoded to its data.
- **`pop2` and `dup2` go by recorded types.** They take one expression instead of two when the
  one on top is recorded as `long`, and a slot keeps the type of the parameter it started with.
  `Widths.PairsIff`: over ints they are emulated right if and only if the expression on top is
  not recorded as `long`. `Examples.LongParameterMisread` is such a method.
- **A pending load is not saved before a store.** `BlockMeaning.StaleStore`: storing into a
  variable whose load is still on the stack is right if and only if the value does not
  change. `Examples.ArgumentLost`: a method that returns its argument is emitted as one that
  returns 5.
- **A popped division disappears.** `BlockMeaning.ForgottenDivision`: the machine throws
  exactly for a zero divisor, the emitted block never does. `Examples.DivisionLost`: a method
  that always throws is emitted as one that returns.
- **Spills are sequential.** `RunMeaning.InTurnIff`: a stack of variables and constants arrives
  right for all values of the variables if and only if each value is assigned before something it
  reads is overwritten. `ExampleMethods.SwapLost`: a method that returns 1 is emitted as one
  that returns 2.
- **The false edge of a two-way block is only a comment.** `LinearCode.FallsRight` and
  `FallThrough.FalseEdge`: it is followed if and only if its target is printed next.
  `Tails.TailIsNext`: it is printed next whenever no other edge leads there.
  `FallThrough.JoinIsMissed`: in an acyclic method it never is when the true edge also leads
  there, as in an `if` without `else`. `ExampleMethods.FalseEdgeLost` is such a method: it
  returns 0, its text returns 1.
- **`x = x + k` with a `long` constant.** `Increments.FoldExact`: the increment does the same
  if and only if the constant fits an `int`; its proof gives the variables that tell them apart.
- **`iconst_m1` to `iconst_5`.** `DecodedCode.IconstIff`: they are decoded without operand, so
  only `iconst_0` means what it should.
- **`wide` before a shorthand.** The comment lets only `iload`, `istore`, `ret` and `iinc` follow.
  `Mnemonics.WideIff`: `iload_0` to `aload_3` and the stores alike are accepted too, and read as
  if they named the variable in the two bytes behind.
- **Elision stops after sixteen rounds**, though its comment says it iterates until stable.
  `Labels.SixteenRounds`: fifteen plain jumps are always enough, and for every larger number
  there is a program left unfinished.
- **Descriptors.** `Descriptors.TypeBackIff`: a type is read back if and only if it has no type
  variable and no semicolon in a class name.
- **Lone surrogates.** `ModifiedUtf8.ReencodeIff`: a Java string survives decoding if and only if
  each of its surrogates is half of a pair.

## Model

| member | source | states |
|---|---|---|
| `Crc32.Compute` | crates/jadx-rs/src/zip.rs:316-326 | the mask-and-shift loop computes the checksum that `CrcIsRemainder` and the burst theorems are about |
| `Crc32.StepLinear` | crates/jadx-rs/src/zip.rs:319-324 | one step distributes over exclusive or |
| `Crc32.StepInjective` | crates/jadx-rs/src/zip.rs:319-324 | one step loses no information |
| `Crc32.FeedAllIsBitSerial` | crates/jadx-rs/src/zip.rs:318-324 | xoring in whole bytes is the same as feeding the message bit by bit |
| `Crc32.CrcIsRemainder` | crates/jadx-rs/src/zip.rs:316-326 | the checksum is what section 8 of RFC 1952 defines: the message followed by 32 zeros, its first 32 bits complemented, divided by the generator, the remainder complemented |
| `Crc32.GeneratorBits` | crates/jadx-rs/src/zip.rs:322 | the constant of the loop is, reflected, the generator x^32 + x^26 + x^23 + x^22 + x^16 + x^12 + x^11 + x^10 + x^8 + x^7 + x^5 + x^4 + x^2 + x + 1 without its highest term |
| `Crc32.DetectsFourByteBurst` | crates/jadx-rs/src/zip.rs:316-326 | two messages of equal length that differ, and only within four consecutive bytes, have different checksums |
| `Crc32.DetectsBitBurst` | crates/jadx-rs/src/zip.rs:316-326 | the same for any 32 consecutive bits, byte-aligned or not |
| `BitReader.Reader.Buffer` | crates/jadx-rs/src/zip.rs:374-384 | refilling changes no bit still to be read, stops only at the end of the source, and never puts more than 31 bits into the 32-bit buffer |
| `BitReader.Reader.TakeField` | crates/jadx-rs/src/zip.rs:374-390 | up to 24 bits are read as the number they form least significant bit first, or the end is reported |
| `BitReader.Reader.Align` | crates/jadx-rs/src/zip.rs:392-396 | the rest of the current byte is skipped, exactly |
| `BitReader.Reader.TakeRaw` | crates/jadx-rs/src/zip.rs:398-409 | whole bytes are taken from the byte position, or the truncation is reported |
| `BitReader.Reader.TakeCode` | crates/jadx-rs/src/zip.rs:411-427 | the decoding loop walks the code tree the table stands for; on any table its indices stay in range |
| `Huffman.Build` | crates/jadx-rs/src/zip.rs:342-359 | counting, offsets and the fill loop give the symbols sorted by length and symbol, for every list of lengths up to 15 |
| `Huffman.DecodeInvertsCode` | crates/jadx-rs/src/zip.rs:342-427 | fed the code that section 3.2.2 of RFC 1951 assigns to a symbol, the decoder returns the symbol and consumes exactly the code |
| `Huffman.DecodeConsumesCode` | crates/jadx-rs/src/zip.rs:342-427 | whatever the decoder accepts is the code of the symbol it returns, for any lengths at all |
| `Huffman.PrefixFree` | crates/jadx-rs/src/zip.rs:341-427 | for lengths that satisfy the Kraft inequality no code is a prefix of another |
| `Inflate.CopyBack` | crates/jadx-rs/src/zip.rs:589-594 | the byte-by-byte loop appends the copy that `CopyIsLz77` characterises |
| `Inflate.InflateBlock` | crates/jadx-rs/src/zip.rs:559-597 | the symbol loop reads exactly the tokens the remaining bits stand for, with the errors of every branch, and terminates |
| `Inflate.ReadCodeLengths` | crates/jadx-rs/src/zip.rs:504-539 | run-length coded lengths are unpacked as section 3.2.7 of RFC 1951 demands, with the code's errors and its tolerance for a run of zeros past the end |
| `Inflate.ReadDynamic` | crates/jadx-rs/src/zip.rs:491-543 | the header of a dynamic block yields its two tables or its error |
| `Inflate.InflateStored` | crates/jadx-rs/src/zip.rs:475-487 | a stored block is read with the length fields first and the alignment afterwards, as the code does |
| `Inflate.InflateLoop` | crates/jadx-rs/src/zip.rs:471-555 | blocks are read until the final one, and the limit is checked after each |
| `Inflate.Inflate` | crates/jadx-rs/src/zip.rs:432-556 | on arbitrary bytes the decoder terminates without an index out of range, with the result the round trips, the refusals and the bound are about; its tables are the format's by `FormatIsStandard` |
| `Deflate.CopyAt` | crates/jadx-rs/src/zip.rs:589-594 | byte `k` of a copy of distance `d` is old byte `n - d + k mod d`, overlaps included |
| `Deflate.CopyIsLz77` | crates/jadx-rs/src/zip.rs:589-594 | the copying loop is the LZ77 copy |
| `Deflate.TokensRoundTrip` | crates/jadx-rs/src/zip.rs:559-597 | decoding the bits of any valid tokens and an end-of-block code gives their expansion and stops right behind |
| `Deflate.HeaderRoundTrip` | crates/jadx-rs/src/zip.rs:491-543 | decoding a written dynamic header gives the tables of the declared codes, repetitions across the two lists included |
| `Streams.StreamRoundTrip` | crates/jadx-rs/src/zip.rs:471-555 | a list of fixed, dynamic and aligned stored blocks decodes to what it means, unless that is longer than the limit |
| `Streams.InflateInvertsDeflate` | crates/jadx-rs/src/zip.rs:432-556 | the same from the bytes, with the format's own constants: a source that encodes blocks is decoded to their meaning, or refused by the limit |
| `Rfc1951.LengthUnique` | crates/jadx-rs/src/zip.rs:435-441 | each length from 3 to 257 is written by exactly one length code and extra value, and 258 only as 284 with 31 or as 285 |
| `Rfc1951.DistanceUnique` | crates/jadx-rs/src/zip.rs:442-448 | each distance from 1 to 32768 is written by exactly one distance code and extra value, and no other distance by any |
| `FormatTables.LengthTable` | crates/jadx-rs/src/zip.rs:435-441 | bases and extra bits of the lengths follow the rule of section 3.2.5 of RFC 1951 |
| `FormatTables.DistanceTable` | crates/jadx-rs/src/zip.rs:442-448 | the same for the distances |
| `FormatTables.OrderTable` | crates/jadx-rs/src/zip.rs:498 | code lengths are sent from 8 outwards, after 16, 17, 18 and 0, as in section 3.2.7 of RFC 1951 |
| `FormatTables.FixedLitCodes` | crates/jadx-rs/src/zip.rs:449-469 | the lengths of the fixed code lead to the code words of section 3.2.6 of RFC 1951 |
| `FormatTables.FixedDistCodes` | crates/jadx-rs/src/zip.rs:470 | the fixed code of a distance symbol is its number in five bits |
| `FixedBlocks.ItemsWritten` | crates/jadx-rs/src/zip.rs:435-448 | every match of length 3 to 258 and distance 1 to 32768 has codes |
| `FixedBlocks.FixedBlockRoundTrip` | crates/jadx-rs/src/zip.rs:435-490 | any literals and matches, written bit by bit by those rules as one fixed block with any codes that stand for them, come back as their LZ77 expansion, or are refused by the limit |
| `DynamicBlocks.AnyCodesDeclared` | crates/jadx-rs/src/zip.rs:491-543 | any two codes within the format's sizes that satisfy the Kraft inequality have a valid header |
| `DynamicBlocks.DynamicBlockRoundTrip` | crates/jadx-rs/src/zip.rs:432-556 | any tokens, written in one dynamic block with any such codes and the format's own constants, are decoded to their expansion |
| `Refusals.TooFarRefused` | crates/jadx-rs/src/zip.rs:586-588 | a match that reaches back before the first byte, by however little, is refused |
| `Refusals.LengthSymbolRefused` | crates/jadx-rs/src/zip.rs:577-579 | a length symbol without a length is refused |
| `Refusals.FirstRepeatRefused` | crates/jadx-rs/src/zip.rs:504-539 | repeating a code length where there is none before is refused |
| `Refusals.LongRepeatRefused` | crates/jadx-rs/src/zip.rs:504-539 | repeating one past the last is refused |
| `Refusals.DistancesRefused` | crates/jadx-rs/src/zip.rs:495-497 | a header that declares 31 or 32 distance codes is refused |
| `Refusals.FieldsRefused` | crates/jadx-rs/src/zip.rs:482-484 | stored length fields that are not complements are refused |
| `Refusals.ReservedRefused` | crates/jadx-rs/src/zip.rs:544 | block type 3 is refused |
| `Streams.StoredIff` | crates/jadx-rs/src/zip.rs:475-487 | finding: a stored block is read as meant if and only if its header ends on a byte boundary |
| `Streams.StoredStreamFails` | crates/jadx-rs/src/zip.rs:471-487 | finding: a stream of one stored block, padded as the format demands, is never decoded to its data |
| `Bounds.ExpansionBound` | crates/jadx-rs/src/zip.rs:432-556 | on every input a successful result is at most 1032 times as long as the source, and within the limit |
| `Traversal.RpoFrom` | crates/jadx-rs/src/decompile/cfg.rs:120-144 | the loop over an explicit stack computes the order of `RpoTheorem` |
| `Traversal.BackEdges` | crates/jadx-rs/src/decompile/cfg.rs:158-190 | the three-colour loop, sorting and deduplication give each edge of the set of `BackEdgesTheorem` once, in order |
| `Traversal.RpoTheorem` | crates/jadx-rs/src/decompile/cfg.rs:120-144 | every reachable block is listed exactly once, the root first, every other one after a predecessor |
| `Traversal.BackEdgesTheorem` | crates/jadx-rs/src/decompile/cfg.rs:158-190 | the back edges are exactly the reachable edges that do not lead forward in reverse post order, and each closes a cycle |
| `Traversal.CycleHasBackEdge` | crates/jadx-rs/src/decompile/cfg.rs:156-190 | every cycle the entry reaches contains a back edge |
| `Loops.LoopBody` | crates/jadx-rs/src/decompile/cfg.rs:194-210 | the worklist finds exactly the header and the blocks with a path to the back edge that avoids it, sorted |
| `Loops.HeaderDominates` | crates/jadx-rs/src/decompile/cfg.rs:192-210 | if the header dominates the source of the back edge it dominates the whole loop |
| `Loops.IsReachable` | crates/jadx-rs/src/decompile/cfg.rs:244-265 | the search answers exactly whether there is a path, and no for blocks that do not exist |
| `EmissionOrder.MarkReachable` | crates/jadx-rs/src/decompile/cfg.rs:417-443 | exactly the blocks reachable from the entry or a handler are marked |
| `EmissionOrder.EmulationOrder` | crates/jadx-rs/src/decompile/emulate.rs:517-533 | the retained and extended order is the sequence of `EmissionTheorem` |
| `EmissionOrder.InitOrder` | crates/jadx-rs/src/decompile/structure.rs:138-153 | the structurer's differently written loop computes the very same sequence |
| `EmissionOrder.EmissionTheorem` | crates/jadx-rs/src/decompile/emulate.rs:517-533 | the order lists exactly the marked blocks, each once, each after a predecessor unless it is the entry or a handler |
| `Tails.TailIsNext` | crates/jadx-rs/src/decompile/cfg.rs:120-144 | in reverse post order a block is directly followed by its last successor if no other edge leads there |
| `Cfg.Leaders` | crates/jadx-rs/src/decompile/cfg.rs:279-305 | the leaders are, in order, offset 0, the targets, what follows a jump or an end, and the offsets of handlers and their ranges, inside the code |
| `Cfg.SplitBlocks` | crates/jadx-rs/src/decompile/cfg.rs:308-335 | each block holds the instructions between its leader and the next |
| `Cfg.Successors` | crates/jadx-rs/src/decompile/cfg.rs:340-388 | targets, then the fall-through edge, without repetition and without targets that are no leader; that these are the right edges is `EdgeIffStep` |
| `Cfg.Predecessors` | crates/jadx-rs/src/decompile/cfg.rs:391-400 | predecessors are the exact converse of successors |
| `Cfg.HandlerBlocks` | crates/jadx-rs/src/decompile/cfg.rs:403-415 | exactly the blocks a handler starts at |
| `Cfg.BuildCfg` | crates/jadx-rs/src/decompile/cfg.rs:269-460 | blocks, edges, handlers and reachability together are what the simulation theorems ask for |
| `CfgMeaning.BlocksPartition` | crates/jadx-rs/src/decompile/cfg.rs:307-335 | the blocks partition the bytes and the instructions, none of them empty |
| `CfgMeaning.FlowInside` | crates/jadx-rs/src/decompile/cfg.rs:277-335 | only the last instruction of a block jumps or ends the flow |
| `CfgMeaning.EdgeIffStep` | crates/jadx-rs/src/decompile/cfg.rs:337-388 | control passes from the end of a block exactly to the starts of its successors |
| `CfgMeaning.RunsArePaths` | crates/jadx-rs/src/decompile/cfg.rs:269-400 | the instruction runs of the code are exactly the paths of the graph |
| `Names.FirstFree` | crates/jadx-rs/src/decompile/emulate.rs:279-291 | the search for an unused number terminates and finds the first one |
| `Names.MakeNamesUnique` | crates/jadx-rs/src/decompile/emulate.rs:1018-1038 | afterwards no two variables share a name; one keeps its name, or the default for its slot number, unless an earlier one has it, and nothing else changes |
| `Names.DecimalInjective` | crates/jadx-rs/src/decompile/emulate.rs:1018-1038 | different numbers are written differently, which is why appending one frees a name |
| `Names.DecimalValue` | crates/jadx-rs/src/decompile/emulate.rs:1018-1038 | a number is written with the decimal digits that give it back |
| `Emulation.Operands.EmulateInsn` | crates/jadx-rs/src/decompile/emulate.rs:568-819 | for each instruction the new stack, the emitted statements, the branch condition or the underflow error, with both arms of `pop2` and `dup2` |
| `Widths.PairsIff` | crates/jadx-rs/src/decompile/emulate.rs:647-705 | finding: over ints `pop2` and `dup2` are emulated right if and only if the expression on top is not recorded as `long` |
| `Widths.NarrowBlock` | crates/jadx-rs/src/decompile/emulate.rs:568-819 | from ints, code that loads only variables recorded as `int` meets no wide expression and leaves none |
| `Examples.LongParameterMisread` | crates/jadx-rs/src/decompile/emulate.rs:647-659 | finding: a block of a method with a `long` parameter for which the machine returns 5 and the emitted statements 6 |
| `BlockMeaning.BlockMeans` | crates/jadx-rs/src/decompile/emulate.rs:568-819 | running the statements of a block and evaluating its leftover stack and condition gives the machine's variables, stack and decision, when no store is stale and no `pop2` or `dup2` meets a wide expression |
| `BlockMeaning.BlockThrows` | crates/jadx-rs/src/decompile/emulate.rs:568-819 | where no expression that may throw is dropped, an exception of the machine shows in the emitted block |
| `BlockMeaning.StaleStore` | crates/jadx-rs/src/decompile/emulate.rs:301-316 | finding: a store under a pending load is right if and only if it stores the old value |
| `Examples.ArgumentLost` | crates/jadx-rs/src/decompile/emulate.rs:301-316 | finding: a block that returns the argument in the machine and 5 as emitted |
| `BlockMeaning.ForgottenDivision` | crates/jadx-rs/src/decompile/emulate.rs:641-646 | finding: a popped division no longer throws, while the machine throws exactly for divisor 0 |
| `BlockMeaning.DroppedKeepsEffect` | crates/jadx-rs/src/decompile/emulate.rs:641-659 | dropping a value keeps the effect of evaluating it |
| `Examples.DivisionLost` | crates/jadx-rs/src/decompile/emulate.rs:641-646 | finding: a block that throws in the machine and returns as emitted |
| `MethodEmulation.DepthDecides` | crates/jadx-rs/src/decompile/emulate.rs:568-991 | where no `pop2` or `dup2` meets a wide expression, the emulation of a block fails exactly where the stack would underflow, and leaves the stack as deep as the verifier computes |
| `MethodEmulation.BlockInts` | crates/jadx-rs/src/decompile/emulate.rs:321-479 | if the method has no `pop2` and `dup2`, or loads only variables recorded as `int`, no block meets a wide expression there, whatever stack it is handed |
| `MethodEmulation.Emulator.NewTemp` | crates/jadx-rs/src/decompile/emulate.rs:279-298 | a temporary gets a fresh slot, is hoisted, and has the first free numbered name |
| `MethodEmulation.Emulator.EmulateBlock` | crates/jadx-rs/src/decompile/emulate.rs:366-433 | a block is emulated one instruction after the other from its entry stack; the meaning is `BlockMeans` |
| `MethodEmulation.Emulator.Spill` | crates/jadx-rs/src/decompile/emulate.rs:434-479 | each successor is handed the stack itself or has it assigned to temporaries, shared by every way in, and reports no mismatch when depths agree |
| `MethodEmulation.Emulator.Run` | crates/jadx-rs/src/decompile/emulate.rs:321-513 | for consistent stack depths, and variables recorded as `int` where it matters, there is no error, every reachable block is emulated from the stack its predecessors left, all names stay unique, and what is emitted declares and assigns as `RunDeclares` says |
| `Declarations.EmulateDeclares` | crates/jadx-rs/src/decompile/emulate.rs:301-316 | an instruction adds a definition only for a variable that is neither parameter nor hoisted, with its name and type, an assignment only to one that is, and never writes `this` |
| `Declarations.DefinesNoOther` | crates/jadx-rs/src/decompile/emulate.rs:301-316 | so no definition is a second declaration of a parameter or a hoisted variable |
| `MethodEmulation.RunDeclares` | crates/jadx-rs/src/decompile/emulate.rs:321-513 | the same of all statements of a method, the temporaries of its spills included |
| `RunMeaning.SpillsCopy` | crates/jadx-rs/src/decompile/emulate.rs:434-479 | when each spill assigns its values in turn and changes nothing the condition or a later edge reads, the sequential assignments act as one parallel copy |
| `RunMeaning.AssignsCopy` | crates/jadx-rs/src/decompile/emulate.rs:469-477 | values assigned in turn, a temporary kept in place included, all arrive, and what the assignments do not touch keeps its value |
| `RunMeaning.InTurnIff` | crates/jadx-rs/src/decompile/emulate.rs:469-477 | finding: for a stack of variables and constants that condition is necessary too: all values arrive for all variables if and only if they are assigned in turn |
| `RunMeaning.RunsAgree` | crates/jadx-rs/src/decompile/emulate.rs:321-513 | after any number of blocks the emitted code is where the machine is, with every variable and stack value right, or has returned the same value |
| `RunMeaning.CrashesAgree` | crates/jadx-rs/src/decompile/emulate.rs:321-513 | if nothing that may throw is dropped or left pending, it throws in the same block |
| `RunMeaning.SwapClobbers` | crates/jadx-rs/src/decompile/emulate.rs:434-479 | finding: a stack swapping the two temporaries of its join arrives right if and only if they are equal |
| `ExampleMethods.SwapLost` | crates/jadx-rs/src/decompile/emulate.rs:434-479 | finding: a three-block method that returns 1 while the emitted blocks return 2 |
| `Pipeline.FrontEnd` | crates/jadx-rs/src/decompile/mod.rs:256-265 | graph construction and emulation in sequence never fail on verified code with consistent depths and variables recorded as `int` where it matters, and yield the certificate the method theorems need |
| `Pipeline.BlocksAreSteps` | crates/jadx-rs/src/decompile/cfg.rs:269-400 | running block by block is running instruction by instruction, with values |
| `Pipeline.DecompiledReturns` | crates/jadx-rs/src/decompile/mod.rs:256-265 | the bytecode returns a value if and only if the emitted statements do |
| `Decode.DecodeCode` | crates/jadx-rs/src/java/insn.rs:811-978 | the cursor loop yields the instructions of `DecodedFills` and `DecodedAt`, or the error of the first that fails |
| `Decode.DecodedFills` | crates/jadx-rs/src/java/insn.rs:811-978 | decoded instructions cover the code without gap or overlap |
| `Decode.DecodedAt` | crates/jadx-rs/src/java/insn.rs:811-978 | each is the instruction that stands at its offset |
| `Decode.Assembled` | crates/jadx-rs/src/java/insn.rs:811-978 | assembling any encodable instructions, wide forms and absolute branch targets included, and decoding gives them back |
| `DecodedCode.DecodedContiguous` | crates/jadx-rs/src/java/insn.rs:811-978 | what was decoded is what the graph builder assumes: contiguous from 0 to the end |
| `DecodedCode.BytesVerified` | crates/jadx-rs/src/java/insn.rs:387-978 | bytes that decode to int instructions, `iconst_0` included, with targets inside and a final jump are code the pipeline theorems apply to |
| `DecodedCode.IconstIff` | crates/jadx-rs/src/java/insn.rs:849-857 | finding: of the seven int constants without operand only `iconst_0` gets its value |
| `Mnemonics.MnemonicRead` | crates/jadx-rs/src/java/insn.rs:387-978 | every int instruction, in each form section 6.5 of the Java Virtual Machine Specification gives it, for all operands in range and wherever it stands, is decoded as itself, with its length, its target and its flow |
| `Mnemonics.OnlyMnemonics` | crates/jadx-rs/src/java/insn.rs:387-978 | and only bytes in one of these forms are decoded as an int instruction, `wide` shorthands apart |
| `Mnemonics.WideIff` | crates/jadx-rs/src/java/insn.rs:818-838 | finding: behind `wide` exactly the instructions with a wide form are accepted, and the shorthands that have none |
| `Mnemonics.LengthsRead` | crates/jadx-rs/src/java/insn.rs:387-978 | every opcode takes the bytes the specification says, or is reported as truncated, illegal or a bad array type |
| `Mnemonics.OperandsRead` | crates/jadx-rs/src/java/insn.rs:811-978 | and has the operand those bytes stand for, of the kind the specification says |
| `Mnemonics.FlowsRead` | crates/jadx-rs/src/java/insn.rs:387-616 | exactly the branches, jumps and ends of the specification are treated as such |
| `LinearCode.EmitLinear` | crates/jadx-rs/src/decompile/structure.rs:231-325 | in linear mode the blocks are printed in order, each with its label, its statements and its exit |
| `LinearCode.LabelsUnique` | crates/jadx-rs/src/decompile/structure.rs:231-234 | every printed label occurs once |
| `LinearCode.PrintedLayout` | crates/jadx-rs/src/decompile/structure.rs:313-325 | every block stands at a known place, directly followed by the next |
| `LinearCode.PrintedReturns` | crates/jadx-rs/src/decompile/structure.rs:231-325 | the printed text returns a value if and only if the blocks do, when the edges not taken go to the block printed next |
| `LinearCode.FallsRight` | crates/jadx-rs/src/decompile/structure.rs:253-267 | finding: running on behind a two-way block reaches a block if and only if that block is printed next |
| `FallThrough.JoinComesLater` | crates/jadx-rs/src/decompile/structure.rs:253-267 | in an acyclic method a block that the true edge leads to stands at least two places later in the order |
| `FallThrough.JoinIsMissed` | crates/jadx-rs/src/decompile/structure.rs:253-267 | finding: so the false edge to such a block is never the one printed next |
| `FallThrough.FalseEdge` | crates/jadx-rs/src/decompile/structure.rs:253-267 | finding: when the condition is false the blocks go on at the second target, the text at what is printed next; the same if and only if these are one |
| `FallThrough.PrintedWrong` | crates/jadx-rs/src/decompile/structure.rs:253-267 | finding: three block results that return 0 as blocks and 1 as text |
| `ExampleMethods.FalseEdgeLost` | crates/jadx-rs/src/decompile/structure.rs:253-267 | finding: the same from the bytecode of the blocks: the method returns 0, its text returns 1 |
| `Decompiled.TextReturns` | crates/jadx-rs/src/decompile/structure.rs:231-325 | from bytecode to printed text with labels elided: both return exactly the same values, when every edge can be followed in the text |
| `Decompiled.GraphFollowable` | crates/jadx-rs/src/decompile/structure.rs:231-325 | every edge can be followed in the text if no other edge leads to the second target of a branch, a condition on the graph alone |
| `Decompiled.OptimisedReturns` | crates/jadx-rs/src/decompile/passes.rs:50-59 | from bytecode to the text stripped of a trailing `return`, folded and elided: it completes with exactly the values the bytecode returns |
| `Labels.DropDeadLabels` | crates/jadx-rs/src/decompile/passes.rs:209-223 | exactly the labels without a jump are removed, and counted |
| `Labels.DropFallthroughGotos` | crates/jadx-rs/src/decompile/passes.rs:225-243 | exactly the jumps to the next statement are removed, one look at each, and counted |
| `Labels.ElideDeadLabels` | crates/jadx-rs/src/decompile/passes.rs:173-186 | the pass is up to sixteen such rounds, and its two counts are the labels and the plain jumps missing from the result |
| `Labels.RemovalEquivalent` | crates/jadx-rs/src/decompile/passes.rs:209-243 | removing one dead label or one jump to the next statement keeps every result and every divergence |
| `Labels.ElideKeeps` | crates/jadx-rs/src/decompile/passes.rs:173-186 | the pass keeps how every run ends, keeps labels unique and leaves no jump without its label |
| `Labels.ElideFinishes` | crates/jadx-rs/src/decompile/passes.rs:173-186 | more rounds than there are plain jumps leave neither a dead label nor a jump to the next statement |
| `Labels.NestUnfinished` | crates/jadx-rs/src/decompile/passes.rs:173-186 | finding: for any number of rounds there is a program with as many jumps that is left unfinished |
| `Labels.SixteenRounds` | crates/jadx-rs/src/decompile/passes.rs:173-186 | finding: the sixteen rounds suffice for up to fifteen jumps and for no larger number in general |
| `Temps.TryInlineOnce` | crates/jadx-rs/src/decompile/passes.rs:130-168 | the first temporary that may be inlined is, and none is reported only if there is none |
| `Temps.InlinePreserves` | crates/jadx-rs/src/decompile/passes.rs:130-168 | one inlining keeps the returned value and every other variable, and exceptions when the value cannot throw |
| `Temps.InlineTemps` | crates/jadx-rs/src/decompile/passes.rs:112-128 | the repetition terminates, leaves nothing to inline, counts what it removed and keeps results and all variables but the removed ones |
| `Increments.FoldList` | crates/jadx-rs/src/decompile/passes.rs:82-91 | every foldable assignment is replaced in place, and the count is the number of places that differ |
| `Increments.FoldsEvery` | crates/jadx-rs/src/decompile/passes.rs:93-103 | every assignment to a variable of itself plus a constant is foldable |
| `Increments.FoldExact` | crates/jadx-rs/src/decompile/passes.rs:93-103 | finding: the increment does what the assignment did if and only if the constant fits an `int` |
| `Increments.FoldKeeps` | crates/jadx-rs/src/decompile/passes.rs:82-103 | with such constants the pass changes no outcome |
| `Completion.StripTrailingReturn` | crates/jadx-rs/src/decompile/passes.rs:62-73 | the last statement that is no decoration is removed if it is a `return` without value |
| `Completion.StripCompletes` | crates/jadx-rs/src/decompile/passes.rs:62-73 | a program without it completes as before, running off its end counted as returning nothing |
| `Completion.FoldRuns` | crates/jadx-rs/src/decompile/passes.rs:76-103 | with jumps and labels, too, folding increments keeps every result and every divergence |
| `Completion.PassesComplete` | crates/jadx-rs/src/decompile/passes.rs:50-59 | stripping, folding and eliding in a row keep how a program completes |
| `Printer.PrintParse` | crates/jadx-rs/src/decompile/writer.rs:745-936 | the printed expression, read with the precedence and associativity of chapter 15 of the Java Language Specification, is the tree that was printed |
| `Printer.Unambiguous` | crates/jadx-rs/src/decompile/writer.rs:745-936 | expressions printed alike have the same tree |
| `PrintedMeaning.PrintedMeans` | crates/jadx-rs/src/decompile/writer.rs:745-936 | whatever is read from the printed tokens has, with the operators and promotions of chapter 15, the type of the expression and in every environment its value, and throws where it does |
| `Parentheses.NoneShorter` | crates/jadx-rs/src/decompile/writer.rs:745-752 | no token list that is read as the tree is shorter than the printed one, so no parentheses can be left out |
| `Parentheses.OnlyOne` | crates/jadx-rs/src/decompile/writer.rs:745-752 | the printed list is the only one of its length |
| `ModifiedUtf8.DecodeModifiedUtf8` | crates/jadx-rs/src/java/const_pool.rs:342-408 | any bytes decode, to at most one character for each byte |
| `ModifiedUtf8.UnitsBack` | crates/jadx-rs/src/java/const_pool.rs:346-388 | every sequence of UTF-16 code units is read back from its encoding |
| `ModifiedUtf8.SpelledIsRead` | crates/jadx-rs/src/java/const_pool.rs:346-388 | a code unit is read in any of the three forms it has, the shortest or not |
| `ModifiedUtf8.MalformedByte` | crates/jadx-rs/src/java/const_pool.rs:342-388 | what spells no code unit, in the shortest form or not, is read as a question mark, a byte at a time |
| `ModifiedUtf8.LoneSurrogate` | crates/jadx-rs/src/java/const_pool.rs:389-408 | a surrogate that is not half of a pair becomes U+FFFD |
| `ModifiedUtf8.RoundTrip` | crates/jadx-rs/src/java/const_pool.rs:342-408 | every string of Unicode scalar values is read back, NUL and supplementary characters included |
| `ModifiedUtf8.NoZeroByte` | crates/jadx-rs/src/java/const_pool.rs:339-388 | no encoded string contains a zero byte |
| `ModifiedUtf8.ReencodeIff` | crates/jadx-rs/src/java/const_pool.rs:389-408 | finding: a Java string survives decoding if and only if each surrogate is half of a pair |
| `Descriptors.Cursor.FromDescriptorAt` | crates/jadx-rs/src/types.rs:219-279 | a type found moves the cursor right behind it; a failure after `[` leaves it behind the bracket |
| `Descriptors.Cursor.ParseMethod` | crates/jadx-rs/src/types.rs:283-304 | on any text the parser terminates with the prototype of `MethodBack` |
| `Descriptors.MethodDescriptor` | crates/jadx-rs/src/types.rs:341-349 | the loop writes the arguments in parentheses and the result behind |
| `Descriptors.TypeBack` | crates/jadx-rs/src/types.rs:219-338 | the descriptor of a type, wherever it stands in a text, is read as that type and no further |
| `Descriptors.TypeIsWritten` | crates/jadx-rs/src/types.rs:219-338 | conversely, the text of any type that is found is the descriptor of that type |
| `Descriptors.MethodBack` | crates/jadx-rs/src/types.rs:283-349 | a written method descriptor is read back to its arguments and result |
| `Descriptors.MethodTextInjective` | crates/jadx-rs/src/types.rs:341-349 | different methods have different descriptors |
| `Descriptors.TypeBackIff` | crates/jadx-rs/src/types.rs:219-338 | finding: a type is read back if and only if it has no type variable and no semicolon in a class name |

## Left out

Weaker than the code's own domain:

- Cfg.BuildCfg: line numbers, block kinds, catch types and try regions are not part of the graph.
- BlockMeaning.BlockMeans: only ints on the stack, and only blocks in which no store changes a variable that a pending expression reads and no `pop2` or `dup2` meets an expression recorded as `long`; `BlockMeaning.StaleStore` and `Widths.PairsIff` show why.
- BlockMeaning.BlockThrows: additionally asks that no expression that may throw is dropped; `BlockMeaning.ForgottenDivision` shows why.
- MethodEmulation.DepthDecides: asks that no `pop2` or `dup2` meets a wide expression, where the depths differ.
- MethodEmulation.Emulator.Run: bodies without exception handlers, so the exception object a handler block starts with does not occur.
- MethodEmulation.RunDeclares: which variables are hoisted is given with the table of variables, and the list of declarations at the head of the method is not computed.
- MethodEmulation.Emulator.EmulateBlock: a block that fails is only reported as failed; the code also keeps its partial statements before it stops.
- RunMeaning.SpillsCopy: its demand on conditions and later edges is sufficient; for the values of one spill `RunMeaning.InTurnIff` shows the demand to be necessary.
- RunMeaning.SwapClobbers: the two-element case value by value; the general condition is `RunMeaning.InTurnIff`.
- RunMeaning.RunsAgree: asks that no store is stale and that the spills of a block change nothing still to be read.
- RunMeaning.CrashesAgree: additionally asks that nothing that may throw is dropped or left pending.
- Pipeline.FrontEnd: int instructions and no handlers.
- Pipeline.DecompiledReturns: on the conditions of `RunMeaning.RunsAgree`.
- LinearCode.EmitLinear: the linear mode for a whole method; loops, switches and regions give other contexts to the same function.
- LinearCode.PrintedReturns: asks that each two-way block is printed right before its second target; `FallThrough.JoinIsMissed` shows which methods this excludes and `Decompiled.GraphFollowable` which it does not.
- Decompiled.TextReturns: on the conditions of `LinearCode.PrintedReturns` and `RunMeaning.RunsAgree`.
- Decompiled.OptimisedReturns: without the inlining of temporaries, which `Temps.InlineTemps` covers on lists without jumps, and only where the increments folded are well typed and their constants are ints.
- Labels.DropDeadLabels: flat lists; compound statements and the lists inside them are not modelled.
- Labels.DropFallthroughGotos: flat lists, for the same reason.
- Labels.ElideDeadLabels: flat lists, so `break` and `continue` with labels do not occur.
- Labels.ElideFinishes: the number of plain jumps is a sufficient bound, and a tight one, but some programs with more jumps are finished too.
- Temps.TryInlineOnce: flat lists.
- Temps.InlinePreserves: flat lists without labels and jumps.
- Temps.InlineTemps: flat lists, and its meaning on those without labels and jumps.
- Increments.FoldList: flat lists.
- Increments.FoldKeeps: lists without jumps; `Completion.FoldRuns` has the jumps.
- Completion.StripTrailingReturn: flat lists; in nested ones the code also removes returns that are not in tail position.
- Decode.DecodeCode: both switch instructions are reported as an error instead of being decoded, and operands that point into the constant pool stay indices.
- Mnemonics.OnlyMnemonics: `wide` shorthands are excluded; `Mnemonics.WideIff` shows that they are read.
- DecodedCode.BytesVerified: only instructions on ints; loads of constants from the pool are not among them.
- Printer.PrintParse: works on tokens of locals, constants, operators, negations and conditional expressions; text-level effects such as two minus signs in a row are not modelled.
- Printer.Unambiguous: the same expressions.
- PrintedMeaning.PrintedMeans: the same expressions, typed `int` or `long`; truth values are 0 and 1.
- ModifiedUtf8.DecodeModifiedUtf8: mask tests and shifts are written as ranges, remainders and products.

Not modelled at all:

- The zip directory, entry headers, encryption and ratio checks, and the capacity hint `inflate_raw` is given.
- The class-file parser around the code array, attributes, annotations, signatures, `StackMapTable`.
- `tableswitch` and `lookupswitch`, `ldc`, `iinc`, `jsr` and `ret` beyond their decoded length and operands.
- Instructions on longs, floats and references: arrays, fields, calls, `new` folding, casts and comparisons of longs in the emulator.
- Types other than `int` and `long` as recorded types: whatever is not wide counts as `int`. Refining an unknown type by the first store or a stack map, and padding the table of locals, are not modelled.
- The region recognisers of the structurer (`if`, `while`, `switch`, `try`): a folded header does not print its own statements again, so their meaning is not preserved in general.
- The Java writer beyond expressions, the DEX reader, the command line, file access, JSON and the foreign function interface.
