# A verified model of the Arabic operating system's core

The repository holds an operating system and the compiler of its Arabic programming language (ARP).
This project models the three parts of it that are hardest to get right, and proves what they are for:

- **The language.** Expressions and statements have a direct meaning (the interpreter) and a compiled
  one. `Values`, `Language` give the first, `Processor` what an IEEE 754 processor adds to it; `MachineCode` and
  `Machine` are an x86-64 machine that fetches and decodes bytes; `CodeGen` defines the code of a program in one piece; `ExprCorrect` and `StmtCorrect`
  prove that the bytes do what the program means, and `Agreement` compares that with the interpreter;
  `Arithmetic` says what the operations themselves compute, and `Limits` what the compiler accepts.
  `JitBuffers`, `Backpatch`, `Finishing` and `JitCompiler`
  are the compiler as it really works, one pass over a growing buffer with holes that are written later,
  and prove that the same bytes come out. `Blocks` reads the block structure from lines. `Relocation`,
  `ExecFile` and `ExecLoader` are the relocatable form, the executable file and its loader. `MathSyntax`,
  `MathRoundTrip`, `MathTrees` and `MathParser` are the expression parser and its printer, `MathSpelling` reads
  numbers, operators and marks from their bytes, and `SourceText`
  joins them to the compiler; `Comments` and `CommentPieces` are the comment
  remover; `Arrays` is row-major indexing.
- **Memory.** `FrameAllocator` is the bitmap; `PageTables`, `MapPage`, `IdentityMap`, `AddressSpace` and
  `MemoryRuns` are the four-level tables of every address space together (Intel SDM Volume 3A, section 4.5),
  `PageManager` the code that changes them in place; `Heap` is the kernel heap as a list of blocks,
  `HeapServing` how much of it a request gets, and `KernelHeap` the same heap as linked headers in memory.
- **The scheduler.** `Scheduler` is a state machine over create, start, timer, sleep, wait, wake and exit;
  `CallEffects` is what each call does, and `KernelScheduler` the code on its arrays.

Throughout, code that changes state is a class whose methods are proved equal to a function on values, and
the properties are lemmas about those functions, about whole runs, or about their composition.

The processor's floating-point and conversion operations are parameters (`Values.Cpu`); `Processor.Ieee` lists
what is asked of them, and a sample shows it can be met; `Samples` gives a processor, addresses and programs that
meet the conditions of the agreement theorems together. A value travels through compiled code as a double with
a type tag. `Carried` says which values survive that: integers and pointers of at most 53 significant bits, so
all up to 2^53, floats that are no signalling NaN, and all doubles, characters and truth values. Compiled code
is first proved against its own reading of a program, with the branches its tests take (`StmtCorrect`), with no
condition on those tests; `Agreement` then gives the condition under which that is the interpreter's run: the
values met can be carried, and the conditions met are numbers.

Where the code does not do what one would expect, the exact condition is proved, with an input that shows it:

- a condition that is not a number counts as true for the interpreter and as false in compiled code
  (`TestAgrees`, `NanTakesOtherBranch`);
- an integer of more than 53 significant bits does not survive compiled code, nor the parser's literals
  (`VariableReadExact`, `BigIntegerMisread`, `WholeLiteral`);
- a frame the bitmap hands out may lie beyond RAM (`FrameInsideRam`, `FrameBeyondRamExists`);
- two families of heap requests get memory they must not have: a size above 2^64 - 48 gets a block that is too
  small (`NeededCovers`, `HugeRequestGetsNothing`), and a size no free block fits for which `heap_current + bytes`
  reaches 2^64, such as 2^64 - 64 right after start-up, gets a block beyond the mapped range (`MallocExact`,
  `WrappedGrant`); on every other request, and so on every run without those, the heap is right (`RunExact`), and
  requests that fit below 2^64 together with all the memory there is are among them (`BoundedSafe`);
- an array's element count and positions wrap at 32 bits (`TotalIsProduct`, `PositionExact`, `OverflowAccepted`);
- a second comment removal changes a text exactly when cleaning brings the halves of a mark together, which
  well-formed UTF-8 rules out (`TwiceExact`, `CleanTwice`, `NotOnAllBytes`);
- a comment in الشروط.c:118-128 says that a condition like `a > 0 && b < 10` is supported; the parser refuses
  it, and the model follows the parser (`ComparisonsDoNotChain`).

## Model

| member | source | states |
|---|---|---|
| `Language.StrictIsEval` | القلب/الوحدات/اللغة/مفاهيم_اللغة/رياضيات.c:684-940 | where strict evaluation succeeds, both operands of the logical operators included, the interpreter gives that same value |
| `Processor.FitsExact` | القلب/الوحدات/اللغة/طبقة_الترجمة/مترجم_اللغة.c:564-589 | on an IEEE 754 processor a value survives being carried in a double if and only if it is an integer or pointer of its type with at most 53 significant bits, a float that is no signalling NaN, or any double, character or truth value |
| `Processor.SmallCarried` | القلب/الوحدات/اللغة/طبقة_الترجمة/مترجم_اللغة.c:564-589 | every integer and pointer up to 2^53 is among them |
| `Processor.CarriedLimits` | القلب/الوحدات/اللغة/طبقة_الترجمة/مترجم_اللغة.c:564-589 | 2^53 is carried, 2^53 + 1 is not and 2^53 + 2 is; of the float patterns 7F800000, 7F800001, 7FBFFFFF and 7FC00000 the first and the last are |
| `Processor.SampleIsIeee` | القلب/الوحدات/اللغة/طبقة_الترجمة/مترجم_اللغة.c:407-417 | the guarantees asked of the processor can be met together |
| `Processor.StrictExact` | القلب/الوحدات/اللغة/طبقة_الترجمة/مترجم_اللغة.c:1903-2085 | for every tree: strict evaluation succeeds if and only if every subtree evaluates, by the interpreter, to a value a double can carry, and then it is the interpreter's value |
| `Processor.BoxTestAgrees` | القلب/الوحدات/اللغة/طبقة_الترجمة/مترجم_اللغة.c:2656-2664 | for a carried value of any type, integer, float, double, character, truth value or pointer, the compiled test agrees with the interpreter's truth if and only if the value is a number |
| `Processor.LiteralTestAgrees` | القلب/الوحدات/اللغة/طبقة_الترجمة/مترجم_اللغة.c:1969-1980 | the same for a literal, kept in the register as written |
| `Processor.TestAgrees` | القلب/الوحدات/اللغة/طبقة_الترجمة/مترجم_اللغة.c:2656-2664 | for whatever compiled code leaves for any tree, the test agrees with the interpreter's truth of it if and only if it is a number |
| `Processor.CheckedExact` | القلب/الوحدات/اللغة/مفاهيم_اللغة/رياضيات.c:684-940 | a run along which every value met can be carried and every condition met is a number is the same run for the interpreter, for checked evaluation and for compiled code; and a run passes all checks only then |
| `Language.CheckedIsDirect` | القلب/الوحدات/اللغة/مفاهيم_اللغة/رياضيات.c:684-940 | a checked run of a block that does not fail is the interpreter's run: same outcome, store, returned value and use of fuel |
| `Arithmetic.Sums` | القلب/الوحدات/اللغة/طبقة_الترجمة/شجرة.c:416-564 | sum, difference and product of two 64-bit integers are x + y, x - y and x times y whenever that is a 64-bit integer, and otherwise the double operation on their doubles |
| `Arithmetic.Quotients` | القلب/الوحدات/اللغة/طبقة_الترجمة/شجرة.c:566-649 | division and remainder: refused for zero, and the quotient of -2^63 by -1 too; otherwise q and r with x = q y + r, r nearer zero than y and of the sign of x |
| `Arithmetic.OneQuotient` | القلب/الوحدات/اللغة/طبقة_الترجمة/شجرة.c:566-649 | there is only one such pair |
| `Arithmetic.Comparisons64` | القلب/الوحدات/اللغة/طبقة_الترجمة/شجرة.c:734-797 | each of the six comparisons of integers is the relation it names |
| `Arithmetic.Negations` | القلب/الوحدات/اللغة/طبقة_الترجمة/شجرة.c:704-716 | the negative of an integer, which leaves -2^63 as it is, of a truth value and of a character; none of an address |
| `Arithmetic.Masks` | القلب/الوحدات/اللغة/طبقة_الترجمة/شجرة.c:673-701 | and, or and exclusive or give the 64-bit integer each of whose bits, the sign too, is the two operands' bits combined |
| `Arithmetic.SameBits` | القلب/الوحدات/اللغة/طبقة_الترجمة/شجرة.c:673-701 | bits and sign determine a number |
| `Arithmetic.Shifts` | القلب/الوحدات/اللغة/طبقة_الترجمة/شجرة.c:651-671 | shifts by 0 to 63 places and no other: doubled or halved that often, modulo 2^64 and rounding down |
| `Arithmetic.ActAsIntegers` | القلب/الوحدات/اللغة/طبقة_الترجمة/شجرة.c:295-309 | next to an integer, characters and truth values act as the integers they stand for, in every operation |
| `Arithmetic.NoIntegerAmong` | القلب/الوحدات/اللغة/طبقة_الترجمة/شجرة.c:295-309 | among themselves they have no arithmetic and no comparison; bits, shifts and logic take them as integers |
| `Arithmetic.Addresses64` | القلب/الوحدات/اللغة/طبقة_الترجمة/شجرة.c:416-526 | addresses and integers add and subtract modulo 2^64, are not multiplied or divided, and compare as signed integers |
| `Arithmetic.Doubles` | القلب/الوحدات/اللغة/طبقة_الترجمة/شجرة.c:416-602 | with a double on either side both become doubles and the processor's operation of that name is applied, left operand first |
| `Arithmetic.Logic` | القلب/الوحدات/اللغة/مفاهيم_اللغة/رياضيات.c:586-631 | conjunction and disjunction are those of not being zero; the right operand is not evaluated when the left decides |
| `Arithmetic.AssignableTypes` | القلب/الوحدات/اللغة/طبقة_الترجمة/شجرة.c:385-410 | the pairs of types a declared variable takes |
| `Arithmetic.Conversions` | القلب/الوحدات/اللغة/طبقة_الترجمة/شجرة.c:311-383 | conversions between whole types: the same number, its low 32 bits, whether it is not zero, its low 64 bits |
| `Arithmetic.Assignments` | القلب/الوحدات/اللغة/مفاهيم_اللغة/المتغيرات.c:125-243 | reading finds the local before the context's variable; an assignment writes the context's variable, converted to a declared type that takes it, and nothing else |
| `Arithmetic.Declarations` | القلب/الوحدات/اللغة/مفاهيم_اللغة/المتغيرات.c:81-112 | a declaration converts to its type, remembers it, and changes no other variable |
| `Arithmetic.CompiledOperation` | القلب/الوحدات/اللغة/طبقة_الترجمة/مترجم_اللغة.c:1969-2085 | the code of any operation on two integer variables leaves what the operation gives on their values, if those and the result can be carried |
| `Arithmetic.CompiledProduct` | القلب/الوحدات/اللغة/طبقة_الترجمة/مترجم_اللغة.c:2047-2085 | compiled sum, difference and product of two variables are x + y, x - y and x times y up to 2^53 |
| `Arithmetic.CompiledQuotient` | القلب/الوحدات/اللغة/طبقة_الترجمة/مترجم_اللغة.c:2047-2085 | compiled quotient and remainder of two variables divide |
| `Arithmetic.Constants` | القلب/الوحدات/اللغة/مفاهيم_اللغة/رياضيات.c:95-121 | the model's constants for ten, both ends of the 64-bit integers and one half have the bits IEEE 754 gives those numbers |
| `Arithmetic.TwoPlaces` | القلب/الوحدات/اللغة/مفاهيم_اللغة/رياضيات.c:95-121 | a literal with two digits behind the point is its whole part plus the first over ten plus the second over ten times ten |
| `Arithmetic.Literals` | القلب/الوحدات/اللغة/مفاهيم_اللغة/رياضيات.c:692-702 | a literal is an integer when it lies from -2^63 to below 2^63 and converting it there and back leaves it |
| `Arithmetic.TypeNumbers` | القلب/الوحدات/اللغة/طبقة_الترجمة/شجرة.h:42-50 | the numbers of the types carried in the type register |
| `MachineCode.DecodeEnc` | القلب/الوحدات/اللغة/طبقة_الترجمة/مترجم_اللغة.c:296-516 | the bytes the emitters write for an instruction decode to that instruction, operands and displacement included, wherever they lie |
| `MachineCode.ReadS32` | القلب/الوحدات/اللغة/طبقة_الترجمة/مترجم_اللغة.c:2644-2654 | every 32-bit displacement written as little-endian bytes reads back as the same signed number |
| `MachineCode.CStrRead` | القلب/الوحدات/اللغة/طبقة_الترجمة/مترجم_اللغة.c:2531-2539 | a name stored with its terminating NUL is read back whole by the helper that gets its address |
| `MachineCode.SymbolFound` | القلب/الوحدات/اللغة/طبقة_الترجمة/مترجم_اللغة.c:1806-1817 | for every helper the compiler uses, looking its address up in the symbol table succeeds, and resolving the number found leads back to that helper |
| `MachineCode.SameSymbolId` | القلب/الوحدات/اللغة/طبقة_الترجمة/مترجم_اللغة.c:1806-1817 | the number found does not depend on where the helpers live |
| `MachineCode.SymbolNumbers` | القلب/الوحدات/اللغة/طبقة_الترجمة/مترجم_اللغة.c:1718-1800 | the numbers by which a file names the helpers |
| `MachineCode.SampleAddrOk` | القلب/الوحدات/اللغة/طبقة_الترجمة/مترجم_اللغة.c:1740-1804 | there are addresses for the table as the theorems ask: nonzero, below 2^64, none shared with a helper |
| `ExprCorrect.ExprStraight` | القلب/الوحدات/اللغة/طبقة_الترجمة/مترجم_اللغة.c:1969-2085 | for every call-free numeric tree accepted at depth d that evaluates strictly: its code leaves in the registers exactly that value and type, and leaves the variable store and every slot below d as they were |
| `ExprCorrect.OperandsRun` | القلب/الوحدات/اللغة/طبقة_الترجمة/مترجم_اللغة.c:2021-2045 | after both operands are computed, the fetch sequence brings the left one, saved in its slot, to the left cell and the right one to the trace cell, leaving slots below d alone |
| `ExprCorrect.HelperCombines` | القلب/الوحدات/اللغة/طبقة_الترجمة/مترجم_اللغة.c:770-1095 | every arithmetic, comparison, logical and bit helper, given two cells that hold values on which the operation succeeds, leaves the boxed result of the same operation the interpreter applies, and empties the left cell |
| `ExprCorrect.CellUnboxes` | القلب/الوحدات/اللغة/طبقة_الترجمة/مترجم_اللغة.c:173-183 | the cell the code leaves for a tree that evaluates strictly reads back as the tree's value, with its type |
| `ExprCorrect.StraightRuns` | القلب/الوحدات/اللغة/طبقة_الترجمة/مترجم_اللغة.c:246-256 | executing the final bytes one decoded instruction at a time gives the same state as executing the instruction list they stand for, and ends just behind them |
| `Agreement.ExprAgrees` | القلب/الوحدات/اللغة/طبقة_الترجمة/مترجم_اللغة.c:1969-2085 | for every call-free numeric tree accepted at depth d whose subtrees the interpreter evaluates to values a double can carry, whole numbers up to 2^53 among them: the code leaves the interpreter's value and type in the registers, and the store and lower slots as they were |
| `Agreement.VariableReadExact` | القلب/الوحدات/اللغة/طبقة_الترجمة/مترجم_اللغة.c:564-589 | reading a variable through compiled code gives what the interpreter gives if and only if a double can carry its value |
| `Agreement.BigIntegerMisread` | القلب/الوحدات/اللغة/طبقة_الترجمة/مترجم_اللغة.c:564-589 | a variable holding 2^53 + 1 is read wrongly by compiled code on every such processor |
| `StmtCorrect.StmtRuns` | القلب/الوحدات/اللغة/طبقة_الترجمة/مترجم_اللغة.c:2791-3067 | the code of any accepted statement, laid anywhere in a function, reaches its own end, the innermost loop's end or start, or the epilogue, as its run with the compiled tests says, with the same store and returned value, whatever those tests yield; while that run is still turning loops, so is the machine |
| `StmtCorrect.BlockRuns` | القلب/الوحدات/اللغة/طبقة_الترجمة/مترجم_اللغة.c:3157-3251 | the same for every block: break and continue leave the rest of the block and affect the innermost loop only, return leaves everything |
| `StmtCorrect.LoopRuns` | القلب/الوحدات/اللغة/طبقة_الترجمة/مترجم_اللغة.c:2838-2866 | the same for an endless loop, with breaks and continues of nested loops already settled inside |
| `StmtCorrect.CondRuns` | القلب/الوحدات/اللغة/طبقة_الترجمة/مترجم_اللغة.c:2656-2664 | a condition's code and test go on to the next instruction or to the jump's target exactly as the comparison with zero of what the code left says, store unchanged; `Processor.TestAgrees` says when that is the interpreter's truth |
| `StmtCorrect.NoEscape` | القلب/الوحدات/اللغة/طبقة_الترجمة/مترجم_اللغة.c:2868-2885 | a function body the compiler accepts never breaks or continues outside a loop |
| `StmtCorrect.FunctionRuns` | القلب/الوحدات/اللغة/طبقة_الترجمة/مترجم_اللغة.c:3257-3378 | a compiled function entered with any registers and frame contents halts with the store and result of the run of its body with the compiled tests, for every body accepted whose run does not fail, and keeps running as long as that keeps turning loops |
| `StmtCorrect.DivergenceKept` | القلب/الوحدات/اللغة/طبقة_الترجمة/مترجم_اللغة.c:2838-2866 | a program whose run with the compiled tests never ends has code that never halts and never gets stuck |
| `Agreement.FunctionAgrees` | القلب/الوحدات/اللغة/طبقة_الترجمة/مترجم_اللغة.c:3257-3378 | a compiled function ends as the interpreter's run of its body ends, store and result, if that run does not fail, the values it meets can be carried and the conditions it meets are numbers |
| `Agreement.DivergenceAgrees` | القلب/الوحدات/اللغة/طبقة_الترجمة/مترجم_اللغة.c:2838-2866 | under the same conditions a program the interpreter would run for ever has code that never halts and never gets stuck |
| `Agreement.NanTakesOtherBranch` | القلب/الوحدات/اللغة/طبقة_الترجمة/شجرة.c:592-598 | the program that tests (0.5 - 0.5) / (0.5 - 0.5) and returns 0.5 or zero returns 0.5 interpreted and zero compiled |
| `Agreement.ShortFunction` | القلب/الوحدات/اللغة/طبقة_الترجمة/مترجم_اللغة.c:3257-3378 | any accepted body of up to a hundred items with names shorter than 100 bytes stays far below the 2 GB limit |
| `Blocks.FindBlockEnd` | القلب/الوحدات/اللغة/طبقة_الترجمة/مترجم_اللغة.c:2580-2601 | the search from an opening line returns the end at depth one and the first else at depth one, or nothing |
| `Blocks.FindsOwnEnd` | القلب/الوحدات/اللغة/طبقة_الترجمة/مترجم_اللغة.c:2580-2601 | for any well-nested blocks, whatever is nested inside and whatever follows, the search finds the opening line's own end and its own else |
| `Blocks.ParseRender` | القلب/الوحدات/اللغة/طبقة_الترجمة/مترجم_اللغة.c:2791-2866 | the block structure read from the lines of any block is that block |
| `Blocks.RenderParse` | القلب/الوحدات/اللغة/طبقة_الترجمة/مترجم_اللغة.c:3157-3251 | lines accepted as a block are exactly the lines of the block read from them: no stray or missing else, end of condition or end of loop is accepted |
| `Blocks.SplitAt` | القلب/الوحدات/اللغة/طبقة_الترجمة/مترجم_اللغة.c:2791-2836 | cutting a statement off the front of the lines agrees with the positions the search finds in the whole list |
| `Backpatch.FieldsApart` | القلب/الوحدات/اللغة/طبقة_الترجمة/مترجم_اللغة.c:472-554 | all fields of a piece of code, whether address, jump or name, lie inside it and no two share a byte |
| `Backpatch.RoundFills` | القلب/الوحدات/اللغة/طبقة_الترجمة/مترجم_اللغة.c:2524-2556 | writing one kind of field into emitted code, wherever the code lies, turns exactly those holes into the final values and disturbs no other byte |
| `Backpatch.SettleHoles` | القلب/الوحدات/اللغة/طبقة_الترجمة/مترجم_اللغة.c:2859-2863 | directing a loop's waiting jumps by patches gives the same bytes as having emitted them with their targets known |
| `Backpatch.NoHoles` | القلب/الوحدات/اللغة/طبقة_الترجمة/مترجم_اللغة.c:3290-3300 | once jumps, names and addresses are all written, the patched bytes are the code emitted in one piece; nothing is left as a hole |
| `CodeGen.SettleEmit` | القلب/الوحدات/اللغة/طبقة_الترجمة/مترجم_اللغة.c:2838-2866 | settling a loop's own breaks and continues and then emitting it inside its surroundings is emitting it with its own ends |
| `JitBuffers.JumpDirected` | القلب/الوحدات/اللغة/طبقة_الترجمة/مترجم_اللغة.c:2629-2654 | patching the hole of a jump emitted earlier, with any code before and after it, gives the buffer in which the jump was emitted with its target |
| `JitBuffers.LoopClosed` | القلب/الوحدات/اللغة/طبقة_الترجمة/مترجم_اللغة.c:2859-2863 | patching all breaks and continues of a loop body gives the buffer of the settled loop, in both emission modes, bookkeeping included |
| `JitBuffers.GrownApp` | القلب/الوحدات/اللغة/طبقة_الترجمة/مترجم_اللغة.c:216-256 | emitting two pieces of code one after the other records the same bytes, references, relocations and waiting jumps as emitting them as one |
| `Finishing.JumpsCounted` | القلب/الوحدات/اللغة/طبقة_الترجمة/مترجم_اللغة.c:2868-2885 | the code of a statement leaves as many jumps waiting for the enclosing loop's end and start as it has breaks and continues of that loop, so the limit of 32 each is a limit on the source |
| `Finishing.FinishExact` | القلب/الوحدات/اللغة/طبقة_الترجمة/مترجم_اللغة.c:3283-3300 | emitted code with its returns directed to the epilogue, its names appended and its name references written is, byte for byte, the finished function |
| `Finishing.DisplacementsExact` | القلب/الوحدات/اللغة/طبقة_الترجمة/مترجم_اللغة.c:2524-2654 | in a finished function every jump displacement, read as signed little-endian and added to the address behind it, is the intended target inside the function, and every name reference points at a NUL-terminated copy of its name |
| `Finishing.RelocatedIsDirect` | القلب/الوحدات/اللغة/طبقة_الترجمة/مترجم_اللغة.c:350-516 | for any body, writing the recorded relocations into relocatable code gives byte for byte the code direct emission gives, and every relocation names a known symbol |
| `Finishing.RelocsPortable` | القلب/الوحدات/اللغة/طبقة_الترجمة/مترجم_اللغة.c:472-516 | the relocations recorded do not depend on where the helpers live while compiling, so code compiled in one place can be loaded in another |
| `Relocation.HolesApart` | القلب/الوحدات/اللغة/طبقة_الترجمة/مترجم_اللغة.c:472-516 | relocation holes are pairwise disjoint, lie inside the body and share no byte with a jump or name displacement |
| `Relocation.OwnRelocsAccepted` | القلب/الوحدات/اللغة/طبقة_الترجمة/مجمع_الترجمة.c:559-599 | every relocation the compiler records passes the loader's range and symbol checks |
| `Relocation.Write64` | القلب/الوحدات/اللغة/طبقة_الترجمة/مجمع_الترجمة.c:595-596 | eight little-endian bytes written in place at the offset, every other byte kept |
| `Relocation.ApplyRelocs` | القلب/الوحدات/اللغة/طبقة_الترجمة/مجمع_الترجمة.c:559-599 | relocations applied in place: succeeds exactly when all are in range and name symbols, and then the code is the old code with those addresses written |
| `Relocation.LinesRun` | القلب/الوحدات/اللغة/طبقة_الترجمة/مترجم_اللغة.c:3157-3378 | from source lines to a run: compiled in either mode, relocations applied where recorded, the code halts with the store and value of the interpreter's run of the block, or runs on as long as that does, if that run does not fail, its values can be carried in a double and its conditions are numbers |
| `SourceText.WriteRead` | القلب/الوحدات/اللغة/مفاهيم_اللغة/رياضيات.c:166-679 | the text of a call-free numeric expression is parsed back to exactly that expression |
| `SourceText.LinesBack` | القلب/الوحدات/اللغة/طبقة_الترجمة/مترجم_اللغة.c:3157-3251 | so are the expressions in all lines of a program |
| `SourceText.SourceRuns` | القلب/الوحدات/اللغة/طبقة_الترجمة/مترجم_اللغة.c:3157-3378 | a whole program through its text: written as lines, parsed, compiled in either mode, loaded and run, it ends as the interpreter's run of it, under the conditions of `Relocation.LinesRun` |
| `Samples.CountDownRuns` | القلب/الوحدات/اللغة/طبقة_الترجمة/مترجم_اللغة.c:2838-2866 | on every such processor, wherever the helpers live, in both modes and for every k up to 2^53: the text of a loop that counts x down from k, compiled, loaded and run, halts with x zero and returns zero |
| `Samples.ForeverRuns` | القلب/الوحدات/اللغة/طبقة_الترجمة/مترجم_اللغة.c:2838-2866 | the bytes of an empty loop never halt and never get stuck, from any store |
| `Samples.SampleCountsDown` | القلب/الوحدات/اللغة/طبقة_الترجمة/مترجم_اللغة.c:3257-3378 | one processor, one set of addresses and one entry state meet all conditions of `SourceRuns`, `LinesRun` and `FunctionAgrees` together, and the loop counts down on them |
| `Samples.SampleNan` | القلب/الوحدات/اللغة/طبقة_الترجمة/شجرة.c:592-598 | they also meet those of `NanTakesOtherBranch`, so there is a machine on which the one program gives the two answers |
| `Samples.SampleMisread` | القلب/الوحدات/اللغة/طبقة_الترجمة/مترجم_اللغة.c:564-589 | and those of `BigIntegerMisread`, in the compiled code of a function that mentions the variable |
| `JitCompiler.JitBuffer.constructor` | القلب/الوحدات/اللغة/طبقة_الترجمة/مترجم_اللغة.c:185-198 | an empty buffer in the given emission mode |
| `JitCompiler.JitBuffer.EmitBytes` | القلب/الوحدات/اللغة/طبقة_الترجمة/مترجم_اللغة.c:246-256 | appends bytes and changes nothing else |
| `JitCompiler.JitBuffer.Emit` | القلب/الوحدات/اللغة/طبقة_الترجمة/مترجم_اللغة.c:389-423 | appends one fixed instruction |
| `JitCompiler.JitBuffer.StoreTypedSlot` | القلب/الوحدات/اللغة/طبقة_الترجمة/مترجم_اللغة.c:296-317 | appends the store to slot d; refuses exactly slots from 16 on |
| `JitCompiler.JitBuffer.LoadTypedSlot` | القلب/الوحدات/اللغة/طبقة_الترجمة/مترجم_اللغة.c:319-348 | appends the load from slot d; refuses exactly slots from 16 on |
| `JitCompiler.JitBuffer.HelperSymbolId` | القلب/الوحدات/اللغة/طبقة_الترجمة/مترجم_اللغة.c:1806-1811 | the first table entry at an address, or the table's size when there is none |
| `JitCompiler.JitBuffer.EmitAddress` | القلب/الوحدات/اللغة/طبقة_الترجمة/مترجم_اللغة.c:472-516 | an instruction with a 64-bit address: the address itself in direct mode, a zero and a recorded relocation at its offset in relocatable mode |
| `JitCompiler.JitBuffer.CallHelper` | القلب/الوحدات/اللغة/طبقة_الترجمة/مترجم_اللغة.c:490-516 | appends a call of a helper; never refuses one the compiler uses |
| `JitCompiler.JitBuffer.LoadTypedResult` | القلب/الوحدات/اللغة/طبقة_الترجمة/مترجم_اللغة.c:350-383 | appends the load of the trace cell into the registers |
| `JitCompiler.JitBuffer.EmitNameRef` | القلب/الوحدات/اللغة/طبقة_الترجمة/مترجم_اللغة.c:522-556 | appends the name reference and remembers it |
| `JitCompiler.JitBuffer.EmitJmp` | القلب/الوحدات/اللغة/طبقة_الترجمة/مترجم_اللغة.c:2629-2634 | appends a jump with an empty displacement and returns where it is |
| `JitCompiler.JitBuffer.EmitJe` | القلب/الوحدات/اللغة/طبقة_الترجمة/مترجم_اللغة.c:2636-2642 | the same for a conditional jump |
| `JitCompiler.JitBuffer.EmitJumpIfTypedFalse` | القلب/الوحدات/اللغة/طبقة_الترجمة/مترجم_اللغة.c:2656-2664 | appends the comparison with zero and a conditional jump |
| `JitCompiler.JitBuffer.PatchRel32` | القلب/الوحدات/اللغة/طبقة_الترجمة/مترجم_اللغة.c:2644-2654 | writes a displacement in place, refusing exactly those outside 32 bits |
| `JitCompiler.JitBuffer.PatchJumps` | القلب/الوحدات/اللغة/طبقة_الترجمة/مترجم_اللغة.c:2859-2863 | directs a list of jumps to one target, in order |
| `JitCompiler.JitBuffer.CompileNumber` | القلب/الوحدات/اللغة/طبقة_الترجمة/مترجم_اللغة.c:1969-1980 | appends the code of a literal |
| `JitCompiler.JitBuffer.CompileVariable` | القلب/الوحدات/اللغة/طبقة_الترجمة/مترجم_اللغة.c:1993-1999 | appends the code of a variable |
| `JitCompiler.JitBuffer.CallAndLoad` | القلب/الوحدات/اللغة/طبقة_الترجمة/مترجم_اللغة.c:2047-2085 | appends a helper call and the load of its result |
| `JitCompiler.JitBuffer.LoadToTrace` | القلب/الوحدات/اللغة/طبقة_الترجمة/مترجم_اللغة.c:2034-2041 | appends the load of a slot and its transfer to the trace |
| `JitCompiler.JitBuffer.CompileOperands` | القلب/الوحدات/اللغة/طبقة_الترجمة/مترجم_اللغة.c:2021-2045 | compiles both operands into neighbouring slots; refuses exactly when a seventeenth slot would be needed |
| `JitCompiler.JitBuffer.CompileExpr` | القلب/الوحدات/اللغة/طبقة_الترجمة/مترجم_اللغة.c:2487-2518 | accepts exactly the trees that fit sixteen slots and appends exactly their code, in both modes |
| `JitCompiler.JitBuffer.CompileLoopControl` | القلب/الوحدات/اللغة/طبقة_الترجمة/مترجم_اللغة.c:2868-2885 | a break or continue waits with the innermost loop; refused exactly outside a loop or after 32 |
| `JitCompiler.JitBuffer.CompileReturnVoid` | القلب/الوحدات/اللغة/طبقة_الترجمة/مترجم_اللغة.c:2887-2925 | a return without value: a jump waiting for the epilogue |
| `JitCompiler.JitBuffer.CompileReturn` | القلب/الوحدات/اللغة/طبقة_الترجمة/مترجم_اللغة.c:2887-2925 | a return with value: its code, the transfer of the result, a jump waiting for the epilogue |
| `JitCompiler.JitBuffer.CompileAssign` | القلب/الوحدات/اللغة/طبقة_الترجمة/مترجم_اللغة.c:2965-3008 | appends exactly the code of an assignment; refuses exactly the empty name and unacceptable values |
| `JitCompiler.JitBuffer.CompileDeclaration` | القلب/الوحدات/اللغة/طبقة_الترجمة/مترجم_اللغة.c:3020-3069 | appends exactly the code of a declaration |
| `JitCompiler.JitBuffer.CompileSimple` | القلب/الوحدات/اللغة/طبقة_الترجمة/مترجم_اللغة.c:3157-3251 | one line outside the block forms: appends its statement's code, and is not refused when the statement is acceptable |
| `JitCompiler.JitBuffer.CompileIf` | القلب/الوحدات/اللغة/طبقة_الترجمة/مترجم_اللغة.c:2791-2836 | compiles one condition from its opening line: takes exactly its lines and appends exactly its code |
| `JitCompiler.JitBuffer.CompileThenOnly` | القلب/الوحدات/اللغة/طبقة_الترجمة/مترجم_اللغة.c:2791-2836 | a condition without else: the emitted hole is directed behind the branch |
| `JitCompiler.JitBuffer.CompileThenElse` | القلب/الوحدات/اللغة/طبقة_الترجمة/مترجم_اللغة.c:2791-2836 | a condition with else: false goes to the else branch, the end of the then branch jumps over it |
| `JitCompiler.JitBuffer.CompileElse` | القلب/الوحدات/اللغة/طبقة_الترجمة/مترجم_اللغة.c:2821-2829 | the else branch and the directing of the jump over it |
| `JitCompiler.JitBuffer.CompileLoop` | القلب/الوحدات/اللغة/طبقة_الترجمة/مترجم_اللغة.c:2838-2866 | compiles one loop from its opening line: takes exactly its lines and appends exactly its code |
| `JitCompiler.JitBuffer.CompileLoopBody` | القلب/الوحدات/اللغة/طبقة_الترجمة/مترجم_اللغة.c:2838-2866 | opens a loop context, compiles the body and closes the context; refused at depth 16 |
| `JitCompiler.JitBuffer.CloseLoop` | القلب/الوحدات/اللغة/طبقة_الترجمة/مترجم_اللغة.c:2855-2863 | the jump back and the directing of this loop's breaks and continues, no other loop's |
| `JitCompiler.JitBuffer.CompileBlock` | القلب/الوحدات/اللغة/طبقة_الترجمة/مترجم_اللغة.c:3157-3251 | lines are accepted only as a well-nested block and leave exactly that block's code; an acceptable block is never refused |
| `JitCompiler.JitBuffer.AppendNames` | القلب/الوحدات/اللغة/طبقة_الترجمة/مترجم_اللغة.c:2524-2538 | appends a NUL-terminated copy of every referenced name and returns where each went |
| `JitCompiler.JitBuffer.FinalizeNames` | القلب/الوحدات/اللغة/طبقة_الترجمة/مترجم_اللغة.c:2524-2556 | after the copies every reference is directed to its own one |
| `JitCompiler.JitBuffer.CompileFunction` | القلب/الوحدات/اللغة/طبقة_الترجمة/مترجم_اللغة.c:3257-3327 | what comes out is, byte for byte, the finished function of the block the lines mean, with its relocations in relocatable mode; every acceptable nonempty body below 2 GB is compiled |
| `Limits.ExpressionDepth` | القلب/الوحدات/اللغة/طبقة_الترجمة/مترجم_اللغة.c:2005-2045 | operators nest to the right at most 15 deep and to the left without limit |
| `Limits.LoopDepth` | القلب/الوحدات/اللغة/طبقة_الترجمة/مترجم_اللغة.c:2838-2866 | loops nest at most 16 deep |
| `Limits.LoopJumps` | القلب/الوحدات/اللغة/طبقة_الترجمة/مترجم_اللغة.c:2868-2885 | a loop has at most 32 breaks and 32 continues of its own, and outside loops there is none |
| `JitCompiler.IfBuilt` | القلب/الوحدات/اللغة/طبقة_الترجمة/مترجم_اللغة.c:2791-2836 | emit, compile, patch of a condition without else equals the condition's code as defined in one piece |
| `JitCompiler.ElseBuilt` | القلب/الوحدات/اللغة/طبقة_الترجمة/مترجم_اللغة.c:2821-2829 | the same for a condition with else |
| `JitCompiler.LoopBuilt` | القلب/الوحدات/اللغة/طبقة_الترجمة/مترجم_اللغة.c:2844-2858 | after the body, the innermost context holds exactly the loop's own waiting jumps, and directing the jump back completes the loop but for those |
| `JitCompiler.LoopEnds` | القلب/الوحدات/اللغة/طبقة_الترجمة/مترجم_اللغة.c:2859-2863 | directing the waiting jumps completes the loop; below 2 GB every displacement fits |
| `ExecFile.CutJoined` | القلب/الوحدات/اللغة/طبقة_الترجمة/مجمع_الترجمة.c:199-265 | parameter names joined by line feeds and cut again are the same names, for any names without line feed or NUL |
| `ExecFile.StAddOk` | القلب/الوحدات/اللغة/طبقة_الترجمة/مجمع_الترجمة.c:145-176 | adding a string finds or stores a NUL-terminated copy at the returned offset, and moves no string stored before |
| `ExecFile.CollectedOk` | القلب/الوحدات/اللغة/طبقة_الترجمة/مجمع_الترجمة.c:370-458 | after any list of functions every header gives where that function's name, parameters, code and relocations are, whatever de-duplication shared |
| `ExecFile.FileLaidOut` | القلب/الوحدات/اللغة/طبقة_الترجمة/مجمع_الترجمة.c:468-518 | header, function headers, strings, code and relocations all lie in the padded file where the header says |
| `ExecFile.HeadRead` | القلب/الوحدات/اللغة/طبقة_الترجمة/مجمع_الترجمة.c:436-450 | function header k read from the file is the header that was written for function k |
| `ExecFile.LoadBuilt` | القلب/الوحدات/اللغة/طبقة_الترجمة/مجمع_الترجمة.c:281-732 | loading the file built from any distinctly named functions passes every check and registers, in order, the same names, parameter names and relocated code; a list made by hand with a function whose single parameter has an empty name is the only one refused |
| `ExecFile.LoadNamed` | القلب/الوحدات/اللغة/لغة.c:633-640 | with nonempty parameter names, the only ones the parser of parameter lists lets through, loading always succeeds |
| `ExecFile.RegisterFinds` | القلب/الوحدات/اللغة/مفاهيم_اللغة/الدوال.c:153-200 | registering a function makes it the one found under its name, in the old one's place or at the end, and changes what is found under no other name |
| `ExecFile.LibraryLoads` | القلب/الوحدات/اللغة/طبقة_الترجمة/مجمع_الترجمة.c:774-868 | a library loaded beside registered functions: its functions are found under their names, every other function as before and at its place |
| `ExecFile.Format` | القلب/الوحدات/اللغة/طبقة_الترجمة/مجمع_الترجمة.c:370-557 | a file begins with ARPE and version 20; table, strings, code and relocations lie at the places and alignments of the format |
| `ExecFile.EntryIs` | القلب/الوحدات/اللغة/طبقة_الترجمة/مجمع_الترجمة.c:370-557 | the entry a file names is the code of its function __main__ |
| `ExecFile.ParameterText` | القلب/الوحدات/اللغة/طبقة_الترجمة/مجمع_الترجمة.c:370-557 | parameter names stand in the strings with a line feed between them |
| `ExecFile.AcceptedIsChecked` | القلب/الوحدات/اللغة/طبقة_الترجمة/مجمع_الترجمة.c:604-730 | whatever bytes are accepted have that magic and version, sections inside the file, and for every function its name, code, parameter text and relocations inside their sections, each relocation inside its code and naming a known symbol |
| `ExecLoader.ExecBuilder.constructor` | القلب/الوحدات/اللغة/طبقة_الترجمة/مجمع_الترجمة.c:365-368 | empty sections |
| `ExecLoader.ExecBuilder.AddString` | القلب/الوحدات/اللغة/طبقة_الترجمة/مجمع_الترجمة.c:145-176 | the offset of a string, sharing an equal one already there |
| `ExecLoader.ExecBuilder.AddFunction` | القلب/الوحدات/اللغة/طبقة_الترجمة/مجمع_الترجمة.c:370-458 | collects one function: its strings, code, relocations and header |
| `ExecLoader.ExecBuilder.Assemble` | القلب/الوحدات/اللغة/طبقة_الترجمة/مجمع_الترجمة.c:468-518 | the whole file, sections padded to their alignment |
| `ExecLoader.PadTo` | القلب/الوحدات/اللغة/طبقة_الترجمة/مجمع_الترجمة.c:115-122 | zeroes appended one by one up to the target size, and none beyond it |
| `ExecLoader.JoinParams` | القلب/الوحدات/اللغة/طبقة_الترجمة/مجمع_الترجمة.c:207-223 | the parameter names as one text |
| `ExecLoader.BuildFile` | القلب/الوحدات/اللغة/طبقة_الترجمة/مجمع_الترجمة.c:370-518 | the file built by collecting the functions in order |
| `ExecLoader.CutParams` | القلب/الوحدات/اللغة/طبقة_الترجمة/مجمع_الترجمة.c:254-265 | the names cut from a text: exactly the number announced, using up the text, or nothing |
| `ExecLoader.RegisterFunction` | القلب/الوحدات/اللغة/مفاهيم_اللغة/الدوال.c:153-196 | replaces the function of the same name, else appends |
| `ExecLoader.LoadCode` | القلب/الوحدات/اللغة/طبقة_الترجمة/مجمع_الترجمة.c:700-724 | a copy of the code with its relocations applied, or nothing if one is refused |
| `ExecLoader.LoadFunction` | القلب/الوحدات/اللغة/طبقة_الترجمة/مجمع_الترجمة.c:682-731 | one function: bounds checks, code, name, parameters |
| `ExecLoader.LoadFile` | القلب/الوحدات/اللغة/طبقة_الترجمة/مجمع_الترجمة.c:604-868 | all functions of a program or library registered in order, beside those registered before, or nothing when any check fails |
| `ExecLoader.LoadedIsDirect` | القلب/الوحدات/اللغة/طبقة_الترجمة/مجمع_الترجمة.c:370-732 | what the compiler puts into a file is always fit to be loaded, and what the loader registers for it is byte for byte the code compiled directly into memory |
| `ExecLoader.ProgramLoads` | القلب/الوحدات/اللغة/طبقة_الترجمة/مجمع_الترجمة.c:370-732 | a whole program through its file, compiled with the helpers in one place and loaded with them in another: its functions are registered in order with their names, parameter names and the code direct compilation gives in the place loaded to |
| `Samples.FileCountsDown` | القلب/الوحدات/اللغة/طبقة_الترجمة/مجمع_الترجمة.c:370-732 | the counting loop compiled into a file in one place and loaded in another: what is registered for it halts with zero when run |
| `MathRoundTrip.ParseShow` | القلب/الوحدات/اللغة/مفاهيم_اللغة/رياضيات.c:166-679 | printing any syntax tree, literals as digits, with the fewest parentheses the ladder allows and parsing the text gives the same tree, nothing left over |
| `MathTrees.TreeRoundTrip` | القلب/الوحدات/اللغة/مفاهيم_اللغة/رياضيات.c:311-679 | the same for the trees the parser builds, literals as doubles: any with whole numbers that convert there and back is returned exactly |
| `MathTrees.ParseShowTree` | القلب/الوحدات/اللغة/مفاهيم_اللغة/رياضيات.c:88-123 | with fractions too, the tree built is the one whose literals are the doubles the code adds up digit by digit |
| `SourceText.WholeLiteral` | القلب/الوحدات/اللغة/مفاهيم_اللغة/رياضيات.c:369-386 | a whole number below 2^63 written in a program evaluates to itself if and only if it has at most 53 significant bits, because its literal is kept as a double |
| `MathRoundTrip.ReadBack` | القلب/الوحدات/اللغة/مفاهيم_اللغة/رياضيات.c:412-662 | at every level of the ladder, a tree printed for that level and followed by anything that cannot continue it is read back whole and alone |
| `MathRoundTrip.ReadUpTo` | القلب/الوحدات/اللغة/مفاهيم_اللغة/رياضيات.c:412-630 | left associativity: an operand printed for level n is taken by the operator loop of that level exactly as far as its own operators go |
| `MathRoundTrip.ReadFactor` | القلب/الوحدات/اللغة/مفاهيم_اللغة/رياضيات.c:311-407 | the same for a factor: number, name, call, array literal, string, parenthesised tree, negation |
| `MathRoundTrip.ReadList` | القلب/الوحدات/اللغة/مفاهيم_اللغة/رياضيات.c:166-306 | arguments and array elements printed with commas are read back in order up to the closing mark |
| `MathRoundTrip.ComparisonsDoNotChain` | القلب/الوحدات/اللغة/مفاهيم_اللغة/رياضيات.c:633-662 | a comparison followed by another comparison sign is refused whatever follows; so `a > 0 && b < 10` without parentheses does not parse |
| `MathSpelling.HexLiteral` | القلب/الوحدات/اللغة/مفاهيم_اللغة/رياضيات.c:42-62 | every number below 2^64 in hexadecimal, either case for each digit, behind 0x or 0X, is read as the 64-bit integer with those bits |
| `MathSpelling.MixedLiteral` | القلب/الوحدات/اللغة/مفاهيم_اللغة/رياضيات.c:64-121 | every number below 2^63 in decimal digits, each in ASCII or in the Arabic script by its code point, is read as that number |
| `MathSpelling.TwoNames` | القلب/الوحدات/اللغة/مفاهيم_اللغة/رياضيات.c:311-679 | two names with any operator between them, with blanks or tabs anywhere or none, are read as that operator on them |
| `MathSpelling.BindsFirst` | القلب/الوحدات/اللغة/مفاهيم_اللغة/رياضيات.c:412-679 | of any two operators between three names the one higher on the ladder takes its operands first, and of two on one rung the left |
| `MathSpelling.Marks` | القلب/الوحدات/اللغة/مفاهيم_اللغة/رياضيات.c:166-410 | parentheses, calls, arrays, strings, the minus sign and the point are read from their ASCII bytes |
| `MathSpelling.OtherSpellings` | القلب/الوحدات/اللغة/مفاهيم_اللغة/رياضيات.c:633-679 | the second spellings of three comparisons |
| `MathParsers.ParseText` | القلب/الوحدات/اللغة/مفاهيم_اللغة/رياضيات.c:667-679 | the cursor-driven parser builds the tree of the grammar's function on every text, and ends on every text |
| `MathParsers.MathParser.Peek` | القلب/الوحدات/اللغة/مفاهيم_اللغة/رياضيات.c:28-31 | the character some places ahead |
| `MathParsers.MathParser.Advance` | القلب/الوحدات/اللغة/مفاهيم_اللغة/رياضيات.c:28-31 | the cursor moved on |
| `MathParsers.MathParser.SkipSpaces` | القلب/الوحدات/اللغة/مفاهيم_اللغة/رياضيات.c:28-31 | the cursor at the next character that is no blank |
| `MathParsers.MathParser.ReadDigits` | القلب/الوحدات/اللغة/مفاهيم_اللغة/رياضيات.c:64-86 | decimal digits of either script, with their value |
| `MathParsers.MathParser.ReadFraction` | القلب/الوحدات/اللغة/مفاهيم_اللغة/رياضيات.c:88-114 | the digits behind a point, each added over ten times the divisor before it |
| `MathParsers.MathParser.DigitHere` | القلب/الوحدات/اللغة/مفاهيم_اللغة/رياضيات.c:70-82 | the decimal digit at the cursor, of either script |
| `MathParsers.MathParser.ReadHexDigits` | القلب/الوحدات/اللغة/مفاهيم_اللغة/رياضيات.c:42-62 | hexadecimal digits, with their value |
| `MathParsers.MathParser.ParseNumber` | القلب/الوحدات/اللغة/مفاهيم_اللغة/رياضيات.c:38-123 | a number as the double it stands for: hexadecimal, whole or with a fraction; whole parts wrap at 64 bits |
| `MathParsers.MathParser.ReadName` | القلب/الوحدات/اللغة/مفاهيم_اللغة/رياضيات.c:128-161 | the characters up to the next delimiter |
| `MathParsers.MathParser.ReadString` | القلب/الوحدات/اللغة/مفاهيم_اللغة/رياضيات.c:339-367 | the characters up to the closing quote |
| `MathParsers.MathParser.ParseFactor` | القلب/الوحدات/اللغة/مفاهيم_اللغة/رياضيات.c:311-407 | the factor at the cursor, or failure, as the grammar has it |
| `MathParsers.MathParser.ParseLevel` | القلب/الوحدات/اللغة/مفاهيم_اللغة/رياضيات.c:412-630 | a level of the ladder at the cursor |
| `MathParsers.MathParser.ParseComparison` | القلب/الوحدات/اللغة/مفاهيم_اللغة/رياضيات.c:633-662 | at most one comparison |
| `MathParsers.MathParser.ParseList` | القلب/الوحدات/اللغة/مفاهيم_اللغة/رياضيات.c:166-306 | arguments or elements up to the closing mark |
| `Comments.CommentRemove` | القلب/الوحدات/اللغة/مفاهيم_اللغة/التعليقات.c:51-149 | the one-pass remover with its two cursors succeeds exactly when every block comment is closed, and writes the cleaned text and a terminating zero |
| `Comments.SkipLine` | القلب/الوحدات/اللغة/مفاهيم_اللغة/التعليقات.c:122-132 | the end of the line the cursor is on |
| `Comments.UnchangedIffMarkFree` | القلب/الوحدات/اللغة/مفاهيم_اللغة/التعليقات.c:51-149 | cleaning leaves a text as it is if and only if it has no comment mark outside strings |
| `Comments.CleanLeaves` | القلب/الوحدات/اللغة/مفاهيم_اللغة/التعليقات.c:51-149 | on text whose 0xD8 bytes are paired, what cleaning leaves has no mark outside strings and the same strings, byte for byte |
| `Comments.CleanTwice` | القلب/الوحدات/اللغة/طبقة_الترجمة/مجمع_الترجمة.c:303-315 | cleaning well-formed UTF-8 (section 3 of RFC 3629) a second time changes nothing, as the compiler relies on |
| `Comments.TwiceExact` | القلب/الوحدات/اللغة/مفاهيم_اللغة/التعليقات.c:51-149 | on any bytes, a second cleaning changes nothing if and only if, outside strings and comments, no copied 0xD8 is followed by nothing but comments up to a copied 0x9B |
| `Comments.NotOnAllBytes` | القلب/الوحدات/اللغة/مفاهيم_اللغة/التعليقات.c:51-149 | eight bytes that are not UTF-8 on which a second cleaning removes more |
| `CommentPieces.LineComments` | القلب/الوحدات/اللغة/مفاهيم_اللغة/التعليقات.c:122-132 | a line comment ends at the next byte 10, which is kept; one that reaches the end leaves nothing |
| `CommentPieces.CodeCopied` | القلب/الوحدات/اللغة/مفاهيم_اللغة/التعليقات.c:51-149 | bytes outside strings that begin no mark are copied in order, whatever follows |
| `CommentPieces.StringCopied` | القلب/الوحدات/اللغة/مفاهيم_اللغة/التعليقات.c:51-149 | strings are copied with their quotes, whatever they contain |
| `CommentPieces.GroupDropped` | القلب/الوحدات/اللغة/مفاهيم_اللغة/التعليقات.c:51-149 | a group comment with any others nested in it leaves nothing, and one not closed makes cleaning fail |
| `CommentPieces.ScriptCleaned` | القلب/الوحدات/اللغة/مفاهيم_اللغة/التعليقات.c:51-149 | any script of code, strings, line comments and nested group comments is cleaned piece by piece, in order |
| `CommentPieces.LinesKept` | القلب/الوحدات/اللغة/مفاهيم_اللغة/التعليقات.c:122-132 | without group comments a cleaned script has as many line feeds as before |
| `Arrays.UnflatFlat` | القلب/الوحدات/اللغة/طبقة_الترجمة/شجرة.c:1122-1132 | the index vector at the position of an in-range vector is that vector |
| `Arrays.FlatUnflat` | القلب/الوحدات/اللغة/طبقة_الترجمة/شجرة.c:1122-1132 | every position below the element count is the position of exactly the in-range vector read from it |
| `Arrays.FlatInjective` | القلب/الوحدات/اللغة/طبقة_الترجمة/شجرة.c:1122-1132 | two in-range vectors have the same position if and only if they are equal |
| `Arrays.RowByRow` | القلب/الوحدات/اللغة/طبقة_الترجمة/شجرة.c:1122-1132 | positions grow with the index vectors, the first index weighing most, and the last index steps to the next position |
| `Arrays.DimensionLimit` | القلب/الوحدات/اللغة/طبقة_الترجمة/شجرة.c:1179-1219 | one to eight dimensions are accepted |
| `Arrays.Wraps32` | القلب/الوحدات/اللغة/طبقة_الترجمة/شجرة.c:1122-1132 | 32-bit arithmetic gives the 32-bit integer that differs by a multiple of 2^32 |
| `Arrays.PositionExact` | القلب/الوحدات/اللغة/طبقة_الترجمة/شجرة.c:1122-1132 | the position accumulated in 32 bits is the row-major one if and only if that is below 2^31 |
| `Arrays.TotalIsProduct` | القلب/الوحدات/اللغة/طبقة_الترجمة/شجرة.c:1179-1219 | the element count of an accepted array is the product of its dimensions if and only if that product fits 32 bits |
| `Arrays.OverflowAccepted` | القلب/الوحدات/اللغة/طبقة_الترجمة/شجرة.c:1179-1219 | two dimensions of 65536 are accepted with no elements at all |
| `Arrays.ArpArray.constructor` | القلب/الوحدات/اللغة/طبقة_الترجمة/شجرة.c:1069-1080 | an array without shape |
| `Arrays.ArpArray.Init` | القلب/الوحدات/اللغة/طبقة_الترجمة/شجرة.c:1179-1219 | takes over shape and values exactly when the checks pass, else changes nothing |
| `Arrays.ArpArray.FlatIndex` | القلب/الوحدات/اللغة/طبقة_الترجمة/شجرة.c:1122-1132 | the position as accumulated in 32 bits, which for an initialised array that did not overflow is the row-major one; -1 for a wrong number of indices or one out of range |
| `Arrays.ArpArray.Get` | القلب/الوحدات/اللغة/طبقة_الترجمة/شجرة.c:1143-1149 | the value at an in-range vector, or failure |
| `Arrays.ArpArray.Set` | القلب/الوحدات/اللغة/طبقة_الترجمة/شجرة.c:1134-1141 | there the new value, at every other in-range vector the old one; nothing changes on failure |
| `FrameBits.AllocFresh` | محرك_الذاكرة/الأدارة/مدير_الاطار.c:97-127 | with a frame left, the address handed out was tracked and free, is page aligned, is taken afterwards, and no other frame's bit moves |
| `FrameBits.FreeCountTake` | محرك_الذاكرة/الأدارة/مدير_الاطار.c:97-127 | taking a clear bit lowers the number of free frames by exactly one |
| `FrameBits.AllocFreeRoundTrip` | محرك_الذاكرة/الأدارة/مدير_الاطار.c:97-140 | allocating and freeing the result restores the bitmap, also when nothing was left |
| `FrameBits.FrameInsideRam` | محرك_الذاكرة/الأدارة/مدير_الاطار.c:38-91 | frame i ends inside RAM if and only if i plus the frames the bitmap takes stays below the frame count |
| `FrameBits.FirstFrame` | محرك_الذاكرة/الأدارة/مدير_الاطار.c:38-91 | as many leading bits are marked as the bitmap takes frames, one for every 32768 frames rounded up, so the first frame handed out lies twice that many frames behind the kernel |
| `FrameBits.FrameBeyondRamExists` | محرك_الذاكرة/الأدارة/مدير_الاطار.c:38-91 | a machine on which a frame that can be handed out lies beyond RAM |
| `FrameAllocators.FrameAllocator.constructor` | محرك_الذاكرة/الأدارة/مدير_الاطار.c:38-91 | the initial bitmap bytes and base address for a kernel end and a RAM end |
| `FrameAllocators.FrameAllocator.SetBit` | محرك_الذاكرة/الأدارة/مدير_الاطار.c:97-127 | sets one bit of the packed bytes and no other |
| `FrameAllocators.FrameAllocator.ClearBit` | محرك_الذاكرة/الأدارة/مدير_الاطار.c:129-140 | clears one bit and no other |
| `FrameAllocators.FrameAllocator.AllocFrame` | محرك_الذاكرة/الأدارة/مدير_الاطار.c:97-127 | first clear bit wins; 0 when every bit is set |
| `FrameAllocators.FrameAllocator.FreeFrame` | محرك_الذاكرة/الأدارة/مدير_الاطار.c:129-140 | clears the frame's bit; addresses outside the bitmap are ignored |
| `IdentityMapProof.InitWalk` | محرك_الذاكرة/الأدارة/مدير_الصفحات.c:46-85 | after start-up every address below the mapped gigabytes translates to itself, present, writable and closed to user mode, and no other address translates |
| `IdentityMapProof.RamCovered` | محرك_الذاكرة/الأدارة/مدير_الصفحات.c:41-87 | all of RAM up to 64 GB, and the first 4 GB, is mapped to itself, writable and closed to user mode; nothing is from 64 GB on or a gigabyte past both |
| `IdentityMapProof.InitInv` | محرك_الذاكرة/الأدارة/مدير_الصفحات.c:46-85 | the static tables form a well-formed table tree |
| `PageTables.LinkWalk` | محرك_الذاكرة/الأدارة/مدير_الصفحات.c:92-127 | hanging a new zeroed table in an empty slot changes no translation of any space, nor who may use or write it |
| `PageTables.SplitPiece` | محرك_الذاكرة/الأدارة/مدير_الصفحات.c:128-144 | piece i of a split huge page points at its i-th 4 KB with the same attributes |
| `PageTables.SplitWalk` | محرك_الذاكرة/الأدارة/مدير_الصفحات.c:128-144 | replacing a huge page by 512 small ones changes no translation of any space, nor who may use or write it |
| `PageTables.LinkWay` | محرك_الذاكرة/الأدارة/مدير_الصفحات.c:93-101 | a new table keeps the way to no page from being writable, nor from being open to user mode if it was asked for that |
| `PageTables.SplitWay` | محرك_الذاكرة/الأدارة/مدير_الصفحات.c:124-144 | splitting a huge page changes neither for any address |
| `PageTables.PtPathUnique` | محرك_الذاكرة/الأدارة/مدير_الصفحات.c:90-151 | two walks end in one page table only along the same slots, and from different roots only through the shared slot 0 |
| `PageTables.LeafWalk` | محرك_الذاكرة/الأدارة/مدير_الصفحات.c:146-151 | writing one leaf changes the translation of exactly its page, in exactly the spaces that reach it; it may be written, or used in user mode, if the flags say so and all tables on the way do |
| `PageTables.LinkInv` | محرك_الذاكرة/الأدارة/مدير_الصفحات.c:92-127 | a new table keeps the tree well formed: one parent slot a table, levels falling, slot 0 shared |
| `PageTables.SplitInv` | محرك_الذاكرة/الأدارة/مدير_الصفحات.c:128-144 | so does splitting a huge page |
| `PageTables.LeafInv` | محرك_الذاكرة/الأدارة/مدير_الصفحات.c:146-151 | so does writing a leaf |
| `MapPageProof.DescendStages` | محرك_الذاكرة/الأدارة/مدير_الصفحات.c:92-144 | the first three levels: the page table for the address exists, nothing translates differently, and exactly the missing tables took frames |
| `MapPageProof.MapPage` | محرك_الذاكرة/الأدارة/مدير_الصفحات.c:90-151 | for every live space at once: the page of virt translates to phys with the given attributes, writable and open to user mode if the flags say so and the tables that were on the way do, in the space mapped through or, below 512 GB, in all; every other address translates as before, with the same rights; frames taken are exactly the new tables'; with enough free frames |
| `MapPageProof.OutOfFrames` | محرك_الذاكرة/الأدارة/مدير_الصفحات.c:90-170 | with no frame left, in a space with no table on the way and slots that differ, the page asked for is not mapped and its entry is written into frame 0 |
| `PageManagers.PageManager.constructor` | محرك_الذاكرة/الأدارة/مدير_الصفحات.c:46-85 | builds the identity map in place |
| `PageManagers.PageManager.FillPd` | محرك_الذاكرة/الأدارة/مدير_الصفحات.c:73-82 | the 512 huge pages of one gigabyte, written entry by entry |
| `PageManagers.PageManager.LinkPdpt` | محرك_الذاكرة/الأدارة/مدير_الصفحات.c:62-68 | the gigabyte tables linked, the other entries empty |
| `PageManagers.PageManager.NewTable` | محرك_الذاكرة/الأدارة/مدير_الصفحات.c:93-112 | a frame allocated, zeroed and linked |
| `PageManagers.PageManager.SplitHuge` | محرك_الذاكرة/الأدارة/مدير_الصفحات.c:128-144 | a huge page replaced by a filled table |
| `PageManagers.PageManager.MapPage` | محرك_الذاكرة/الأدارة/مدير_الصفحات.c:90-151 | the four-level descent in place does what the functional definition says, table by table |
| `PageManagers.PageManager.CreateSpace` | محرك_الذاكرة/الأدارة/مدير_فضاء_العناوين.c:15-29 | a zeroed root with the kernel's slot 0, or 0 when no frame is left |
| `PageManagers.PageManager.DestroySpace` | محرك_الذاكرة/الأدارة/مدير_فضاء_العناوين.c:34-82 | frees the listed frames in the order of the nested loops, then the root |
| `PageManagers.PageManager.FreeBelowPdpt` | محرك_الذاكرة/الأدارة/مدير_فضاء_العناوين.c:47-74 | frees what hangs below a level-3 table |
| `PageManagers.PageManager.FreeBelowPd` | محرك_الذاكرة/الأدارة/مدير_فضاء_العناوين.c:53-72 | frees what hangs below a level-2 table, huge pages included |
| `PageManagers.PageManager.FreeBelowPt` | محرك_الذاكرة/الأدارة/مدير_فضاء_العناوين.c:65-69 | frees the leaves of a page table |
| `AddressSpaceProof.Create` | محرك_الذاكرة/الأدارة/مدير_فضاء_العناوين.c:15-29 | a new space translates the first 512 GB as the kernel does and nothing else; no other space notices; exactly its root's frame was taken |
| `AddressSpaceProof.FreeAllExact` | محرك_الذاكرة/الأدارة/مدير_الاطار.c:129-140 | freeing a list of frames clears exactly the tracked frames on it |
| `AddressSpaceProof.DestroyList` | محرك_الذاكرة/الأدارة/مدير_فضاء_العناوين.c:34-82 | a frame is on the list tear-down frees if and only if it is the root or a table or leaf reachable through slots 1 to 511 |
| `AddressSpaceProof.BelowIsOwned` | محرك_الذاكرة/الأدارة/مدير_فضاء_العناوين.c:34-82 | a tracked frame below a space is one of its tables or a leaf frame it claimed |
| `AddressSpaceProof.Destroy` | محرك_الذاكرة/الأدارة/مدير_فضاء_العناوين.c:34-82 | tear-down clears exactly the bits of the space's frames and leaves all other spaces' tables and translations intact |
| `AddressSpaceProof.CreateMapDestroy` | محرك_الذاكرة/الأدارة/مدير_فضاء_العناوين.c:15-82 | creating a space, mapping each of any number of different upper pages with a freshly allocated frame and destroying the space returns the bitmap to its exact starting value, if for each page in turn there is a frame for it and for every table it still lacks |
| `AddressSpaceProof.FourEachSuffice` | محرك_الذاكرة/الأدارة/مدير_الصفحات.c:90-151 | four spare frames a page and one for the root are always enough for that |
| `MemoryRuns.ApplyKeeps` | محرك_الذاكرة/الأدارة/مدير_الصفحات.c:90-170 | allocation, freeing, mapping, creation and destruction all keep tables, bits and frame ownership consistent |
| `MemoryRuns.BootHealthy` | محرك_الذاكرة/الأدارة/مدير_الصفحات.c:46-85 | the state after start-up is consistent |
| `MemoryRuns.RunKeeps` | محرك_الذاكرة/الأدارة/مدير_الصفحات.c:90-170 | so is the state after any run of allowed operations |
| `MemoryRuns.KernelHalfStaysShared` | محرك_الذاكرة/الأدارة/مدير_الصفحات.c:90-170 | in every reachable state all live spaces translate every address below 512 GB exactly as the kernel tables do |
| `MemoryRuns.MapChangesOnePage` | محرك_الذاكرة/الأدارة/مدير_الصفحات.c:90-151 | in any reachable state a mapping changes one page of one space, or of all when it lies in the kernel half |
| `MemoryRuns.RunLeavesAlone` | محرك_الذاكرة/الأدارة/مدير_فضاء_العناوين.c:15-82 | over any run of allowed operations that neither maps through a space nor destroys it, that space translates every address above 512 GB as it did |
| `HeapBlocks.NeededCovers` | محرك_الذاكرة/الأدارة/مدير_الكومة.c:177-202 | the computed block size covers the request if and only if the request is at most 2^64 - 48; then it is a multiple of 16, at least 48 and less than 16 above the least |
| `HeapBlocks.HugeRequestGetsNothing` | محرك_الذاكرة/الأدارة/مدير_الكومة.c:177-202 | the largest request would be given a block of header size only |
| `HeapBlocks.MallocKeeps` | محرك_الذاكرة/الأدارة/مدير_الكومة.c:177-213 | an allocation served from a free block, or for which the new end of the heap stays below 2^64, keeps the heap invariant; the payload is 16-aligned, inside the mapped range, large enough and held no live payload; blocks in use stay; failure means no free block fits and changes no block |
| `HeapBlocks.MallocExact` | محرك_الذاكرة/الأدارة/مدير_الكومة.c:87-106 | the heap is well formed after an allocation if and only if it was served from a free block or `heap_current + bytes` stays below 2^64; otherwise it is granted with no page mapped, its block runs past the mapped range and the end of the heap moves down |
| `HeapBlocks.LowestFit` | محرك_الذاكرة/الأدارة/مدير_الكومة.c:186-198 | the block taken is the lowest-addressed free block that fits |
| `HeapServing.ServedExactly` | محرك_الذاكرة/الأدارة/مدير_الكومة.c:109-127 | a request served from a free block takes its first bytes and leaves the rest as a free block behind it when more than 32 bytes would be left, and takes all of it otherwise; nothing else changes |
| `HeapServing.GrownExactly` | محرك_الذاكرة/الأدارة/مدير_الكومة.c:87-106 | with no block that fits the heap grows by exactly the bytes asked for, mapping no page more than needed, if the frames suffice; otherwise all frames are mapped and nothing is granted |
| `HeapServing.LittleWasted` | محرك_الذاكرة/الأدارة/مدير_الكومة.c:177-213 | what is handed out is never more than 79 bytes larger than asked for |
| `HeapServing.Accounted` | محرك_الذاكرة/الأدارة/مدير_الكومة.c:87-146 | used and free bytes together are all bytes from 0x8000000 to the heap's current end |
| `HeapServing.ServedBytes` | محرك_الذاكرة/الأدارة/مدير_الكومة.c:109-127 | a served request moves exactly the bytes of its block from free to used |
| `HeapServing.FirstRequests` | محرك_الذاكرة/الأدارة/مدير_الكومة.c:153-213 | right after start-up two requests of 16 bytes get 0x8000020 and 0x8000050, and 4000 bytes stay free behind them |
| `HeapBlocks.FreeKeeps` | محرك_الذاكرة/الأدارة/مدير_الكومة.c:220-247 | freeing keeps the invariant and takes exactly the block of that payload out of use; a second free, null and foreign addresses change nothing |
| `HeapBlocks.RunKeeps` | محرك_الذاكرة/الأدارة/مدير_الكومة.c:109-247 | in every run in which no rounding up and no growth wraps around, the blocks tile the heap, sizes are multiples of 16 and at least 48, no two neighbours are both free, and the heap stays inside the mapped range |
| `HeapBlocks.RunExact` | محرك_الذاكرة/الأدارة/مدير_الكومة.c:87-247 | for all 64-bit sizes: every step of a run computes a block large enough for the request and leaves a well-formed heap if and only if at every allocation neither rounding up nor growing the heap wraps around |
| `HeapBlocks.BoundedSafe` | محرك_الذاكرة/الأدارة/مدير_الكومة.c:87-106 | nothing wraps around in any run of requests that, with 48 bytes and all the memory there is, fit below 2^64 |
| `HeapBlocks.LimitKept` | محرك_الذاكرة/الأدارة/مدير_الكومة.c:59-69 | no call changes where the heap would end with every frame mapped |
| `HeapBlocks.WrappedGrant` | محرك_الذاكرة/الأدارة/مدير_الكومة.c:87-106 | right after start-up with one frame a request of 2^64 - 64 bytes is granted with no page mapped: its block runs past the mapped range, the end of the heap moves 32 bytes down, and the heap is no longer well formed |
| `HeapBlocks.RunUsed` | محرك_الذاكرة/الأدارة/مدير_الكومة.c:177-247 | over any such run a block in use stays at its address with its size for as long as its payload is not freed |
| `HeapBlocks.LiveUntilFreed` | محرك_الذاكرة/الأدارة/مدير_الكومة.c:177-247 | in every such run a payload handed out and not freed since is at the end 16-aligned, in the mapped range, as large as asked for, in a block that was not in use before, and clear of every other block in use, whenever that was handed out |
| `HeapBlocks.BootInv` | محرك_الذاكرة/الأدارة/مدير_الكومة.c:153-170 | the invariant holds after start-up |
| `HeapBlocks.PayloadsApart` | محرك_الذاكرة/الأدارة/مدير_الكومة.c:87-146 | two different blocks never overlap |
| `HeapBlocks.MallocThenFree` | محرك_الذاكرة/الأدارة/مدير_الكومة.c:109-247 | freeing what was just served from an existing block restores the exact block list |
| `HeapBlocks.FreeEverything` | محرك_الذاكرة/الأدارة/مدير_الكومة.c:130-247 | freeing every live payload, in any order, leaves one free block covering the heap |
| `KernelHeaps.KernelHeap.constructor` | محرك_الذاكرة/الأدارة/مدير_الكومة.c:153-170 | one mapped page holding one free block, or nothing when memory is short |
| `KernelHeaps.KernelHeap.HeapMapOnePage` | محرك_الذاكرة/الأدارة/مدير_الكومة.c:59-69 | one more page, or failure when no frame is left |
| `KernelHeaps.KernelHeap.HeapAppend` | محرك_الذاكرة/الأدارة/مدير_الكومة.c:87-106 | for every 64-bit size: a free block at the end, linked both ways, mapping just the pages the wrapped sum asks for; on failure the pages already mapped stay; the blocks tile the heap if the sum did not wrap |
| `KernelHeaps.KernelHeap.BlockSplit` | محرك_الذاكرة/الأدارة/مدير_الكومة.c:109-127 | the block cut when the rest is worth keeping, all links and the last pointer right |
| `KernelHeaps.KernelHeap.CoalesceNext` | محرك_الذاكرة/الأدارة/مدير_الكومة.c:130-139 | the next block taken over when free |
| `KernelHeaps.KernelHeap.CoalescePrev` | محرك_الذاكرة/الأدارة/مدير_الكومة.c:142-146 | the block taken over by the previous one when that is free |
| `KernelHeaps.KernelHeap.Kmalloc` | محرك_الذاكرة/الأدارة/مدير_الكومة.c:177-213 | where nothing wraps around, the list walk, split and marking on headers in memory do what the definition on block lists says, and keep next, prev, first and last in agreement with one list |
| `KernelHeaps.KernelHeap.MarkUsed` | محرك_الذاكرة/الأدارة/مدير_الكومة.c:191-197 | the block marked and its payload cleared, no header harmed |
| `KernelHeaps.KernelHeap.Kfree` | محرك_الذاكرة/الأدارة/مدير_الكومة.c:220-247 | the checks and both coalescings on headers in memory do what the definition on block lists says |
| `Scheduling.ChargeBounds` | محرك_الجدولة/محرك_الجدولة.c:127-132 | a tick costs between 1 and 1024 units, exactly 1 at nice 0 |
| `Scheduling.FewProcesses` | محرك_العمليات/مدير_عمليات_النواه/مدير_عمليات_النواه.c:23-44 | at most 255 processes are registered |
| `Scheduling.DifferentPids` | محرك_العمليات/مدير_عمليات_النواه/مدير_عمليات_النواه.c:23-56 | different registered processes have different pids |
| `Scheduling.ListsHaveRoom` | محرك_الجدولة/محرك_الجدولة.c:47-76 | no list is ever full, so no insertion is dropped |
| `Scheduling.TickEach` | محرك_الجدولة/محرك_الجدولة.c:134-142 | the loop with swap-removal decrements every sleeper exactly once, moves to ready exactly those that reach zero or less, at the current minimum, and touches nothing else |
| `Scheduling.YieldKeeps` | محرك_الجدولة/محرك_الجدولة.c:86-143 | a tick followed by a pick keeps every invariant and never lowers the minimum |
| `Scheduling.SleepAlmost` | محرك_الجدولة/الأدارة/مُدير_راحة_العمليات.c:21-30 | a process that puts itself to sleep moves from ready to sleeping and is in no other list |
| `Scheduling.WaitAlmost` | محرك_الجدولة/الأدارة/مُدير_قائمة_الأنتظار.c:22-33 | a process that waits moves from ready to the end of the queue |
| `Scheduling.WakeUpKeeps` | محرك_الجدولة/الأدارة/مُدير_قائمة_الأنتظار.c:37-43 | waking a queue moves exactly its processes to ready and empties it |
| `Scheduling.WakeUpOneKeeps` | محرك_الجدولة/الأدارة/مُدير_قائمة_الأنتظار.c:47-60 | waking one takes the first in order of arrival |
| `Scheduling.ExitGone` | محرك_العمليات/محرك_العمليات.c:209-237 | after exit the process is in no list and its pid is free |
| `CallEffects.Created` | محرك_العمليات/محرك_العمليات.c:31-99 | with memory and a pid left, creating registers the process under the least free pid from 1 to 255, at nice 0, in no list, not started and ready to be started; all else is as before |
| `CallEffects.NotCreated` | محرك_العمليات/محرك_العمليات.c:31-99 | without memory or a free pid nothing changes |
| `CallEffects.Started` | محرك_العمليات/محرك_العمليات.c:135-138 | starting appends the process to the ready list at the least run time there and changes nothing else |
| `CallEffects.Switches` | محرك_العمليات/محرك_العمليات.c:173-193 | after a timer interrupt the first ready process of least run time runs, and the idle one if none is ready |
| `CallEffects.Waits` | محرك_الجدولة/الأدارة/مُدير_قائمة_الأنتظار.c:22-33 | a waiting process goes to the end of its queue, whatever the tick then does; no other queue changes |
| `CallEffects.Wakes` | محرك_الجدولة/الأدارة/مُدير_قائمة_الأنتظار.c:37-43 | waking appends the whole queue to the ready list, in order and at the least run time there, and changes nothing else |
| `CallEffects.WakesOne` | محرك_الجدولة/الأدارة/مُدير_قائمة_الأنتظار.c:47-60 | waking one appends the first of the queue |
| `CallEffects.Exits` | محرك_العمليات/محرك_العمليات.c:209-237 | an exit takes the process, its pid and its place in the lists away and nothing else, and another process runs |
| `CallEffects.ChargeExact` | محرك_الجدولة/محرك_الجدولة.c:22-24 | the cost of a tick is the whole quotient of 1024 by the weight, and the weight that of 1024 by the nice value plus one |
| `CallEffects.FirstProcess` | محرك_العمليات/محرك_العمليات.c:31-193 | from start-up, a process created and started runs after the next tick |
| `Scheduling.StepKeeps` | محرك_الجدولة/محرك_الجدولة.c:47-151 | create, start, timer, sleep, wait, wake, exit all keep: each started process in exactly one list exactly once, pids distinct, the minimum at most every ready run time; none lowers the minimum |
| `Scheduling.RunKeeps` | محرك_الجدولة/محرك_الجدولة.c:47-151 | so does every run |
| `Scheduling.BootInv` | محرك_الجدولة/محرك_الجدولة.c:28-32 | the state after start-up satisfies the invariants |
| `Scheduling.SleeperStep` | محرك_الجدولة/محرك_الجدولة.c:134-142 | a sleeper is touched only by ticks, one off at each, and becomes ready exactly when none is left |
| `Scheduling.SleepExact` | محرك_الجدولة/محرك_الجدولة.c:127-151 | a process put to sleep for n ticks is asleep before the n-th tick and ready at it, whatever else happens |
| `Scheduling.StepClose` | محرك_الجدولة/محرك_الجدولة.c:22-143 | every call but exit keeps all ready run times within one maximum charge of the minimum |
| `Scheduling.RunClose` | محرك_الجدولة/محرك_الجدولة.c:22-143 | so does every run without exits |
| `Scheduling.BootClose` | محرك_الجدولة/محرك_الجدولة.c:28-32 | after start-up all of that holds with a charge of 1 |
| `Scheduling.Fair` | محرك_الجدولة/محرك_الجدولة.c:22-143 | over any run without exits, with no charge above c, the run times charged to two processes that stay ready differ by at most 2c, and by at most c if they start level, whatever their nice values |
| `Scheduling.PaidExactly` | محرك_الجدولة/محرك_الجدولة.c:127-132 | at nice 0 what is charged is the number of ticks a process runs |
| `Scheduling.FairTicks` | محرك_الجدولة/محرك_الجدولة.c:22-143 | with charges of one unit, those numbers of ticks differ by at most 2, and at most 1 if level |
| `KernelSchedulers.KernelScheduler.constructor` | محرك_الجدولة/محرك_الجدولة.c:28-32 | the idle process registered, nothing started |
| `KernelSchedulers.KernelScheduler.SchedulerAdd` | محرك_الجدولة/محرك_الجدولة.c:47-51 | joins the ready list at the current minimum |
| `KernelSchedulers.KernelScheduler.SchedulerRemove` | محرك_الجدولة/محرك_الجدولة.c:53-60 | leaves the ready list, the last entry taking its place |
| `KernelSchedulers.KernelScheduler.SchedulerRemoveFromSleep` | محرك_الجدولة/محرك_الجدولة.c:62-69 | the same for the sleep list |
| `KernelSchedulers.KernelScheduler.UpdateMinVruntime` | محرك_الجدولة/محرك_الجدولة.c:36-43 | the minimum set to the least ready run time |
| `KernelSchedulers.KernelScheduler.SchedulerNext` | محرك_الجدولة/محرك_الجدولة.c:86-96 | the earliest ready process of least run time, or the idle one |
| `KernelSchedulers.KernelScheduler.PayRunning` | محرك_الجدولة/محرك_الجدولة.c:127-132 | the running process pays one tick and the minimum follows |
| `KernelSchedulers.KernelScheduler.SchedulerTick` | محرك_الجدولة/محرك_الجدولة.c:127-143 | payment and the sleep loop in place |
| `KernelSchedulers.KernelScheduler.TimerInterrupt` | محرك_العمليات/محرك_العمليات.c:173-193 | tick, then switch to the process picked; invariants hold again afterwards |
| `KernelSchedulers.KernelScheduler.SleepFor` | محرك_الجدولة/الأدارة/مُدير_راحة_العمليات.c:21-30 | sleep for n ticks; nothing happens for n of zero or less |
| `KernelSchedulers.KernelScheduler.WaitOn` | محرك_الجدولة/الأدارة/مُدير_قائمة_الأنتظار.c:22-33 | join a wait queue and yield |
| `KernelSchedulers.KernelScheduler.WakeUpAll` | محرك_الجدولة/الأدارة/مُدير_قائمة_الأنتظار.c:37-43 | the loop over a queue, then the queue emptied |
| `KernelSchedulers.KernelScheduler.WakeUpFirst` | محرك_الجدولة/الأدارة/مُدير_قائمة_الأنتظار.c:47-60 | the first entry taken out by shifting the others down |
| `KernelSchedulers.KernelScheduler.AllocatePid` | محرك_العمليات/مدير_عمليات_النواه/مدير_عمليات_النواه.c:23-32 | the lowest free pid |
| `KernelSchedulers.KernelScheduler.CreateProcess` | محرك_العمليات/محرك_العمليات.c:31-99 | a process registered under a free pid, or nothing when pids or memory ran out |
| `KernelSchedulers.KernelScheduler.ProcessStart` | محرك_العمليات/محرك_العمليات.c:135-138 | the process made ready |
| `KernelSchedulers.KernelScheduler.ProcessExitCurrent` | محرك_العمليات/محرك_العمليات.c:209-237 | the running process gone from every list and the table, another one picked |

## Left out

What a contract above states more weakly than the code's full behaviour:

- KernelHeaps.KernelHeap.Kmalloc: sizes above 2^64 - 48, and sizes no free block fits for which `heap_current + bytes` reaches 2^64, are excluded; there the code goes on to clear memory past the block or past the mapped range, and what that does is not modelled. `NeededCovers`, `MallocExact` and `WrappedGrant` state what is granted in those cases.
- KernelHeaps.KernelHeap.Kfree: an address inside the heap is assumed to have some word where a header would be; what such words hold is otherwise arbitrary, except that user data is assumed not to imitate a block header.
- KernelHeaps.KernelHeap.HeapMapOnePage: the page mapping behind heap growth is abstracted to a count of frames left; `MapPageProof.MapPage` is the mapping itself.
- HeapBlocks.RunKeeps: runs in which some allocation has a size above 2^64 - 48, or finds no free block and has `heap_current + bytes` at 2^64 or above, are excluded (`SafeRun`); `RunExact` shows that those are exactly the runs that go wrong. The memory there is, mapped or not, ends below 2^64.
- HeapBlocks.RunUsed: the same runs.
- HeapBlocks.LiveUntilFreed: the same runs.
- MapPageProof.MapPage: attributes below 0x1000 only, and enough free frames for the missing tables; with none left the code writes through frame 0 (`OutOfFrames`).
- AddressSpaceProof.CreateMapDestroy: mapped pages lie above the first 512 GB and get fresh frames; the few bytes of heap a space descriptor takes are not counted.
- MemoryRuns.KernelHalfStaysShared: leaf frames belong to the space that maps them (`MayMap`); a frame mapped into two spaces would be freed twice.
- JitCompiler.JitBuffer.CompileFunction: code below 2 GB; beyond it displacements do not fit and the code refuses. Helper buffers always get their memory.
- Agreement.FunctionAgrees: every subtree must evaluate, also the right side of `&&` and `||`: compiled code evaluates both sides while the interpreter stops early, and a failing helper leaves an unknown value where the interpreter stops. What the trace holds after a return without a value is not specified.
- Agreement.ExprAgrees: call-free numeric trees, with the same condition.
- Relocation.LinesRun: the same conditions.
- SourceText.SourceRuns: the same, and number literals that are whole and convert to a double and back; other literals have no text without rounding. A line arrives as its kind with the text of its expression.
- ExecFile.LoadNamed: names and parameter names free of NUL, parameter names free of line feeds, fewer than 65536 parameters, a file below 4 GB.
- MathRoundTrip.ParseShow: names as the parser can read them, and no NUL, at which a C text ends.
- Scheduling.Fair: no exits in the window, as the exit path picks without a tick.
- Scheduling.SleepExact: counted in ticks; `sleep_ms` only converts milliseconds.

Not modelled:

- Text values, their trace pointers and their copying; the second register that carries them.
- The helper called between setting the name register and storing a variable is assumed to keep that register for numeric values (it is caller-saved, section 3.2.1 of the System V AMD64 psABI).
- Array declarations and array elements in compiled code; function calls, built-ins and built-in variables (screen, mouse, clock), which depend on the outside world.
- Splitting source text into lines and recognising a line's kind; the keyboard condition, raw-path lines and structures. A line arrives here as its kind with the text of its expression.
- Finding the body of a condition in its line (`mc_extract_if_cond`), and the check that a tree contains only supported nodes.
- Reference counts, text elements and literals of arrays.
- The allocator's early pool and the switch of the page-table register.
- The contents of heap payloads: that they are cleared is modelled only as far as block headers are concerned.
- What stays registered when loading a library fails half way.
- Remapping of the heap's own virtual range over the identity map: frames are addressed directly.
- Interrupts in the middle of wait, sleep or process creation; each call is one step, a yield is a tick followed by a pick. Only the running, non-idle process sleeps, waits or exits, and nice lies in 0..1023. The initial stack of a process and the saving of registers.
- 64-bit wrap-around of run times and of the tick counter.
- Failing memory requests inside the compiler, the parser, the loader and array creation, beyond those stated.
- Drivers, file system, start-up code, the image maker and the shell: plumbing, or no intended property that holds of the code as written.
