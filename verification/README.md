# Verified models of the Glyim compiler

Dafny models of five parts of the Glyim compiler, each proved over all inputs or all runs. `dafny verify
dfyconfig.toml` checks the whole project.

**Bytecode compiler, peephole pass and machine.** `Mir` and `MirRun` give the intermediate language and its
meaning on 64-bit integers, `VmSpec` the stack machine as a step relation over frames, stack and memory, and
`CodegenSpec` the bytes of every construct. `Codegen` is the emitter that pushes bytes into a buffer and
`Machine` the interpreter loop that mutates frames and stack; each is proved against its specification.
`CompilerCorrectness` proves that compiled code ends with a result if and only if the source program does.
`VmSafety` has the call stack invariants, `Peephole` the decoder, the encoder and the optimising pass,
`DecodeCorrectness` and `PeepholeCorrectness` what they keep, `PassMeaning` what the pass puts out, `OptimizedBlocks`
what a whole optimised body does, `Int64` and `Wire` wrap-around arithmetic and little-endian words. `BitLaws`,
`MirLaws`, `CompiledConstants` and `VmLaws` say in numbers, bits and places on the stack what operators, constants,
branches, calls and the other instructions do, without the functions that compute it.

**Borrow checker.** `Dataflow` is the theory all worklists share: what a solution holds, told as paths, and why
recomputing one node at a time reaches the least one. `Visitor`, `Liveness`, `Reservation` (two-phase borrows),
`Places`, `PlacesPrecision` and `PlacesNormal` (overlap of places), `Moves`, `MoveFlow` and `MoveOrder` are the
analyses with their loops, `Borrowck` the check that puts them together. `LoanNeed` says which loans are needed,
`LoanConflicts` which conflicts the check finds and which not, and `MissedConflicts` has bodies on which it misses one.
`VisitorLaws`, `BorrowTable` and `MovePlaces` say what reads, which borrows exclude each other and what moves, by
places and kinds alone; `LivenessMeaning` shows what liveness is good for: dead locals make no difference to a run.

**GSX reactivity and blueprints.** `GsxExpr` and `GsxRun` give view expressions and their meaning, `Reactivity` and
`ReactivitySets` the read and write sets, `ReactivityCorrectness` the noninterference theorem that justifies leaving a
slot alone, `ListOperations` the operations on lists and cells that decide which methods write. `Blueprint`,
`ViewEncode` and `ViewDecode` encode view trees into 32-bit words and read them back.

**Lexer.** `Lexer` says how many characters each kind of token takes, `Scanner` is the scanner with its position,
`LexerCorrectness` shows that it loses nothing and that tokens stand on their own, `TokenGrammar` that each token is
what a grammar of the language says it is.

**Layouts and constant evaluation.** `Layout` computes layouts with and without a cache, `LayoutCorrectness` shows
that they are sound and `LayoutExact` that none is tighter. `ConstValue` and `ConstEval` give the values and the
reference recursion of the constant evaluator, `ConstEvaluator` the evaluator with its mutable scopes,
`ConstEvalCorrectness`, `ConstScopes` and `ConstRange` exact arithmetic, scope discipline and ranges. `ConstMeaning`
gives expressions a meaning on mathematical integers and truth values, and shows that evaluation gives exactly that.

Where the code falls short of what it is for, the code is kept as it is: a lemma gives an input that shows it,
and the property is proved under the exact condition where there is one. These are:

- Later switch arms win in the machine and arm values are cut to 64 bits (`SwitchExact`); `!` on an integer is logical
  in the machine (`IntegerNotExact`).
- The decoder reads the first operand bytes of assert, switch and call again where later ones belong, so these survive
  it only if the bytes repeat (`EncodeDecode`, `AssertExact`, `DecodeCorrectness.SwitchExact`, `CallExact`), and
  folding a remainder by zero, or of MIN by -1, panics (`PanicsExactly`).
- The borrow check looks at no access for the target of a borrowing assignment, a move out of what is shared or
  reserved, the end of storage, the activation of a two-phase loan, an index, or a use in what it takes for a
  reservation (`UnseenKinds`, `BorrowTargetMissed`, `MoveOutMissed`, `StorageEndMissed`, `DanglingMissed`,
  `ActivationMissed`, `IndexMissed`, `EarlyUseMissed`). Of the other conflicts with a needed loan none goes unreported
  if its reference is never passed on, written through or returned and the block's own terminator is not what needs it
  (`NoneMissed`). A copy of the reference and its return are not followed, a write through it counts as redefining it,
  and a block's own terminator is not looked at, so otherwise conflicts are missed (`MissedExactly`, `CopyMissed`,
  `ReturnedMissed`, `WriteThroughMissed`, `LateReadMissed`). A loan nobody needs is kept when a read is found past the
  end of the reference's storage, a drop or a call that sets it (`ActiveVersusNeeded`).
- The two-phase analysis loses a point, or never ends, when its loan's block is not quiet (`ReservationExact`,
  `RingNeverEnds`); block summaries of moves forget order (`SummaryVersusStatements`, `SecondMoveMissed`), an
  assignment initialises its destination ahead of moving its operands (`SelfMoveExact`, `SelfMoveReported`), and uses
  and moves in terminators are not looked at (`CallMovesMissed`).
- With optimisation on, block offsets are those of the unoptimised code: they stay right if the pass changes the last
  block only (`OptimizedCorrect`, `OffsetsGoStale`).
- Past a subslice the overlap test compares offsets into windows that may start at different elements
  (`AlignedIsDisjoint`, `SettledExact`, `SlicedElementsExact`, `SliceAndElementExact`, `InnerSubsliceUnsound`).
- The read set of `.len()` and its like is empty, and receivers and `&mut` arguments are not searched for writes
  (`LengthMissed`, `ReceiverWriteMissed`, `BorrowedArgumentMissed`); with sets that do, noninterference holds without
  such limits (`FullNoninterference`). The comments in crates/glyim-gsx/src/analysis.rs say an opaque expression reads
  everything; the code lets it read nothing, and the model follows the code.
- A region without a slot leaves a marker without an anchor (`MarkersPairExactly`).
- An enum's alignment does not take its tag into account (`TagAlignedExactly`), and there is no layout for 65537 to
  2^24 variants, while beyond that, up to 2^32, there is one again (`TagPowerExactly`, `TagTooWide`,
  `UnitEnumExactly`).
- A range takes the type of its elements from its start (`RangeElementsExact`) and is cut off silently after a million
  elements (`LongRangeCut`); `true as bool` is false (`BoolCastLost`); an error in a statement of a block or in
  binding a parameter leaves its scope behind (`BlockRestoresExactly`, `InvocationRestoresExactly`,
  `ErrorLeaksScope`).
- A `let` in an inner block overwrites the same name of a block around it (`LetOverwrites`); a literal pattern without
  a suffix matches no value of another integer type (`LiteralPatternMissed`); after `break`, `continue` or `return`
  the rest of the block is still evaluated (`BreakRunsOn`, `ReturnRunsOn`, `ReturnIgnored`), so they mean what they
  should where nothing is left to do in between (`EvaluateMeans`).

## Model

| member | source | states |
|---|---|---|
| CompilerCorrectness.CompilerCorrect | crates/glyim-codegen/src/lib.rs:489-509 | Compiler correctness at O0. On every scalar body with folded constants, no integer `!`, faithful switches and code within the size limit of a vector, the compiled program ends on the machine with result r (value, trap or failed assert) if and only if the MIR does; so the two also run forever together. |
| CompilerCorrectness.RunSim | crates/glyim-bytecode-vm/src/lib.rs:409-631 | The simulation over whole runs, started at any block's offset with an empty operand stack and any locals: the machine reaches what MIR reaches after n blocks (the next block's offset with empty stack and the updated locals, or the return of local 0, or the error), in at least as many steps. |
| CompilerCorrectness.BlockSim | crates/glyim-codegen/src/lib.rs:497-503 | One MIR block is one or more machine steps with the same outcome, over any frames below. |
| CompilerCorrectness.StatementSim | crates/glyim-codegen/src/lib.rs:862-983 | The bytes of a statement leave the same locals as the statement and the operand stack as it was. |
| CompilerCorrectness.TerminatorSim | crates/glyim-codegen/src/lib.rs:1133-1263 | The bytes of a terminator go where the terminator goes, or end as it ends. |
| CompilerCorrectness.BlockAtOffset | crates/glyim-codegen/src/lib.rs:497-503 | The recorded offset of each block is where its bytes stand. |
| CompilerCorrectness.SwitchExact | crates/glyim-codegen/src/lib.rs:1159-1204 | The emitted switch takes the MIR's branch for every discriminant if and only if its arms are faithful: a boolean switch of the one expected shape, or arms whose last match after truncation to 64 bits (the machine lets later arms win) leads where the first match of the value does. |
| CompilerCorrectness.DistinctArmsFaithful | crates/glyim-codegen/src/lib.rs:1183-1203 | Arms that are sign-extended 64-bit values, all different after truncation, are faithful. |
| CompilerCorrectness.IntegerNotExact | crates/glyim-bytecode-vm/src/lib.rs:660-666 | OP_NOT is logical: on an integer it agrees with MIR's `!` only at -1, on a boolean always. |
| CompilerCorrectness.DropSim | crates/glyim-codegen/src/lib.rs:1255-1261 | A drop, which takes an address and throws it away, changes no local and goes to its target. |
| VmSafety.ReachableInv | crates/glyim-bytecode-vm/src/lib.rs:370-400 | In every state of every run there are at most 1024 frames and each names a function of the module. |
| VmSafety.StepFrames | crates/glyim-bytecode-vm/src/lib.rs:409-631 | A step that goes on works in the top frame, pushes exactly one, or pops exactly one. |
| VmSafety.BelowUnchanged | crates/glyim-bytecode-vm/src/lib.rs:583-625 | While a run stays above depth d, the frames below d are untouched and where frame d returns to is unchanged. |
| VmSafety.CallReturn | crates/glyim-bytecode-vm/src/lib.rs:583-625 | Between a call and its matching return every frame below the caller is untouched; the caller differs from what it was at the call only in its pc, which is the resume block, and in its destination slot, which takes the top of the stack (0 if empty). |
| VmSafety.CallOperands | crates/glyim-bytecode-vm/src/lib.rs:607-625 | The slot and the block a callee returns to are the operands of the instruction that called it. |
| VmSafety.PanicOnlyAtEnd | crates/glyim-bytecode-vm/src/lib.rs:488-534 | The only host panic a run can meet is a cast or assert opcode that is the last byte of the code. |
| Machine.Vm.RunModule | crates/glyim-bytecode-vm/src/lib.rs:341-350 | The imperative machine started on a module gives what the step relation gives from the start state. |
| Machine.Vm.Drive | crates/glyim-bytecode-vm/src/lib.rs:409-631 | The driver loop refines the step relation, instruction by instruction, on the whole state. |
| Machine.Vm.ExecuteOne | crates/glyim-bytecode-vm/src/lib.rs:420-630 | One dispatched opcode changes stack and frames exactly as the step relation says, or stops with its error. |
| Machine.Vm.StoreLocalSlot | crates/glyim-bytecode-vm/src/lib.rs:673-696 | Writing a local also writes its image in memory, a tuple slot by slot; a bad slot is an error and writes nothing. |
| Machine.Vm.Enter | crates/glyim-bytecode-vm/src/lib.rs:370-400 | Entering a function pushes one frame with the arguments in its first locals, or fails at the depth limit or on an unknown function and pushes nothing. |
| Machine.Vm.DoSwitch | crates/glyim-bytecode-vm/src/lib.rs:505-523 | The switch scans all its arms and jumps where the last that matches says, else to the default; truncated arms are an error. |
| Machine.Vm.DoCall | crates/glyim-bytecode-vm/src/lib.rs:607-625 | A call pops its arguments in reverse and enters the callee, or stops with the error the step relation names. |
| VmLaws.CallArguments | crates/glyim-bytecode-vm/src/lib.rs:370-405 | A step that pushes a frame is a call, and told from the stack alone: with argc the word behind the opcode, the callee's local k is the k-th of the topmost argc operands, the later locals are 0, their number is the larger of what the function has and argc, the function is the operand below the arguments, and these are gone from the stack. |
| VmLaws.CallGoesThrough | crates/glyim-bytecode-vm/src/lib.rs:607-625 | A call whose words and operands are there, of a function that exists and below the depth limit, pushes its frame. |
| VmLaws.OperatorStep | crates/glyim-bytecode-vm/src/lib.rs:460-482 | The operand below the top is the left one, the top the right one; their result, as BinaryMeans describes it, takes their place, and the run fails where there is none. |
| VmLaws.LocalSteps | crates/glyim-bytecode-vm/src/lib.rs:436-445 | A load pushes the named local; a store moves the top into that local and its image in memory, a tuple's elements behind it, and changes nothing else. |
| VmLaws.DerefStep | crates/glyim-bytecode-vm/src/lib.rs:455-459 | A load through an address puts that slot of memory in the address's place. |
| VmLaws.StoreFieldStep | crates/glyim-bytecode-vm/src/lib.rs:450-454 | A store takes the address from the top, the value from below it, and changes that slot alone. |
| VmLaws.TupleSteps | crates/glyim-bytecode-vm/src/lib.rs:552-560 | An aggregate keeps its operands in the order they were pushed. |
| VmLaws.RepeatStep | crates/glyim-bytecode-vm/src/lib.rs:568-582 | A repeat makes as many copies of the operand below the top as the top says, none if it is negative. |
| VmLaws.LengthStep | crates/glyim-bytecode-vm/src/lib.rs:536-544 | A length is the number of elements of the named local, 0 for a number. |
| VmLaws.DiscriminantStep | crates/glyim-bytecode-vm/src/lib.rs:545-551 | A discriminant is the number of elements of the top of the stack, 0 for a number. |
| Machine.Vm.DoReturn | crates/glyim-bytecode-vm/src/lib.rs:583-606 | A return ends the run in the last frame and otherwise stores the value and resumes the caller. |
| Machine.Vm.PopValue | crates/glyim-bytecode-vm/src/lib.rs:716-719 | Popping takes the top value and no other; an empty stack is an underflow and nothing changes. |
| Machine.Vm.NextI64 | crates/glyim-bytecode-vm/src/lib.rs:730-740 | An immediate is eight little-endian bytes at the pc, which moves past them; a short read is an error and moves nothing. |
| Codegen.Backend.GenerateFunctionWithBlocks | crates/glyim-codegen/src/lib.rs:489-509 | The emitter returns the whole body's bytes and each block's offset; above O0 the bytes have been through the peephole pass and the offsets have not; an unfolded constant is the only error. |
| Codegen.Backend.EmitOperand | crates/glyim-codegen/src/lib.rs:984-1132 | Appends the bytes of the operand and one flag per constant, or fails exactly on an unfolded constant. |
| MirLaws.ConstantBytes | crates/glyim-codegen/src/lib.rs:1002-1022 | Behind the opcode of a load stand eight bytes that read, least significant first, as 1 for `true`, 0 for `false` and unit, the code point of a character, and the 64-bit number congruent to a signed or unsigned integer. |
| CompiledConstants.ConstantReturned | crates/glyim-codegen/src/lib.rs:1002-1022 | The machine, run on the compiled body that returns a constant, ends with the number the constant denotes. |
| MirLaws.BinaryMeans | crates/glyim-bytecode-vm/src/lib.rs:633-658 | Every binary operator of the reference computes what it should: sums and products modulo 2^64, the quotient toward zero with its remainder, order, truth, each bit of `&`, or and exclusive or, shifts as multiples and rounded quotients; it fails if and only if there is no quotient. The machine's operators are tied to the same description by VmLaws.OperatorStep. |
| MirLaws.UnaryMeans | crates/glyim-bytecode-vm/src/lib.rs:660-666 | Minus is the inverse modulo 2^64; `!` turns round the truth of a boolean and every bit of an integer. |
| MirLaws.SwitchMeans | crates/glyim-codegen/src/lib.rs:1159-1242 | A switch goes to the first arm that holds the discriminant, otherwise to its default. |
| MirLaws.TruthBranches | crates/glyim-codegen/src/lib.rs:1159-1242 | A boolean switch on `true` goes to its first arm for 1, on `false` to its first arm for 0. |
| MirLaws.AssertMeans | crates/glyim-codegen/src/lib.rs:1243-1254 | An assert goes on if and only if the truth of its condition is the one expected; the constant `true` is 1 there and `false` 0. |
| BitLaws.BitwiseBits | crates/glyim-bytecode-vm/src/lib.rs:633-658 | Each bit of the result of `&`, or and exclusive or is theirs of the operands' bits. |
| BitLaws.Shifts | crates/glyim-bytecode-vm/src/lib.rs:633-658 | A left shift multiplies by the power of two modulo 2^64, a right shift rounds the quotient down, with the shift taken modulo 64. |
| Codegen.Backend.EmitRvalue | crates/glyim-codegen/src/lib.rs:886-983 | Appends operands, then the opcode, in that order. |
| Codegen.Backend.EmitStatement | crates/glyim-codegen/src/lib.rs:862-885 | Appends the rvalue and the store to the destination local. |
| Codegen.Backend.EmitTerminator | crates/glyim-codegen/src/lib.rs:1133-1263 | Appends the bytes of the terminator; those are the bytes TerminatorSim runs. |
| Codegen.Backend.EmitSwitch | crates/glyim-codegen/src/lib.rs:1159-1204 | A boolean switch becomes a conditional jump to its first arm and a jump to the default; any other is written arm by arm. |
| PeepholeCorrectness.PeepholePreserves | crates/glyim-codegen/src/lib.rs:659-699 | The pass preserves the result of every straight-line list, loads and stores through addresses, drops and traps included, from every all-integer state deep enough for the original not to underflow. |
| PassMeaning.PassIs | crates/glyim-codegen/src/lib.rs:659-699 | What the pass puts out, told place by place without its loop: two integer constants and an operator with a result of them become one load of that result, of negations in a row the last is kept if their number is odd, everything else stays. So nothing that can be folded is left, and nothing else is touched. |
| OptimizedBlocks.OptimizedCorrect | crates/glyim-codegen/src/lib.rs:489-509 | A body compiled with optimisation, of any number of blocks: if the pass does not panic, the last block only returns or traps, and the pass leaves what stands ahead of it as it was (so that the recorded offsets stay right), the optimised code ends with r if and only if the MIR does. |
| OptimizedBlocks.OnlyLastChanges | crates/glyim-codegen/src/lib.rs:659-699 | Then the bytes differ in the last block alone, which is what the pass makes of it on its own. |
| OptimizedBlocks.SizedKept | crates/glyim-codegen/src/lib.rs:659-699 | Fixed-width code ahead of the last block in which no turn of the pass folds or cancels meets the condition; so does a single block. |
| OptimizedBlocks.OffsetsGoStale | crates/glyim-codegen/src/lib.rs:485-509 | Otherwise offsets can go stale: a body of two blocks that returns 5 returns 0 when compiled with optimisation, because the jump goes to the old offset. |
| PeepholeCorrectness.PanicsExactly | crates/glyim-codegen/src/lib.rs:587-611 | The pass panics if and only if a remainder of two integer constants, by zero or MIN by -1, stands where the pass looks. |
| PeepholeCorrectness.FoldAgrees | crates/glyim-codegen/src/lib.rs:587-611 | Where folding gives a constant it is the machine's result; where it gives none or panics the machine traps. |
| PeepholeCorrectness.FoldEff | crates/glyim-codegen/src/lib.rs:667-687 | Two constant loads and a foldable operator push what a load of the folded constant pushes. |
| PeepholeCorrectness.DoubleNegEff | crates/glyim-codegen/src/lib.rs:690-692 | Two negations of an integer leave the stack as it was, also at MIN. |
| PeepholeCorrectness.CodeRun | crates/glyim-bytecode-vm/src/lib.rs:409-631 | The machine started at an instruction list's first byte ends with the list's own result. |
| PeepholeCorrectness.NoUnderflow | crates/glyim-codegen/src/lib.rs:862-983 | Compiled code never underflows the operand stack. |
| DecodeCorrectness.DecodeEncode | crates/glyim-codegen/src/lib.rs:713-834 | Decoding the encoding of any fixed-width instructions gives them back. |
| DecodeCorrectness.EncodeDecode | crates/glyim-codegen/src/lib.rs:713-834 | Encoding what was decoded gives the bytes back if and only if every assert, switch and call decoded at top level survives; all other instructions do, aggregates with nested operands included. |
| DecodeCorrectness.OperandExact | crates/glyim-codegen/src/lib.rs:728-821 | An operand is kept exactly when the bytes the decoder takes from its start are the bytes that belong there: four after an assert's first, each pair and the default of a switch, the last eight of a call. |
| DecodeCorrectness.AssertExact | crates/glyim-codegen/src/lib.rs:743-750 | A lone assert survives exactly when its target bytes all equal its expectation byte. |
| DecodeCorrectness.SwitchExact | crates/glyim-codegen/src/lib.rs:798-815 | A switch with any arms survives exactly when its default is its count, byte for byte, and each of its pairs is its first twelve operand bytes. |
| DecodeCorrectness.CallExact | crates/glyim-codegen/src/lib.rs:773-796 | A direct or indirect call with any fixed-width arguments, if decoding does not panic, survives exactly when its eight trailing bytes are its first eight operand bytes. |
| Peephole.RunDecodeOperand | crates/glyim-codegen/src/lib.rs:728-821 | The recursive operand decoder computes the operand and its length, and ends on all bytes. |
| Peephole.RunOptimize | crates/glyim-codegen/src/lib.rs:659-699 | The rewriting loop computes the pass; None is the panic. |
| Int64.DivRemLaw | crates/glyim-bytecode-vm/src/lib.rs:633-659 | Checked division and remainder are defined together and satisfy a = qb + r with r smaller than b in size and r of the sign of a. |
| Wire.I64RoundTrip | crates/glyim-bytecode-vm/src/lib.rs:730-740 | Reading the little-endian bytes of an i64 gives it back. |
| Dataflow.StepKeepsInv | crates/glyim-borrowck/src/liveness.rs:150-186 | Recomputing one pending node keeps the worklist invariant once its dependents are pending again, and sets only grow. |
| Dataflow.DoneExact | crates/glyim-borrowck/src/liveness.rs:124-190 | With nothing pending the sets solve the equations and hold exactly the facts with a generating node on some path and no kill in between. |
| Dataflow.DoneLeast | crates/glyim-borrowck/src/liveness.rs:124-190 | The result is below every other solution. |
| Dataflow.RoomShrinks | crates/glyim-borrowck/src/liveness.rs:150-186 | Every change uses up room, which is why the worklists end. |
| Visitor.BuildEdges | crates/glyim-borrowck/src/visitor.rs:80-130 | Predecessor lists are the successor lists turned round. |
| VisitorLaws.RvalueReadsAre | crates/glyim-borrowck/src/visitor.rs:28-56 | A place is read by an rvalue if and only if it is an operand of it, copied or moved, or is borrowed or looked at by it. |
| VisitorLaws.TerminatorReadsAre | crates/glyim-borrowck/src/visitor.rs:58-76 | A place is read by a terminator if and only if it is its function, an argument, its discriminant or its condition. |
| VisitorLaws.SuccessorsAre | crates/glyim-borrowck/src/visitor.rs:82-125 | A block is a successor if and only if it is the target, an arm, the default or the cleanup block of the terminator. |
| LivenessMeaning.TargetIsSuccessor | crates/glyim-borrowck/src/visitor.rs:82-125 | Wherever running a terminator leads is one of its successors. |
| Liveness.ComputeLiveness | crates/glyim-borrowck/src/liveness.rs:124-190 | The worklist ends, and live_out(B) is exactly the locals that some path of blocks from a successor of B leads to an exposed use of, with no definition on the way. |
| LivenessMeaning.LiveDecides | crates/glyim-borrowck/src/liveness.rs:124-190 | Two runs of a scalar body that start in one block with locals alike where they are live (and in the returned one) take the same blocks and end alike. |
| LivenessMeaning.DeadCanChange | crates/glyim-borrowck/src/liveness.rs:124-190 | A local outside the live-out set of a block can be changed on leaving it without any effect on the rest of the run. |
| Liveness.ComputeBlockSummaries | crates/glyim-borrowck/src/liveness.rs:65-122 | The forward scan computes uses and defs of every block. |
| Liveness.ComputeStmtLiveness | crates/glyim-borrowck/src/liveness.rs:202-242 | The backward scan leaves, before each statement, the scan of the statements from there. |
| Liveness.SummaryExact | crates/glyim-borrowck/src/liveness.rs:65-122 | uses are the reads of a block before any definition, defs the locals it defines. |
| Liveness.SummaryIsScan | crates/glyim-borrowck/src/liveness.rs:65-106 | The forward-built summary and the backward scan are one set transformer on every block that ends no storage and for every exit set; with StorageDead the scan can only be smaller. |
| Liveness.ScanExact | crates/glyim-borrowck/src/liveness.rs:202-242 | A local is live before a statement exactly when a later one reads it first, or none touches it and it is live at the end. |
| Liveness.StmtLivenessExact | crates/glyim-borrowck/src/liveness.rs:202-242 | The two analyses together: live before a statement means read ahead in the block or, untouched to its end, in a later block. |
| Liveness.ArrivesIsLaterRead | crates/glyim-borrowck/src/liveness.rs:124-190 | The dataflow fact is a read in a later block along some path, before anything redefines the local. |
| Places.NoConflictIsDisjoint | crates/glyim-borrowck/src/visitor.rs:137-281 | When the overlap test says no, the two places share no location, for every value of the index locals and every length, on well-typed places in which a subslice can only come last. |
| Places.AlignedIsDisjoint | crates/glyim-borrowck/src/visitor.rs:137-281 | Subslices may stand anywhere as long as those both places pass start at the same offset and none is passed against an element: then too a no means that no run that can evaluate both places makes them share a location. |
| Places.SlicedElementsExact | crates/glyim-borrowck/src/visitor.rs:220-240 | After any common prefix, for constant elements of two subslices, in their windows: a no is wrong if and only if the offsets differ and the sums of window start and offset agree. |
| Places.SliceAndElementExact | crates/glyim-borrowck/src/visitor.rs:242-267 | The same for an element of a subslice against an element of an element. |
| PlacesPrecision.ConflictExact | crates/glyim-borrowck/src/visitor.rs:137-281 | On well-typed places in which a subslice can only come last, counting from the end and mixed indices included: some run makes them overlap only if the test says yes and their windows and offsets can meet, and if and only if so when one place ends where the test gives up comparing. |
| PlacesPrecision.PlainExact | crates/glyim-borrowck/src/visitor.rs:137-281 | Without subslices, counting from the end and mixed indices the test alone is exact. |
| PlacesNormal.SettledExact | crates/glyim-borrowck/src/visitor.rs:137-281 | For whole places without index locals and with nothing counted from the end, subslices anywhere, offsets are counted from the start of the slice: the places share a location, in every run alike, if and only if what they land on meets. So a no is wrong if and only if the landings meet. |
| PlacesNormal.MeetResolved | crates/glyim-borrowck/src/visitor.rs:137-281 | With index locals and lengths given, any two places share a location if and only if they meet as resolved: prefixes, elements inside windows, or windows that intersect. |
| Places.ConflictSymmetric | crates/glyim-borrowck/src/visitor.rs:137-281 | The overlap test is symmetric. |
| Places.InnerSubsliceUnsound | crates/glyim-borrowck/src/visitor.rs:137-281 | With a subslice further in, the test compares offsets into different windows: two well-typed places it calls disjoint always share an element. |
| Places.RunPlacesConflict | crates/glyim-borrowck/src/visitor.rs:137-281 | The loop over the projections computes the test. |
| ReservationCorrectness.ReservationExact | crates/glyim-borrowck/src/twophase.rs:13-126 | The two-phase worklist ends with exactly the points some unread path from the loan reaches, if and only if the loan's block is quiet (nothing at or before the loan reads the reference, or the block is not reached again unread); it then takes at most one turn for each block. |
| ReservationCorrectness.NotExact | crates/glyim-borrowck/src/twophase.rs:13-126 | In every other case each run that ends has lost the point right after the loan. |
| ReservationCorrectness.StepKeeps | crates/glyim-borrowck/src/twophase.rs:94-116 | A turn that does not transfer the loan's block past an earlier read takes nothing back. |
| ReservationCorrectness.RingNeverEnds | crates/glyim-borrowck/src/twophase.rs:94-116 | A concrete body on which no number of turns empties the worklist. |
| Reservation.Compute | crates/glyim-borrowck/src/twophase.rs:13-126 | The worklist, run for a number of turns, computes that many steps of the model: None if it has not ended. |
| Reservation.Transfer | crates/glyim-borrowck/src/twophase.rs:44-69 | The transfer marks statements reserved until one reads the reference. |
| Borrowck.CheckBorrows | crates/glyim-borrowck/src/lib.rs:410-463 | The errors of a body are exactly its conflicts: an access at a statement or terminator to a place that overlaps the place of a loan, whose reference is live there, in a way the loan forbids (a reserved two-phase loan forbids only writes). |
| BorrowTable.SilentExactly | crates/glyim-borrowck/src/lib.rs:146-392 | The checker reports nothing if and only if, at every point and for every loan active there: a place borrowed there that overlaps the loan's is borrowed shared, and the loan is shared or a two-phase one still reserved; a place read there that overlaps is read under such a loan; no overlapping place is written. |
| BorrowTable.NoTwoExclusive | crates/glyim-borrowck/src/lib.rs:146-164 | In an accepted body, when a place is borrowed while a loan of an overlapping place is live, the new borrow is shared, and so is the loan unless it is two-phase and still reserved. |
| BorrowTable.OffendsTable | crates/glyim-borrowck/src/lib.rs:146-164 | What a loan forbids is told by how an access uses the place: no loan stands being used alone, a shared or reserved one stands being shared. |
| Borrowck.WriteConflictExact | crates/glyim-borrowck/src/lib.rs:370-386 | A non-borrowing assignment to a borrowed place is reported if and only if the statement itself reads the reference or, unless it assigns to the reference or a part of it, a later statement or a later block on some path reads it before anything assigns to it or to a part of it (or, in the same block, ends its storage). Reservation makes no difference. |
| Borrowck.QuietCheckExact | crates/glyim-borrowck/src/lib.rs:129-164 | When all two-phase loans are quiet, as many turns as blocks are enough, and a loan counts as reserved exactly where no path has read its reference yet. |
| LoanNeed.ActiveVersusNeeded | crates/glyim-borrowck/src/lib.rs:424-450 | At every point, with need told by the first touch on each path (a read, a write through the reference or its return needs it; a write to the reference or the end of its storage does not): a loan is dropped exactly when no path reads the reference first, or the block's own terminator is the first to touch it, and no read is found past such a touch; one not needed is kept exactly when such a read is found. |
| LoanNeed.ActiveMeans | crates/glyim-borrowck/src/liveness.rs:202-242 | A loan counts as active exactly when a read is the first touch on some path, or is found past an earlier touch that the analysis does not look at: the block's own terminator, or in a later block the end of the storage or a drop through the reference. |
| LoanNeed.ReadPastTerminator | crates/glyim-borrowck/src/liveness.rs:202-242 | If no storage of the reference is ended and nothing is dropped through it, the only touch looked past is the block's own terminator. |
| LoanNeed.DroppedExactly | crates/glyim-borrowck/src/lib.rs:424-450 | In such a body, away from a terminator that touches the reference, active loans are needed, and a needed loan is dropped exactly when every path that needs it first writes through the reference or returns it. |
| LoanNeed.OnlyTerminatorDiffers | crates/glyim-borrowck/src/lib.rs:424-450 | If nothing in the body writes through the reference and it is not the one returned, a needed loan is dropped exactly when the block's own terminator reads the reference and no later block does; with no storage ended, one not needed is kept exactly when that terminator's call sets the reference and a later block reads it. |
| LoanConflicts.MissedExactly | crates/glyim-borrowck/src/lib.rs:410-463 | Real conflicts are told without the checks: on a run from the loan, an access to an overlapping place comes while a local holding the reference is needed, and the loan forbids it, as a reservation only if that run has not used it. Accesses are reads, borrows and writes, the target of a borrowing assignment, what is moved out, storage that ends (at a return too), the place of a two-phase loan at its first use, and index locals. Such a conflict goes unreported if and only if the checker looks at no offending access to that place there (a test on the statement, the kind of the loan and its reservation), or it has dropped the loan as in ActiveVersusNeeded. |
| LoanConflicts.UnseenKinds | crates/glyim-borrowck/src/lib.rs:268-392 | The conflicts it looks at no access of are: the target of a borrowing assignment, a move out of what is shared or reserved, the end of storage, an activation, an index, and a read or shared borrow during what it takes for a reservation. |
| LoanConflicts.NoneMissed | crates/glyim-borrowck/src/lib.rs:410-463 | No other real conflict goes unreported if the reference is never passed on, written through or returned and the block's own terminator is not the next to touch it. |
| LoanConflicts.MovesAreReads | crates/glyim-borrowck/src/visitor.rs:50-55 | At a move the checker looks at a read of the place and at nothing else. |
| LoanConflicts.HeldAlone | crates/glyim-borrowck/src/lib.rs:424-450 | If no statement passes the reference on, no other local ever holds it. |
| MissedConflicts.BorrowTargetMissed | crates/glyim-borrowck/src/lib.rs:278-319 | The body `r := &p; p := &b; z := r`: the assignment to p is a real conflict, and nothing at all is reported. |
| MissedConflicts.MoveOutMissed | crates/glyim-borrowck/src/lib.rs:325-368 | The same for `r := &p; z := move p; w := r`. |
| MissedConflicts.StorageEndMissed | crates/glyim-borrowck/src/lib.rs:390 | The same for the end of the storage of p in between. |
| MissedConflicts.DanglingMissed | crates/glyim-borrowck/src/visitor.rs:58-61 | The same for a returned reference to a local. |
| MissedConflicts.IndexMissed | crates/glyim-borrowck/src/visitor.rs:50-55 | The same for `r := &mut i; y := a[i]; z := r`. |
| MissedConflicts.CopyMissed | crates/glyim-borrowck/src/lib.rs:424-450 | The same for `r := &p; q := r; p := 5; z := q`, where only a copy is needed. |
| MissedConflicts.ReturnedMissed | crates/glyim-borrowck/src/visitor.rs:58-61 | The same for a place written while a reference to it is returned. |
| MissedConflicts.ActivationMissed | crates/glyim-borrowck/src/lib.rs:278-319 | The same for a two-phase `r := &mut p; s := &p; t := r; u := s`, with the checker's own reservation results for any number of turns. |
| MissedConflicts.EarlyUseMissed | crates/glyim-borrowck/src/twophase.rs:44-69 | The same for a two-phase loan written through and still taken for reserved when its place is read. |
| MissedConflicts.WriteThroughMissed | crates/glyim-borrowck/src/liveness.rs:213-223 | The same for a place written ahead of a write through its reference. |
| MissedConflicts.LateReadMissed | crates/glyim-borrowck/src/lib.rs:424-450 | The same for a place written in a block whose last branch still reads the reference. |
| Borrowck.CollectLoans | crates/glyim-borrowck/src/lib.rs:92-111 | The loans are the borrowing assignments of all blocks, in order, and nothing else. |
| Borrowck.Reserve | crates/glyim-borrowck/src/lib.rs:129-149 | The cache of two-phase results holds, for each loan, what its analysis gives; it exists exactly when all of them ended. |
| Borrowck.ActiveLoans | crates/glyim-borrowck/src/lib.rs:151-164 | The loans looked at are exactly those whose reference is live. |
| Borrowck.CheckStatement | crates/glyim-borrowck/src/lib.rs:266-391 | What a statement adds to the errors: its accesses that conflict with an active loan. |
| Borrowck.CheckTerminator | crates/glyim-borrowck/src/lib.rs:182-262 | The same for a terminator. |
| Moves.ComputeMoveDataflow | crates/glyim-borrowck/src/move_analysis.rs:352-489 | Both move worklists end, and moved_in(B) and dead_in(B) are exactly the paths moved out, or storage-ended, by some block's summary and not initialised by a block on some path to B (nothing is storage-ended on entry to block 0). |
| Moves.SummaryVersusStatements | crates/glyim-borrowck/src/move_analysis.rs:445-447 | Block summaries forget order: a summary is below the composed statement effects and misses exactly the paths that the block moves after initialising them. |
| Moves.DisjointSummaryExact | crates/glyim-borrowck/src/move_analysis.rs:445-447 | Where a block's moves and inits are disjoint, its summary is the composition of its statements. |
| MoveFlow.ArrivesExact | crates/glyim-borrowck/src/move_analysis.rs:352-489 | moved_in(B) and dead_in(B) against whole paths of statements: a path is in the set exactly when some path of blocks moves it last, leaves it alone to B, and does not initialise it in the block it is moved in. |
| MoveFlow.DisjointBodyExact | crates/glyim-borrowck/src/move_analysis.rs:352-489 | Where every block's moves and inits are disjoint, the sets are what the statements say along all paths. |
| Moves.SecondMoveMissed | crates/glyim-borrowck/src/move_analysis.rs:445-447 | A concrete body that moves a local twice with no report. |
| Moves.ScanExact | crates/glyim-borrowck/src/move_analysis.rs:585-658 | A path is moved before a statement exactly when a statement of the block moved it last, or it came in moved and nothing initialised it. |
| Moves.ComputeStmtMoved | crates/glyim-borrowck/src/move_analysis.rs:585-618 | The forward scan keeps those sets for every statement. |
| Moves.CheckMoves | crates/glyim-borrowck/src/move_analysis.rs:664-705 | The errors are exactly the uses of dead or moved paths at statements, in the sense of the dataflow facts and the scan. |
| Moves.UseReportedExactly | crates/glyim-borrowck/src/move_analysis.rs:795-879 | A place is reported at a statement if and only if some use of it there touches a dead path, or a moved one unless the use copies. |
| Moves.CheckUseMeans | crates/glyim-borrowck/src/move_analysis.rs:795-879 | One use is an error exactly then, whichever of the four checks finds it. |
| Moves.FindMeans | crates/glyim-borrowck/src/move_analysis.rs:101-221 | Looking up a place finds the path of its longest tracked prefix, for every declared local and no other. |
| Moves.RunFind | crates/glyim-borrowck/src/move_analysis.rs:101-221 | The walk along the projections finds that path. |
| MoveOrder.SelfMoveExact | crates/glyim-borrowck/src/move_analysis.rs:628-640 | The check initialises the destination of an assignment ahead of moving its operands: it leaves a path moved that has a value again if and only if the assignment moves a path its destination initialises. |
| MoveOrder.SelfMoveReported | crates/glyim-borrowck/src/move_analysis.rs:628-640 | In `x := 5; x := move x; y := move x` the last use is reported although x has a value. |
| MoveOrder.CallMovesMissed | crates/glyim-borrowck/src/move_analysis.rs:664-705 | Terminators neither use nor move anything to the check: a body that moves x three times, two of them as arguments of calls, is silent. |
| Moves.BuildMovePaths | crates/glyim-borrowck/src/move_analysis.rs:236-269 | Each local has a path and each of its fields a child, and there are no others. |
| MovePlaces.MovedMeans | crates/glyim-borrowck/src/move_analysis.rs:500-590 | A path is moved by a statement if and only if that moves the place it stands for (or the local around it) or ends its storage. |
| MovePlaces.InitsMean | crates/glyim-borrowck/src/move_analysis.rs:500-590 | A path has a value again after an assignment to its place or its local and when its storage begins, and after no other statement. |
| MovePlaces.UsesAre | crates/glyim-borrowck/src/move_analysis.rs:664-760 | A statement uses its operands, copied or moved, and what it borrows or looks at. |
| MovePlaces.TouchesMean | crates/glyim-borrowck/src/move_analysis.rs:616-660 | A use of a place touches the tracked place it belongs to; of a whole local also its fields. |
| Moves.ArrivesIsFlow | crates/glyim-borrowck/src/move_analysis.rs:352-489 | The dataflow fact, told as a path of blocks. |
| ReactivityCorrectness.Noninterference | crates/glyim-gsx/src/analysis.rs:100-116 | If the analysis finds no interference between a slot's read set and a handler's write set, running the handler leaves the value of the slot unchanged, for every state, event, host and every slot and handler of the fragment. |
| ReactivityCorrectness.OwningNoninterference | crates/glyim-gsx/src/analysis.rs:100-116 | Noninterference for programs whose methods and functions are the list and cell operations as they are defined: a handler may use any of them on any place, and the slot is unchanged if no interference is found. |
| ReactivityCorrectness.FullNoninterference | crates/glyim-gsx/src/analysis.rs:152-444 | With the sets as they should be (reads also of lengths and elements asked for, writes also in receivers, bases and indices and behind `&mut`) noninterference holds for every slot that keeps the state and every handler. So where the analysis and these sets agree on no, the slot is unchanged. |
| ReactivityCorrectness.HandlerWithin | crates/glyim-gsx/src/analysis.rs:358-444 | On the fragment the write set of the analysis contains all those writes. |
| ReactivityCorrectness.FullFindsThem | crates/glyim-gsx/src/analysis.rs:100-116 | The sets as they should be find the three interferences that the analysis misses. |
| ReactivityCorrectness.SlotStable | crates/glyim-gsx/src/analysis.rs:152-313 | An expression evaluates alike, effects included, in two states that agree on what its read set covers, as the analysis has it or in full. |
| ReactivityCorrectness.HandlerSpares | crates/glyim-gsx/src/analysis.rs:358-444 | A handler, whatever it does, changes nothing at a path that all its writes stay clear of. |
| ReactivityCorrectness.OverlapExact | crates/glyim-gsx/src/analysis.rs:100-109 | Two places interfere if and only if some instance of one is a prefix of some instance of the other. |
| ReactivityCorrectness.LengthMissed | crates/glyim-gsx/src/analysis.rs:186-188 | Outside the fragment: `s.items.len()` reads nothing according to the analysis, and `s.items.push(0)` changes it from 0 to 1. |
| ReactivityCorrectness.ReceiverWriteMissed | crates/glyim-gsx/src/analysis.rs:358-444 | Outside the fragment: `s.items.pop().unwrap()` has an empty write set and empties the list. |
| ReactivityCorrectness.BorrowedArgumentMissed | crates/glyim-gsx/src/analysis.rs:322-332 | Outside the fragment: `clear(&mut s.items)` has an empty write set and clears the list. |
| ReactivitySets.ReadsAre | crates/glyim-gsx/src/analysis.rs:152-281 | The accumulating traversal adds exactly the paths an expression reads, defined on its own. |
| ReactivitySets.WritesAre | crates/glyim-gsx/src/analysis.rs:358-444 | The same for writes. |
| ListOperations.InPlaceExactly | crates/glyim-gsx/src/analysis.rs:454-471 | The methods that change some receiver, of the operations defined on lists and cells, are exactly those the analysis counts as writes. |
| ListOperations.InPlaceCallExactly | crates/glyim-gsx/src/analysis.rs:446-453 | The same for functions and their arguments. |
| ListOperations.MethodWritten | crates/glyim-gsx/src/analysis.rs:358-444 | A method that can change a place is a write of that place, with any arguments, and no other method is. |
| ListOperations.CallWritten | crates/glyim-gsx/src/analysis.rs:358-444 | A call that can change an argument is a write of every place among its arguments, and no other call is. |
| ListOperations.MethodRead | crates/glyim-gsx/src/analysis.rs:152-313 | The receiver of a method is read, except by `.iter()`, `.len()`, `.get()` and `.contains()`. |
| ReactivitySets.ArgReadsAre | crates/glyim-gsx/src/analysis.rs:322-332 | Widening an argument's place to its subtree trades one entry for another of the same path. |
| ReactivitySets.InterferenceIs | crates/glyim-gsx/src/analysis.rs:112-116 | The verdict on the two sets is an overlap between a path read and a path written. |
| Reactivity.Interferes | crates/glyim-gsx/src/analysis.rs:100-109 | The loop over the shorter place computes prefix overlap. |
| Blueprint.WordRoundTrip | crates/glyim-gsx/src/blueprint.rs:137-158 | Decoding undoes encoding of an op if and only if its operands fit their bit fields. |
| Blueprint.WordLayout | crates/glyim-gsx/src/blueprint.rs:38-75 | Every op's word in numbers: the tag from 0 to 5 in the top three bits, a property in the bits from 15 on, everything else from 0 on. |
| Blueprint.StreamRoundTrip | crates/glyim-gsx/src/blueprint.rs:58-88 | A whole op stream survives if and only if every op fits. |
| Blueprint.InternKeeps | crates/glyim-gsx/src/blueprint.rs:77-83 | Interning extends the table, keeps it free of duplicates, and the id names the string. |
| Blueprint.Blueprint.PushOp | crates/glyim-gsx/src/blueprint.rs:58-74 | Pushing appends one encoded word. |
| Blueprint.Blueprint.Decode | crates/glyim-gsx/src/blueprint.rs:86-88 | Decoding decodes every word, in order. |
| Blueprint.Blueprint.Intern | crates/glyim-gsx/src/blueprint.rs:77-83 | Interning finds the first equal string or appends. |
| Blueprint.Blueprint.SlotCount | crates/glyim-gsx/src/blueprint.rs:100-105 | The count is the number of markers in the decoded stream. |
| ViewDecode.ViewRoundTrip | crates/glyim-gsx/src/emit.rs:84-181 | Encoding any view and decoding it in one pass gives the view's skeleton with fragments flattened and the original strings, and every slot anchored at its node, if and only if all of its ops and slots fit their fields. |
| ViewDecode.ViewFills | crates/glyim-gsx/src/emit.rs:84-181 | A view's fills are its text holes in document order, each at the anchor of its slot. |
| ViewDecode.ReadingExact | crates/glyim-gsx/src/blueprint.rs:58-88 | Any readable stream reads the same after encoding and decoding if and only if every op of it fits. |
| ViewDecode.ReadApart | crates/glyim-gsx/src/emit.rs:108-181 | Streams of the same kinds of ops that read alike are the same stream, so reading loses nothing. |
| ViewDecode.ViewFits | crates/glyim-gsx/src/emit.rs:84-181 | Small ids in the tree and a string table within the field of a property's text are enough for that. |
| ViewDecode.ViewStream | crates/glyim-gsx/src/emit.rs:84-181 | The stream of any such view is well bracketed, and its k-th marker is the k-th slot anchor. |
| ViewDecode.MarkersPairExactly | crates/glyim-gsx/src/emit.rs:108-181 | Markers exceed anchors by the number of regions without a slot, so they pair up exactly when every region has one. |
| ViewDecode.MarkersAreAnchors | crates/glyim-gsx/src/emit.rs:108-181 | On any readable stream at all, the k-th marker is the k-th anchor the reader finds. |
| ViewDecode.ReadNests | crates/glyim-gsx/src/emit.rs:108-181 | Any readable stream is bracketed as the reader's stack says. |
| ViewDecode.ReadNode | crates/glyim-gsx/src/emit.rs:108-181 | Reading a node's ops, after any ops that take children and in any larger string table, adds just that node. |
| ViewDecode.NodeFits | crates/glyim-gsx/src/emit.rs:108-181 | The ops of a tree with small ids all fit. |
| ViewEncode.EncodeView | crates/glyim-gsx/src/emit.rs:84-99 | The imperative encoder leaves the ops, strings, anchors, fills and counter of the recursive description. |
| ViewEncode.Encoder.EncodeNode | crates/glyim-gsx/src/emit.rs:108-181 | One node extends ops, strings, anchors, fills and counter by its own contribution and changes nothing before it. |
| LexerCorrectness.Lossless | crates/glyim-frontend/src/lexer.rs:101-458 | Lexing is lossless: on every source the tokens tile the text, with no gap or overlap, and put together they are the text. |
| TokenGrammar.NextIsToken | crates/glyim-frontend/src/lexer.rs:101-990 | What is taken at the front of a text is a token of its kind by a grammar that does not mention the scanner: trivia as blanks, line comments and nested comments, words and the list of keywords, numbers with radix, fraction, exponent and suffix, strings, characters and lifetimes with their escapes, operators. |
| TokenGrammar.TokensAreTokens | crates/glyim-frontend/src/lexer.rs:86-460 | So is every token of a source, at its place. |
| LexerCorrectness.SelfDelimiting | crates/glyim-frontend/src/lexer.rs:101-458 | Lexing the text of any one token of any source gives that token and nothing else. |
| LexerCorrectness.NoAdjacentTrivia | crates/glyim-frontend/src/lexer.rs:460-513 | No two trivia tokens are adjacent. |
| LexerCorrectness.TriviaMaximal | crates/glyim-frontend/src/lexer.rs:460-513 | After the trivia scanner nothing it could take is left. |
| LexerCorrectness.NextCut | crates/glyim-frontend/src/lexer.rs:101-458 | The next token does not depend on what follows it, backtracking and lookahead notwithstanding. |
| LexerCorrectness.TailCut | crates/glyim-frontend/src/lexer.rs:606-652 | Nor does the tail of a number, also when an exponent is given back. |
| LexerCorrectness.LongestOperator | crates/glyim-frontend/src/lexer.rs:774-925 | The operator scanner takes the longest operator at the front. |
| Lexer.Progress | crates/glyim-frontend/src/lexer.rs:101-458 | Every token takes at least one character, so the loop ends. |
| Scanner.Scanner.LexAll | crates/glyim-frontend/src/lexer.rs:101-458 | The scanning loop gives the token sequence and stops at the end of the source. |
| Scanner.Scanner.Lex | crates/glyim-frontend/src/lexer.rs:86-90 | The filtered form drops trivia and nothing else. |
| Scanner.Scanner.LexTrivia | crates/glyim-frontend/src/lexer.rs:460-513 | Skips blanks, line comments and nested block comments in any mixture. |
| Scanner.Scanner.SkipBlock | crates/glyim-frontend/src/lexer.rs:481-504 | Skips to the close of the outermost block comment, or to the end. |
| Scanner.Scanner.LexNumber | crates/glyim-frontend/src/lexer.rs:525-653 | Radix prefixes, digits, fraction, exponent and suffix take what the length functions say. |
| Scanner.Scanner.LexNumberTail | crates/glyim-frontend/src/lexer.rs:606-652 | A bad exponent is given back and the number ends before it. |
| Scanner.Scanner.SkipQuoted | crates/glyim-frontend/src/lexer.rs:680-707 | A string goes to its first unprotected closing quote, or to the end. |
| Scanner.Scanner.LexQuote | crates/glyim-frontend/src/lexer.rs:163-214 | A quote opens a lifetime when a word follows that no quote closes, otherwise a character. |
| Scanner.Scanner.LexOperator | crates/glyim-frontend/src/lexer.rs:774-925 | Consumes exactly the operator at the front. |
| LayoutCorrectness.LayoutSound | crates/glyim-codegen-llvm/src/abi.rs:158-339 | In every layout the recursion gives: fields of structs and tuples, and every field of every variant of an enum, are aligned, pairwise disjoint and in bounds, the latter past the tag; array elements are aligned, disjoint and in bounds at multiples of the stride; the size is a multiple of the alignment; all for sizes that do not saturate. |
| LayoutExact.LayoutIs | crates/glyim-codegen-llvm/src/abi.rs:158-339 | Every layout that is computed is the one its type should have, from those of its parts and without the recursion: scalars as given, structs and tuples as in StructTight, enums as in EnumTight over their variants, arrays with the least aligned stride, the length modulo 2^64 and a size that saturates. |
| LayoutExact.UnknownExactly | crates/glyim-codegen-llvm/src/abi.rs:158-339 | A type that has a layout has one for every part, a length for every array and a variant for every enum; a type with all these fails by overflow alone. |
| LayoutCorrectness.StructSound | crates/glyim-codegen-llvm/src/abi.rs:311-337 | A struct or tuple whose size does not saturate has its fields aligned, pairwise disjoint and in bounds, and a size that is a multiple of its alignment. |
| LayoutExact.StructTight | crates/glyim-codegen-llvm/src/abi.rs:311-337 | A struct whose size does not saturate has every field at the first aligned place after the one before, the largest alignment of any field, and the first multiple of that as its size; so it is the tightest with its fields in order. |
| LayoutExact.StructLaid | crates/glyim-codegen-llvm/src/abi.rs:311-337 | With room to round up in 64 bits that is the layout it gets: nothing else makes it fail. |
| LayoutCorrectness.EnumSound | crates/glyim-codegen-llvm/src/abi.rs:213-310 | An enum's tag lies before every variant's data, every variant fits, and the size is a multiple of the alignment. |
| LayoutExact.EnumTight | crates/glyim-codegen-llvm/src/abi.rs:213-310 | An enum has its tag at 0 in the fewest bytes that number the variants, its data at the first place past it that suits every variant, the largest alignment of any variant, and the first multiple of that past the largest variant as its size. |
| LayoutExact.EnumLaid | crates/glyim-codegen-llvm/src/abi.rs:213-310 | With room to round up an enum has a layout if and only if the number of its tag's bytes is an alignment. |
| LayoutCorrectness.PayloadSound | crates/glyim-codegen-llvm/src/abi.rs:213-310 | A variant's field, counted from the start of the enum, is past the tag, aligned and in bounds. |
| LayoutCorrectness.TagWide | crates/glyim-codegen-llvm/src/abi.rs:213-260 | For up to 65536 variants the tag is as wide as its type and wide enough to number them. |
| LayoutCorrectness.TagTooWide | crates/glyim-codegen-llvm/src/abi.rs:213-260 | From 65537 to 2^24 variants the tag has three bytes, which is no alignment, and there is no layout. |
| LayoutCorrectness.TagPowerExactly | crates/glyim-codegen-llvm/src/abi.rs:213-260 | Up to 2^32 variants those are the only numbers of variants whose tag is no alignment; above them it has four bytes. |
| LayoutCorrectness.UnitEnumExactly | crates/glyim-codegen-llvm/src/abi.rs:213-310 | So an enum without data of up to 2^32 variants has a layout if and only if it does not have 65537 to 2^24 of them. |
| LayoutCorrectness.TagAlignedExactly | crates/glyim-codegen-llvm/src/abi.rs:213-310 | The enum's alignment takes no account of the tag: the tag is aligned if and only if some variant needs as much. |
| LayoutCorrectness.TagUnderaligned | crates/glyim-codegen-llvm/src/abi.rs:213-310 | A concrete family: over 256 variants without data give a two-byte tag alignment 1. |
| LayoutCorrectness.ArraySound | crates/glyim-codegen-llvm/src/abi.rs:192-209 | Elements lie at multiples of the least stride that keeps them aligned, clear of each other and in bounds; the size is exact unless it saturates. |
| LayoutCorrectness.ArrayMultipleExactly | crates/glyim-codegen-llvm/src/abi.rs:192-209 | An array's size is a multiple of its alignment if and only if it does not saturate or the alignment is one. |
| LayoutCorrectness.AlignToLeast | crates/glyim-layout/src/lib.rs:26-30 | Rounding up gives the least multiple of the alignment that is not below. |
| Layout.LayoutComputer.Get | crates/glyim-codegen-llvm/src/abi.rs:99-112 | The cached answer is the uncached recursion's, the cache stays right, and what it holds is never changed. |
| Layout.LayoutComputer.Compute | crates/glyim-codegen-llvm/src/abi.rs:158-339 | Computing a layout through the cache gives the uncached layout. |
| Layout.PlaceFields | crates/glyim-codegen-llvm/src/abi.rs:311-337 | The field loop gives every field its offset, the running size and the largest alignment. |
| ConstEvalCorrectness.ArithmeticExact | crates/glyim-const-eval/src/value.rs:185-299 | On two in-range integers of one type, each of + - * / % gives exactly the mathematical result when that fits the type at the pointer width, and an error otherwise. |
| ConstEvalCorrectness.NegationExact | crates/glyim-const-eval/src/eval.rs:1122-1150 | Negation too; it is never defined for an unsigned value. |
| ConstEvalCorrectness.DivisionLaw | crates/glyim-const-eval/src/value.rs:242-288 | Quotient and remainder make up the dividend, the remainder smaller than the divisor and of the dividend's sign. |
| ConstEvalCorrectness.CastInRange | crates/glyim-const-eval/src/eval.rs:1485-1525 | A cast that succeeds lands in the range of its target. |
| ConstEvalCorrectness.BoolCastLost | crates/glyim-const-eval/src/eval.rs:1536-1538 | A cast of a boolean to bool gives false, so it keeps the value if and only if that is false. |
| ConstRange.IntegersStayInRange | crates/glyim-const-eval/src/eval.rs:385-698 | Every program of fitting literals, arithmetic, comparisons, branches, patterns, loops, calls and casts that has a consistent typing of its range bounds, taken from fields and elements of aggregates too, evaluates, when it does, to in-range integers of the types the typing says and leaves only such values in scope. |
| ConstRange.RangeElementsExact | crates/glyim-const-eval/src/eval.rs:1558-1619 | Whatever the types of its bounds, a range gives in-range elements if and only if it is empty or the last number it reaches fits the type of its start. |
| ConstRange.MixedRangeOverflows | crates/glyim-const-eval/src/eval.rs:1558-1619 | A concrete range whose elements leave the type of its start. |
| ConstRange.LongRangeCut | crates/glyim-const-eval/src/eval.rs:1558-1619 | How many elements any range gives, inclusive or not: one longer than the limit, or one that includes the largest number there is, is cut off after one element more than the limit, without an error. |
| ConstRange.ElementsFit | crates/glyim-const-eval/src/eval.rs:1558-1619 | The elements of an in-range value are in range. |
| ConstScopes.ScopesRestored | crates/glyim-const-eval/src/eval.rs:385-698 | Every evaluation, successful or not, from any state and at any depth, leaves the scopes it started with and the names of all enclosing ones; one that succeeds restores the depth. |
| ConstScopes.BlockKeepsNames | crates/glyim-const-eval/src/eval.rs:1318-1335 | A block leaves every scope around it with the names it had, whether it succeeds or not. |
| ConstScopes.BlockRestoresExactly | crates/glyim-const-eval/src/eval.rs:1318-1335 | A block restores the depth of the scope stack if and only if its statements succeed and its tail, which may fail, itself restores the depth. |
| ConstScopes.InvocationKeepsNames | crates/glyim-const-eval/src/eval.rs:787-802 | So does a closure or constant function call. |
| ConstScopes.InvocationRestoresExactly | crates/glyim-const-eval/src/eval.rs:787-802 | A call restores the depth if and only if its parameters are bound and its body itself restores the depth. |
| ConstScopes.AssignKeeps | crates/glyim-const-eval/src/eval.rs:371-383 | Assignment keeps all scopes' names, and the innermost one's too when the name is known. |
| ConstScopes.ErrorLeaksScope | crates/glyim-const-eval/src/eval.rs:1318-1335 | A concrete program whose error inside a block leaves the block's scope on the stack. |
| ConstScopes.CycleStops | crates/glyim-const-eval/src/eval.rs:391-398 | An expression of a cycle, in which each starts by evaluating another (a call by its first argument, or without any by the body it invokes), runs into the depth limit from any depth and state. |
| ConstScopes.RecursionFails | crates/glyim-const-eval/src/eval.rs:391-604 | If none of a set of expressions can be evaluated without another of them, as with functions that call each other on every branch, with arguments or without, none of them ever has a value, from any depth and state. |
| ConstEvaluator.Evaluator.EvaluateAtDepth | crates/glyim-const-eval/src/eval.rs:727-734 | The mutating evaluator ends on every arena, cyclic ones included, with the result, scopes and loop signal of the reference recursion. |
| ConstEvaluator.Evaluator.EvaluateExpr | crates/glyim-const-eval/src/eval.rs:385-698 | The same for one expression of any kind. |
| ConstMeaning.EvaluateMeans | crates/glyim-const-eval/src/eval.rs:385-698 | Expressions have a meaning on mathematical integers and truth values, told without the evaluator: literals, operators, casts, names and scopes, `let`, assignment, `if`, `match` with its patterns, blocks, all three loops with `break` and `continue`, `return`, tuples, arrays, structs and their parts, ranges, calls of closures and constant functions. Evaluation succeeds if and only if there is a meaning, and gives exactly that value and those names in scope, unless the expression leaves what the meaning covers. |
| ConstMeaning.TrueTakesFirst | crates/glyim-const-eval/src/eval.rs:1152-1170 | `if true { 1 } else { 2 }` is 1. |
| ConstMeaning.CastCongruent | crates/glyim-const-eval/src/eval.rs:1459-1556 | A cast to a sized integer type gives the number of that type that is congruent to the operand modulo the type's size. |
| ConstMeaning.LiteralPatternMissed | crates/glyim-const-eval/src/eval.rs:1192-1217 | `match 5u8 { 5 => 1, _ => 2 }` is 2: a literal without a suffix has type `i32` and equals no `u8`. |
| ConstMeaning.LetOverwrites | crates/glyim-const-eval/src/eval.rs:371-383 | `{ let x = 1; { let x = 2; }; x }` is 2: a `let` assigns to a name an enclosing scope has. |
| ConstMeaning.BreakRunsOn | crates/glyim-const-eval/src/eval.rs:659-670 | A `break` or `continue` only raises a signal: the rest of its block is evaluated as if it were not there. |
| ConstMeaning.ReturnRunsOn | crates/glyim-const-eval/src/eval.rs:655-658 | A `return` without a value ends nothing: the rest of its block is evaluated, and gives the value, as if it were not there. |
| ConstMeaning.ReturnIgnored | crates/glyim-const-eval/src/eval.rs:655-658 | `{ return 1; 2 }` is 2. |
| ConstEvaluator.Evaluator.BindAndEvaluate | crates/glyim-const-eval/src/eval.rs:787-802 | Parameters are bound in a scope of their own, which is popped again only if binding succeeds. |
| ConstEvaluator.Evaluator.EvaluateFor | crates/glyim-const-eval/src/eval.rs:1412-1446 | The loop over the elements, break and continue included. |

## Left out

- Calls in the compiler: compiled programs have no call terminator, because the machine puts arguments into locals from 0 on and MIR has them from 1 on. Calls are treated at the level of the machine.
- Addresses in the compiler: loads and stores through addresses and projections; the emitter counts bytes where the machine counts slots. Taking an address only to drop it is modelled.
- Aggregate, Repeat, Len, Discriminant and Cast in the compiler: the emitter writes the opcode of an aggregate before its operands and the machine pops first. The machine and the decoder have these opcodes.
- Types other than integers of 64 bits and booleans in MIR, floats and strings in the machine: MIR arithmetic is modelled on wrapping 64-bit integers.
- Machine.Vm.Drive: the loop is cut off after a given number of instructions, since a program may run forever; running out of host memory is not modelled.
- PeepholeCorrectness.PeepholePreserves: for code without jumps, asserts and calls, which is where the decoder keeps the bytes. Aggregates and repeats, which put tuples on the stack, and addresses of locals, whose operand the decoder's table lacks, are left out.
- Peephole: instructions are values in a sequence that is rewritten into a new one, as in the source; the interning tables of strings and functions are left out.
- Borrowck.CheckBorrows: which errors there are, not their order, number, text or spans; the errors of the move check, which the source appends, are those of Moves.CheckMoves. The turns of a two-phase analysis are bounded by an argument, since it may never end.
- LoanNeed: dropping a reference itself needs nothing of what it refers to.
- LoanConflicts.MissedExactly: a reference is followed through assignments of it as it is or cast and through reborrows, not into fields and aggregates or through calls; places conflict when the overlap test says so, which Places measures on its own.
- OptimizedBlocks.OptimizedCorrect: for bodies whose last block returns or traps and is all that the pass changes; a pass that shortens only code no jump target follows, in several blocks, is not treated.
- PlacesPrecision.ConflictExact: when both places go on after a pair at which the test gives up comparing, only one direction; the test says yes there without looking further.
- Places.NoConflictIsDisjoint: locations are trees, so what two references point to never overlaps; a dereference is a step down.
- Moves: bodies with downcast or constant-index places, whose lookup grows the arena; whether a type is copied is an argument; moves in terminators are as the source has them, none. An operand moved twice by one statement is checked against what holds before it.
- Liveness: the capacity of the bit sets.
- ReactivityCorrectness.Noninterference: for a fragment that a reader of the source text can check: slots without `.iter()`, `.len()`, `.get()` and `.contains()` and without writes, handlers with writes only where the analysis looks for them. Values are values: no aliasing through `&mut`, no closures as values, no nested views. Other calls are arbitrary functions of their arguments. Three lemmas show what goes wrong outside it, where FullNoninterference takes over; whether a given slot is affected there depends on the values, so there is no condition in both directions.
- GSX: the flags for untrackable reads, server-side rendering, hydration and host code; they rest on files that are not part of this model.
- Blueprint.Blueprint.PushOp: release builds, where a payload that is too wide is cut; the assertion of debug builds is what Fits says.
- ViewEncode: the counter of anchors is unbounded; views have at most 2^32 strings, the number of ids, which is a precondition of ViewDecode.ViewRoundTrip.
- Lexer: positions count characters, not UTF-8 bytes; which characters beyond ASCII are letters or digits is an argument; diagnostics.
- Layout: substitution of type parameters, projections, the layouts of scalars (an argument), passing modes; rounding up is by division, which is the mask of the source on powers of two, and overflow is a failure as in debug builds.
- ConstMeaning.EvaluateMeans: says nothing of expressions that use bitwise operators, builtins, characters, strings, references to functions or units of enums, patterns of structs and paths, or that get into a state no typed program gets into; nor of a `let` of a name an enclosing block has, and a `break`, `continue` or `return` with something left to do, where the evaluator is off. A called function sees the names of its caller, as in the source.
- LivenessMeaning: for bodies on 64-bit integers without projections, calls and memory; the returned local always counts, because the analysis counts no read at a return.
- MovePlaces: for places without downcasts and constant indices, which Moves leaves out too.
- ListOperations: what the operations do is defined on owned values, as lists and cells commonly have them; the host types behind the names are not part of this model, and a name outside them changes nothing.
- Constant evaluation: floats, strings beyond their identity, shifts and bitwise operators, builtins and lookups of variants, which are arbitrary functions; the gate of permitted casts; spans and messages. Patterns are trees. An expression outside the arena, on which the source panics, reads as missing.
- ConstRange.IntegersStayInRange: for programs in which the bounds of every range have a known type, by a typing of some expressions and names that the caller gives; without one, only ConstRange.RangeElementsExact holds of each range. Bitwise operators, `!` on integers and builtins are left out.
- LLVM code generation, the resolver, the query database, the command line, the linker, lints and debug information.
