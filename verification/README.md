# Verification of the HLSL compiler, the call thunks, the locks and the relocator

A Dafny model of six parts of the repository with proofs of what they promise.

| part | source | model |
|---|---|---|
| HLSL to SPIR-V emitter | `crates/hlsl-compiler/src/codegen.rs` | `CodegenContext` (the emitter itself), `EmitterSpec`, `HlslMeaning`, `HlslSemantics`, `SpirvMachine`, `OperatorAgreement`, `ExprPreservation`, `StmtPreservation`, `StmtSimulation`, `BodyPreservation`, `ControlFlow`, `Structured`, `Scoping`, `Coverage`, `CompoundAssignment`, `ValueLaws`, `Typing`, `TypeInference`, `Compiling`, `StatementRuns`, `Findings` |
| parser | `crates/hlsl-compiler/src/parser.rs`, `ast.rs` | `ParserState` (the parser itself), `Grammar`, `Tokens`, `TypeWords`, `Printer`, `RoundTrip`, `StmtRoundTrip`, `BareBodies`, `UnitRoundTrip`, `Acceptance`, `StmtAcceptance`, `UnitAcceptance` |
| lexer | `crates/hlsl-compiler/src/lexer.rs` | `LexerState` (the lexer itself), `Lexing`, `Gaps`, `TokenText`, `NumberText`, `FrontEnd` |
| Win64 to System V trampolines | `crates/pe-loader/src/thunk.rs` | `ThunkCode` (the emitters), `X86`, `Bytes`, `ThunkAbi`, `ThunkArenas` |
| futex locks | `crates/ntapi/src/sync.rs`, `futex.rs` | `MutexProtocol`, `SemaphoreProtocol`, `SrwProtocol`, `EventProtocol` |
| base relocations | `crates/pe-loader/src/mapping.rs` | `Relocation`, `RelocationTable` |

Run `dafny verify dfyconfig.toml` to check everything.

## How the parts are modelled

**Emitter.** `CodegenContext.Ctx` is the code generator: a class whose methods push instructions onto the selected
block, draw ids, and insert variables at the front of the first block. Each method is proved to compute the function
of the same name in `EmitterSpec`, a function from one emitter state to the next, and the blocks it leaves are proved
to be the program of the final state. `Structured` proves the merge and continue labels, which the machine ignores, to be where
structured control flow has them. `ValueLaws` has the laws of the few operations that the machine and the meaning of the
source share. `SpirvMachine` is a strict small-step machine that breaks on a missing label, an
operand of the wrong type or an unbacked pointer. The theorems hold for every floating-point arithmetic (a record of
functions), every initial content of variables, every input and any number of loop iterations.

The meaning of the source comes in two layers. `HlslMeaning` says what HLSL operators, conversions, constructors and
intrinsics mean on all operands: operands are brought to a common kind, scalars are splatted, longer vectors are cut.
`HlslSemantics` is a lexically scoped interpreter with loop fuel that gives expressions this meaning on the operands the
emitter translates (`Coverage.BinaryMeansHlsl` and its four companions) and stops with a reason on all others, on
undefined division and on reading what was never written. `Coverage` has, for every operator, conversion, constructor,
intrinsic, return and initialiser, the exact condition under which running the emitted instructions leaves the HLSL
value, so the operands left out of the interpreter are those on which the emitted code is wrong; `Findings` has inputs on
which it is. `Typing` turns the remaining premise of the theorems, that the source does not get stuck, into a check of the
program text, and `Compiling` has the exact condition, again on the text, under which the emitter accepts a well-typed body.

The preservation theorem asks that no declaration re-uses a name of an enclosing scope (`ScopedAll`), because the emitter
keeps one flat list of locals: `Findings.LookupStableExact` has the exact condition, on the text of a statement, under which
a name still means the same local behind it, and `Findings.ScopeLeak` a statement on which it does not.

**Parser.** `ParserState.Parser` is the cursor over tokens; each method is proved to compute the production of the
same name in `Grammar`, from translation units down to expressions. The six methods from `parse_or` to `parse_mul` are
one method with the level as parameter. Two families of theorems fix what the productions compute, both stated against
syntax trees of their own, with all the tokens the parser reads and drops: the round trips say that the text of a tree is
read as what the tree stands for, whatever follows, and the acceptance theorems that whatever is read is the text of such
a tree. Lone statements as bodies are `BareBodies`.

**Lexer.** `LexerState.Lexer` advances a position through the source; its methods are proved to compute the functions
of `Lexing` on the text still to be read. Characters stand for bytes. The host language's float parser is a parameter.
`Gaps` says what white space and comments are as they are written, `TokenText` how each token is spelled and `NumberText`
what a decimal number looks like, without reference to the functions that scan them, and the scan is proved to agree.

**Trampolines.** The emitters push the constants of the source; the bytes are proved to be the encoding of an
instruction list, `X86.DecodeEncode` proves the decoder undoes the encoder for all registers, and `ThunkAbi` runs the
bytes. Memory faults where it is not mapped, so a theorem that code runs is also a theorem about what it reads.
The comment that the frame is 0 for up to 6 arguments (`thunk.rs:308`) disagrees with the code, which reserves 8
bytes then; the model follows the code.

**Locks.** Every atomic access and every futex call is one step of one thread; a run is any sequence of such steps.
A futex wait compares and sleeps in one step and may always return spuriously or time out; a wake wakes as many
sleepers as it may, which ones is arbitrary. The critical section is the mutex without time-outs, so its runs are
among the mutex's. Numbers that the source keeps in 32 bits wrap in the model.

**Relocations.** The table is decoded as the code does (type in the high 4 bits of an entry, where the comment on
`apply_relocations` says low), and the image is the front of an array patched in place; the rest of the array is what is
mapped right behind the image. A word whose last bytes are not mapped ends the walk. `RelocationTable` writes tables out from
the words they name, and proves that decoding gives these words back.

## What the proofs found

- Operands are never promoted or splatted: `1 + 2.0`, `v * 2.0`, `float2(x, 1)`, `abs(-1)` break the machine
  (`Findings.MixedSumBreaks`, `Findings.ScaledVectorBreaks`, `Findings.MixedConstructorBreaks`, `Findings.IntegerAbsBreaks`);
  exactly when: `Coverage.ArithCoverageIsExact`, `Coverage.CompoundCoverageIsExact`,
  `Coverage.ConstructorCoverageIsExact`, `Coverage.FnCoverageIsExact`, `Coverage.DotCoverageIsExact`,
  `Coverage.SaturateCoverageIsExact`.
- `mul` of two vectors is their componentwise product, where HLSL has the dot product: `Findings.VectorProductLeaves`; it
  is right exactly on two scalars: `Coverage.MulCoverageIsExact`.
- `!0` on an int is 0xFFFFFFFF: `Findings.NotZeroLeaves`, `Coverage.UnaryCoverageIsExact`. `&&` and `||` are right exactly
  on two bools: `Findings.VectorAndBreaks`, `Coverage.LogicalCoverageIsExact`.
- Comparisons of `uint` use signed opcodes, `!=` on floats uses the ordered opcode, and `bool` operands have no
  opcode: `Findings.UintComparisonLeaves`, `Coverage.ComparisonCoverageIsExact`, `Coverage.ComparisonExact`.
- Implicit conversions other than int/uint to float and float to int/uint are not performed, and those of vectors, of a
  returned value and of a declaration's initialiser never are: `Coverage.AssignCoverageIsExact`,
  `Coverage.CoercionCoverageIsExact`, `Coverage.ReturnExact`, `Coverage.InitialiserExact`,
  `Findings.InitialiserUnconverted`, `Findings.ReturnUnconverted`.
- `float(x)` emits `x` unconverted; `lerp(v, w, s)` is inferred a vector and emitted as a scalar:
  `Coverage.FloatConstructorExact`, `TypeInference.IntrinsicTypeExact`, `TypeInference.LerpMistyped`.
- A declaration in an inner block stays visible after it: `Findings.ScopeLeak`; after which statements a name means what it
  did exactly: `Findings.LookupStableExact`.
- `asin(v).x` is rejected though `asin(v)` compiles, because inference does not know `asin`, `acos` and `atan`:
  `Compiling.AsinSwizzleRejected`; which well-typed bodies are accepted exactly: `Compiling.BodyCompilesExact`.
- Any keyword after an `if` without `else` is taken for `else`: `StmtRoundTrip.OpenIfExact`.
- An `else` belongs to the nearest `if`, as in C: `BareBodies.ElseBelongsToNearest`.
- The element type of a texture, parameter modifiers, and register clauses and semantics that do not fit are read and
  dropped: `UnitRoundTrip.ElementDropped`, `UnitRoundTrip.ModifierDropped`, `UnitRoundTrip.RegisterTrip`,
  `UnitRoundTrip.ColonTrip`; that nothing else is dropped: `UnitAcceptance.UnitAccepted`.
- A parenthesis followed by a type loses the type: `StmtRoundTrip.ParenthesesExact`.
- A parameter whose struct type is named `in`, `out`, `inout` or `uniform` loses its type: `UnitRoundTrip.ParameterExact`.
- A matrix with one column is read back as a vector: `Tokens.MatrixWordExact`.
- A decimal number with a `u` or `U` suffix is never accepted, because the suffix is part of the text that is parsed, and
  a float with an `f` or `F` only if the host's float parser takes the suffix, so with one that does not, never:
  `Lexing.DecimalUintRejected`, `Lexing.FloatSuffixExact`, `Lexing.FloatSuffixRejected`.
- 2^32 nested acquires wrap the recursion count, and the next release gives the lock away: `MutexProtocol.NestingWraps`,
  `MutexProtocol.OutermostExact`.
- A semaphore count that does not fit 32 bits wraps: `SemaphoreProtocol.OverflowExact`.
- A pulse can release nobody: `EventProtocol.PulseCanReleaseNobody`; whom it releases exactly:
  `EventProtocol.PulseReleasesExact`.
- A relocated word is checked to start inside the image, not to end there, so up to 7 bytes behind the image are
  changed: `Relocation.OverrunAccepted`; memory behind the image is safe exactly when every word ends inside:
  `Relocation.TailKeptExact`.

## Model

| member | source | states |
|---|---|---|
| BodyPreservation.BodyPreserved | crates/hlsl-compiler/src/codegen.rs:582-624 | Semantic preservation for whole functions: for every body, input, float arithmetic and initial variable content, if structured execution returns a value the emitted blocks halt with that value in the output variable, and if it is still looping after `fuel` rounds the machine is still running after at least `fuel` steps |
| BodyPreservation.HaltingReflectsReturn | crates/hlsl-compiler/src/codegen.rs:582-624 | The converse: if the machine halts and the source is not stuck, the source returns, and the machine's output is the returned value |
| BodyPreservation.NeverBroken | crates/hlsl-compiler/src/codegen.rs:582-624 | As long as the source is not stuck, the emitted program never reaches a missing label, a missing operand or an operand of the wrong type |
| Typing.WellTypedNeverBroken | crates/hlsl-compiler/src/codegen.rs:582-624 | The same for every strictly typed, scoped body and all defined arguments, with no premise about runs |
| Typing.WellTypedHaltingReflects | crates/hlsl-compiler/src/codegen.rs:582-624 | So for halting: if the machine halts, the source returns, and the output is the returned value |
| Typing.WellTypedDiverges | crates/hlsl-compiler/src/codegen.rs:582-624 | The machine runs for ever exactly when the source loops for ever |
| Typing.StuckOnlyWhenUndefined | crates/hlsl-compiler/src/codegen.rs:582-624 | A well-typed body gets stuck only on undefined division, an unwritten read or an uncovered comparison, never on types |
| Typing.StrictNeverStuck | crates/hlsl-compiler/src/codegen.rs:582-624 | A strictly typed body (initialised declarations, no unsafe integer division or comparison) never gets stuck, whatever the fuel |
| Typing.ExprSound | crates/hlsl-compiler/src/codegen.rs:844-881 | A well-typed expression evaluates to a defined value of its type or stops for one of those reasons |
| Compiling.BodyCompilesExact | crates/hlsl-compiler/src/codegen.rs:582-624 | A well-typed, scoped body is accepted exactly when, up to the ends of its blocks, declared, loaded and cast-to types exist in SPIR-V, scalar casts have an opcode, and swizzled values have a type inference knows |
| Compiling.TextSuffices | crates/hlsl-compiler/src/codegen.rs:582-624 | From the text alone: a strictly typed, scoped body of that kind is compiled, the program never breaks, halts only with the value the source returns, and runs for ever exactly when the source does |
| Compiling.StmtCompilesExact | crates/hlsl-compiler/src/codegen.rs:655-842 | Each statement is accepted exactly when its text says so, whatever was emitted before it |
| Compiling.ExprCompiles | crates/hlsl-compiler/src/codegen.rs:844-1419 | Each well-typed expression likewise, and it is emitted with its static type |
| Compiling.InferExact | crates/hlsl-compiler/src/codegen.rs:1475-1574 | Inference succeeds on a well-typed expression exactly when no intrinsic it does not know decides the type, and then gives the static type up to the kind of a scalar |
| Compiling.AsinSwizzleRejected | crates/hlsl-compiler/src/codegen.rs:1516-1540 | A well-typed statement that is rejected though the value it swizzles compiles |
| Compiling.OperatorsRejected | crates/hlsl-compiler/src/codegen.rs:1109-1169 | `%` and the bitwise operators are rejected on all operands |
| Compiling.ConditionsRejected | crates/hlsl-compiler/src/codegen.rs:1617-1636 | A condition that is neither bool nor a bool vector is rejected, in `if` and `for` |
| Compiling.CastsRejected | crates/hlsl-compiler/src/codegen.rs:1261-1286 | So is a cast to another type unless both are scalars |
| BodyPreservation.SimParams | crates/hlsl-compiler/src/codegen.rs:583-609 | Each parameter ends up in a local of its own holding the argument |
| BodyPreservation.SimVars | crates/hlsl-compiler/src/codegen.rs:1651-1674 | Executing the hoisted variables, whatever their initial contents, establishes the simulation relation |
| StmtSimulation.SimStmts | crates/hlsl-compiler/src/codegen.rs:655-663 | A statement list emitted until a block ends behaves as the list executed until it returns |
| StmtSimulation.SimStmt | crates/hlsl-compiler/src/codegen.rs:665-715 | Each statement: same normal completion with the same variables, same return, same non-termination |
| StmtSimulation.SimIf | crates/hlsl-compiler/src/codegen.rs:717-765 | Both arms of an `if`, with and without `else`, come out at the merge block with the bindings of the enclosing scope |
| StmtSimulation.SimLoop | crates/hlsl-compiler/src/codegen.rs:785-839 | A loop entered at its header runs exactly the iterations of the source, by induction on fuel, and leaves at its merge block |
| StmtSimulation.SimFor | crates/hlsl-compiler/src/codegen.rs:767-783 | The initialiser runs once, in the scope of the loop, and may itself return |
| StmtSimulation.SimCond | crates/hlsl-compiler/src/codegen.rs:1617-1636 | A condition, bool or any-of-vector, is the bool the source computes |
| StmtSimulation.SimDecl | crates/hlsl-compiler/src/codegen.rs:685-701 | A declaration binds a fresh variable to its initial value |
| StmtSimulation.SimReturn | crates/hlsl-compiler/src/codegen.rs:667-684 | A return stores its value in the output variable and halts |
| StmtPreservation.ExecDeepens | crates/hlsl-compiler/src/codegen.rs:665-715 | Structured execution keeps the bindings of enclosing scopes and adds only the names a statement declares |
| Scoping.EmitDeclares | crates/hlsl-compiler/src/codegen.rs:655-842 | Emission of any statement ends the block exactly when the text says so, and adds to the table of locals exactly the names declared in it, at any depth, before the ends of blocks |
| StmtPreservation.EmitAddsNone | crates/hlsl-compiler/src/codegen.rs:693-699 | Emission of a properly scoped statement adds no local that hides one of an enclosing scope |
| ExprPreservation.SimExpr | crates/hlsl-compiler/src/codegen.rs:844-881 | Every expression: running its instructions leaves its value in the result register and its side effects in the variables, and nothing else changes |
| ExprPreservation.SimPlace | crates/hlsl-compiler/src/codegen.rs:884-954 | An assignable expression yields a pointer to exactly the binding and field the source assigns |
| ExprPreservation.SimAssign | crates/hlsl-compiler/src/codegen.rs:1062-1070 | Assignment converts and stores the right-hand side into that place |
| ExprPreservation.SimCompound | crates/hlsl-compiler/src/codegen.rs:1071-1094 | Compound assignment reads the old value before the right-hand side is evaluated, and leaves the value of the interpreter in register and variable; what that value is by operator, `CompoundAssignment` says |
| CompoundAssignment.Desugars | crates/hlsl-compiler/src/codegen.rs:1071-1094 | `x += e`, `x -= e`, `x *= e` and `x /= e` evaluate as `x = x + e`, `x - e`, `x * e` and `x / e`: same value, same variables, for any place `x` and any `e`, even one that writes `x`, wherever the longer form is covered |
| CompoundAssignment.CompoundMeansHlsl | crates/hlsl-compiler/src/codegen.rs:1071-1094 | In every case that is covered, the value stored is the HLSL `+`, `-`, `*` or `/` of the old value and `e`, converted to the type of the place |
| CompoundAssignment.CompoundEmits | crates/hlsl-compiler/src/codegen.rs:1078-1093 | For each of the four operators by name and float, int and uint, scalar or vector, the opcode pushed, its operands in order, and the store of its result |
| ExprPreservation.SimOperator | crates/hlsl-compiler/src/codegen.rs:1095-1106 | Binary operators evaluate both operands, the logical ones included |
| ExprPreservation.SimCall | crates/hlsl-compiler/src/codegen.rs:1288-1437 | Intrinsics compute the function of their name on float arguments of one shape, `mul` the product of two scalars |
| ExprPreservation.SimSwizzle | crates/hlsl-compiler/src/codegen.rs:984-1006 | A swizzle selects the components its letters name |
| ValueLaws.SwizzleExact | crates/hlsl-compiler/src/codegen.rs:1832-1847 | A swizzle has one to four letters, and its indices are those of its letters, in order |
| ValueLaws.SwizzleLetters | crates/hlsl-compiler/src/codegen.rs:1832-1839 | `x`, `y`, `z`, `w` and `r`, `g`, `b`, `a` are components 0 to 3, and no other letter is one |
| ValueLaws.OthersAreKept | crates/hlsl-compiler/src/codegen.rs:884-954 | Writing to a place leaves every other variable and every other part of the variable alone |
| ValueLaws.WrittenIsRead | crates/hlsl-compiler/src/codegen.rs:884-954 | What is written to a place is read from it |
| ValueLaws.LiftComponents | crates/hlsl-compiler/src/codegen.rs:1109-1169 | An operation on vectors is the operation on each pair of components, in place and in order |
| ValueLaws.IntrinsicComponents | crates/hlsl-compiler/src/codegen.rs:1319-1369 | An intrinsic other than `length`, `normalize` and `cross` is the function of each component of its arguments |
| ValueLaws.GeometricFunctions | crates/hlsl-compiler/src/codegen.rs:1319-1369 | `length` gives a scalar, `normalize` a vector like its argument, `cross` takes exactly two vectors of three |
| OperatorAgreement.ArithAgrees | crates/hlsl-compiler/src/codegen.rs:1109-1169 | The chosen arithmetic opcode computes the HLSL operator on covered operands, on scalars and component by component, with the result type inferred |
| OperatorAgreement.CompoundAgrees | crates/hlsl-compiler/src/codegen.rs:1071-1094 | What a compound assignment stores unconverted is the HLSL result converted to the type of the place, on covered operands; `CompoundAssignment` ties each operator to its arithmetic |
| OperatorAgreement.CompareAgrees | crates/hlsl-compiler/src/codegen.rs:1171-1205 | The chosen comparison opcode computes the HLSL comparison on covered operands |
| OperatorAgreement.UnaryAgrees | crates/hlsl-compiler/src/codegen.rs:1226-1259 | The chosen unary opcode computes the HLSL operator |
| OperatorAgreement.IntrinsicTablesAgree | crates/hlsl-compiler/src/codegen.rs:1319-1344 | The instruction number and operand count chosen for a name denote the function of that name |
| ValueLaws.EveryFunctionNamed | crates/hlsl-compiler/src/codegen.rs:1319-1344 | Every function of the instruction set the machine has can be called by a name the emitter knows |
| OperatorAgreement.InferSound | crates/hlsl-compiler/src/codegen.rs:1475-1574 | Where inference says vector or struct, the value has that type, and no vector is missed: the choice between field access and swizzle is right |
| EmitterFacts.EmitExprGood | crates/hlsl-compiler/src/codegen.rs:844-881 | Emitting an expression keeps ids unique, defined once and apart from labels, and only appends plain instructions to the open block |
| EmitterFacts.EmitStmtGood | crates/hlsl-compiler/src/codegen.rs:665-840 | Emitting a statement keeps the same, never changes closed blocks, and begins only blocks with labels of its own |
| ControlFlow.BodyWellFormed | crates/hlsl-compiler/src/codegen.rs:582-624 | Every compiled body is a well-formed graph: distinct labels, one terminator per block at its end, every label referred to begun exactly once and never the entry, hoisted variables exactly the front of the first block, every id defined once; which label a merge instruction names, `Structured.BodyStructured` says |
| ControlFlow.EmitLoopClosed | crates/hlsl-compiler/src/codegen.rs:785-839 | The four labels of a loop are all begun by the time it is emitted |
| ControlFlow.EmitIfClosed | crates/hlsl-compiler/src/codegen.rs:717-765 | So are the labels of an `if` |
| Structured.BodyStructured | crates/hlsl-compiler/src/codegen.rs:582-840 | Every block of every compiled body branches, returns, or heads a selection or a loop. The merge block of a selection is behind both arms, no arm of an `if` with `else`, and the block to which both arms go when they do not return. A loop is entered from the block before; its test goes to the body or the merge block; its body leaves to the continue block, which is the one that goes back to the header; and nothing else enters or leaves |
| Structured.IfBuilds | crates/hlsl-compiler/src/codegen.rs:717-765 | So for any `if` emitted in any state: it adds such a selection and ends in its merge block |
| Structured.LoopBuilds | crates/hlsl-compiler/src/codegen.rs:785-839 | And for any loop |
| TypeInference.TypeAgrees | crates/hlsl-compiler/src/codegen.rs:1475-1574 | On uniform expressions, whenever inference and emission both succeed they give the same type |
| TypeInference.IntrinsicTypeExact | crates/hlsl-compiler/src/codegen.rs:1351-1367 | For an intrinsic they agree exactly when its first and last argument have the same type |
| TypeInference.LerpMistyped | crates/hlsl-compiler/src/codegen.rs:1351-1367 | A concrete expression, accepted by both, on which they differ |
| Coverage.BinaryMeansHlsl | crates/hlsl-compiler/src/codegen.rs:1059-1107 | The value the interpreter gives a binary operator is the one HLSL gives it |
| Coverage.UnaryMeansHlsl | crates/hlsl-compiler/src/codegen.rs:1226-1259 | The same for unary operators |
| Coverage.ConvertMeansHlsl | crates/hlsl-compiler/src/codegen.rs:1579-1614 | The same for assigned values |
| Coverage.ConstructMeansHlsl | crates/hlsl-compiler/src/codegen.rs:1010-1057 | The same for constructors |
| Coverage.CallMeansHlsl | crates/hlsl-compiler/src/codegen.rs:1288-1437 | The same for intrinsics |
| Coverage.ArithCoverageIsExact | crates/hlsl-compiler/src/codegen.rs:1109-1169 | Running the emitted arithmetic instruction leaves the HLSL result exactly when the result is defined and the operands have one numeric type, or an int meets a uint on the side that makes the result uint |
| Coverage.CompoundCoverageIsExact | crates/hlsl-compiler/src/codegen.rs:1071-1094 | What a compound assignment is about to store is the HLSL result converted back exactly for the covered operand types and, for an int vector divided by a uint vector, where signed and unsigned division agree |
| Coverage.ComparisonCoverageIsExact | crates/hlsl-compiler/src/codegen.rs:1180-1194 | On components of any kinds, the comparison opcode gives the HLSL answer exactly for covered operands |
| Coverage.ComparisonExact | crates/hlsl-compiler/src/codegen.rs:1171-1205 | Running an emitted comparison leaves the HLSL answer exactly when every pair of components is covered |
| Coverage.LogicalCoverageIsExact | crates/hlsl-compiler/src/codegen.rs:1095-1106 | `&&` and the other logical operator leave the HLSL value exactly on two bools |
| Coverage.UnaryCoverageIsExact | crates/hlsl-compiler/src/codegen.rs:1226-1259 | The code of a unary expression leaves the HLSL value exactly for `-` on numbers, `!` on bools and `~` on integers |
| Coverage.CoercionCoverageIsExact | crates/hlsl-compiler/src/codegen.rs:1589-1614 | A scalar conversion is performed exactly for the covered pairs of kinds |
| Coverage.AssignCoverageIsExact | crates/hlsl-compiler/src/codegen.rs:1579-1587 | An assigned value is converted as HLSL does exactly when it has the type already or is a scalar of a covered kind; vectors and structs pass unchanged |
| Coverage.FloatConstructorExact | crates/hlsl-compiler/src/codegen.rs:1012-1017 | The code of `float(e)` leaves the HLSL conversion exactly when `e` is a float already |
| Coverage.ConstructorCoverageIsExact | crates/hlsl-compiler/src/codegen.rs:1025-1052 | A vector constructor leaves the HLSL vector exactly when every argument has its component kind |
| Coverage.MulCoverageIsExact | crates/hlsl-compiler/src/codegen.rs:1394-1419 | `mul` leaves the HLSL value exactly on two scalars of covered types |
| Coverage.DotCoverageIsExact | crates/hlsl-compiler/src/codegen.rs:1298-1314 | `dot` does exactly on two float vectors of one length |
| Coverage.FnCoverageIsExact | crates/hlsl-compiler/src/codegen.rs:1319-1369 | Every other intrinsic does exactly on float arguments of one shape |
| Coverage.SaturateCoverageIsExact | crates/hlsl-compiler/src/codegen.rs:1371-1392 | `saturate` does exactly on a float scalar or vector |
| Coverage.ReturnExact | crates/hlsl-compiler/src/codegen.rs:667-678 | The code of `return e;` halts with the HLSL value in the output exactly when `e` has the output's type, and otherwise breaks |
| Coverage.InitialiserExact | crates/hlsl-compiler/src/codegen.rs:685-692 | The code of `ty x = e;` leaves the HLSL value in the new variable exactly when `e` has type `ty`, and otherwise breaks |
| Findings.MixedSumWrong | crates/hlsl-compiler/src/codegen.rs:1109-1169 | `1 + w` with a float `w` is a float addition in HLSL, and the emitted opcode cannot take the int |
| Findings.ScaledVectorWrong | crates/hlsl-compiler/src/codegen.rs:1109-1169 | `v * w` scales in HLSL, and the emitted opcode needs two vectors |
| Findings.NotZeroWrong | crates/hlsl-compiler/src/codegen.rs:1226-1259 | `!0` is true in HLSL and 0xFFFFFFFF as emitted |
| Findings.UintComparisonWrong | crates/hlsl-compiler/src/codegen.rs:1190-1193 | A concrete pair of `uint` operands compared wrongly |
| Findings.VectorAndWrong | crates/hlsl-compiler/src/codegen.rs:1095-1106 | `v && v` is a vector in HLSL, and the emitted instruction names a scalar |
| Findings.MixedConstructorWrong | crates/hlsl-compiler/src/codegen.rs:1041-1051 | `float2(w, 1)` converts in HLSL, and the emitted vector is not a float vector |
| Findings.IntegerAbsWrong | crates/hlsl-compiler/src/codegen.rs:1319-1369 | `abs(-1)` is 1 in HLSL, and the emitted instruction takes floats only |
| Findings.VectorProductWrong | crates/hlsl-compiler/src/codegen.rs:1415-1419 | `mul(v, w)` is the dot product in HLSL and the componentwise product as emitted |
| Findings.StatementsAccepted | crates/hlsl-compiler/src/codegen.rs:844-1419 | The functions consisting of one of these eight expressions compile |
| Findings.MixedSumBreaks | crates/hlsl-compiler/src/codegen.rs:1109-1169 | The machine breaks on the function compiled from `{ 1 + f; }` with a float literal `f` |
| Findings.ScaledVectorBreaks | crates/hlsl-compiler/src/codegen.rs:1109-1169 | It breaks on `{ float2(p, q) * f; }` |
| Findings.NotZeroLeaves | crates/hlsl-compiler/src/codegen.rs:1226-1259 | `{ !0; }` leaves 0xFFFFFFFF in its register |
| Findings.UintComparisonLeaves | crates/hlsl-compiler/src/codegen.rs:1190-1193 | `{ 0u < 0x80000000u; }` leaves false |
| Findings.VectorAndBreaks | crates/hlsl-compiler/src/codegen.rs:1095-1106 | The machine breaks on `{ bool2(p, q) && bool2(p, q); }` |
| Findings.MixedConstructorBreaks | crates/hlsl-compiler/src/codegen.rs:1041-1051 | It breaks on `{ float2(f, 1); }` |
| Findings.IntegerAbsBreaks | crates/hlsl-compiler/src/codegen.rs:1319-1369 | It breaks on `{ abs(-1); }` |
| Findings.VectorProductLeaves | crates/hlsl-compiler/src/codegen.rs:1415-1419 | `{ mul(float2(p, q), float2(r, s)); }` leaves the componentwise product |
| StatementRuns.OperatorLeaves | crates/hlsl-compiler/src/codegen.rs:1095-1106 | For any binary operator and operands: what the function consisting of it leaves in its register, or that the machine breaks, by the opcode chosen for the types of the operands |
| StatementRuns.UnaryLeaves | crates/hlsl-compiler/src/codegen.rs:1226-1259 | The same for unary operators |
| Findings.InitialiserAccepted | crates/hlsl-compiler/src/codegen.rs:685-692 | `{ float x = 1; }` compiles, and HLSL converts the 1 |
| Findings.InitialiserUnconverted | crates/hlsl-compiler/src/codegen.rs:685-692 | The machine breaks on the function compiled from it |
| Findings.ReturnAccepted | crates/hlsl-compiler/src/codegen.rs:667-678 | `{ return 1; }` compiles for any output type |
| Findings.ReturnUnconverted | crates/hlsl-compiler/src/codegen.rs:667-678 | With a float output the machine breaks on it |
| Findings.LookupStableExact | crates/hlsl-compiler/src/codegen.rs:655-892 | After any compiled statement a visible name means the local it meant before exactly when the statement does not declare it, at any depth, before the end of a block |
| Findings.ScopeLeak | crates/hlsl-compiler/src/codegen.rs:693-699 | A declaration in an inner block changes what the name means after the block |
| CodegenContext.Ctx.EmitFunctionBody | crates/hlsl-compiler/src/codegen.rs:571-624 | The context's blocks after compiling a function are exactly the program of the specified final state; it fails exactly when the specification fails |
| CodegenContext.Ctx.EmitBlock | crates/hlsl-compiler/src/codegen.rs:655-663 | The loop over statements stops where the specification does |
| CodegenContext.Ctx.EmitIf | crates/hlsl-compiler/src/codegen.rs:717-765 | Labels, merge declaration, arms and merge block as specified, so that `Structured.IfBuilds` holds of what it leaves |
| CodegenContext.Ctx.EmitFor | crates/hlsl-compiler/src/codegen.rs:767-840 | Initialiser, header, body, continue and merge blocks as specified |
| CodegenContext.Ctx.EmitBinary | crates/hlsl-compiler/src/codegen.rs:1059-1107 | Assignment, compound assignment and operators as specified; the opcodes of the former are those of `CompoundAssignment.CompoundEmits` |
| CodegenContext.Ctx.EmitCall | crates/hlsl-compiler/src/codegen.rs:1288-1437 | Intrinsic calls as specified |
| CodegenContext.Ctx.EmitPlace | crates/hlsl-compiler/src/codegen.rs:884-954 | Places as specified |
| CodegenContext.Ctx.AllocLocal | crates/hlsl-compiler/src/codegen.rs:1651-1674 | The variable goes to the very front of the first block and no emitted instruction moves relative to another |
| ParserState.Parser.ParseExpr | crates/hlsl-compiler/src/parser.rs:535-589 | The cursor parser computes the grammar's expression, stops at the same token, and never passes the end marker |
| ParserState.Parser.ParseLevel | crates/hlsl-compiler/src/parser.rs:591-696 | The operator loops join operands to the left as the grammar says |
| ParserState.Parser.ParsePostfix | crates/hlsl-compiler/src/parser.rs:728-750 | The loop over member accesses and method calls |
| ParserState.Parser.ParsePrimary | crates/hlsl-compiler/src/parser.rs:752-803 | Literals, parentheses, casts, constructors, calls, names |
| ParserState.Parser.ParseStmt | crates/hlsl-compiler/src/parser.rs:310-336 | Statements |
| ParserState.Parser.ParseIf | crates/hlsl-compiler/src/parser.rs:378-390 | `if`, with the test for `else` by token variant |
| ParserState.Parser.ParseFor | crates/hlsl-compiler/src/parser.rs:392-430 | `for`, with each clause optional |
| ParserState.Parser.ParseBlockBody | crates/hlsl-compiler/src/parser.rs:302-308 | The loop over statements up to a brace or the end |
| ParserState.Parser.LooksLikeVarDecl | crates/hlsl-compiler/src/parser.rs:339-366 | The two-token probe stays inside the token list |
| ParserState.Parser.ParseUnit | crates/hlsl-compiler/src/parser.rs:113-119 | The whole input: the cursor parser computes the grammar's translation unit, collects the struct names it declares, and arrives at the end marker |
| ParserState.Parser.ParseDecl | crates/hlsl-compiler/src/parser.rs:121-135 | Declarations, each struct being known from the next one on |
| ParserState.Parser.ParseFunctionOrGlobal | crates/hlsl-compiler/src/parser.rs:142-193 | Functions, prototypes and global variables, as the grammar says; `Texture2D<...>` by `UnitRoundTrip.ElementDropped` |
| ParserState.Parser.ParseStruct | crates/hlsl-compiler/src/parser.rs:195-213 | Structs |
| ParserState.Parser.ParseCBuffer | crates/hlsl-compiler/src/parser.rs:215-240 | Constant buffers |
| ParserState.Parser.ParseRegister | crates/hlsl-compiler/src/parser.rs:242-272 | Register clauses, with everything they drop in silence |
| ParserState.Parser.ParseParams | crates/hlsl-compiler/src/parser.rs:274-300 | Parameters, modifiers dropped |
| Grammar.ParseUnit | crates/hlsl-compiler/src/parser.rs:113-119 | Terminates on every input, with at most one declaration per token; the structs known at the end are exactly those declared |
| Grammar.ParseDecl | crates/hlsl-compiler/src/parser.rs:121-135 | A successful declaration consumes at least one token |
| Grammar.ParseExpr | crates/hlsl-compiler/src/parser.rs:535-589 | Terminates on every input and consumes at least one token when it succeeds |
| Grammar.ParseStmt | crates/hlsl-compiler/src/parser.rs:310-336 | The same for statements |
| Grammar.ParseStmts | crates/hlsl-compiler/src/parser.rs:302-308 | The same for blocks, so the statement loop makes progress |
| Grammar.ParseVarDecl | crates/hlsl-compiler/src/parser.rs:442-457 | The same for declarations |
| RoundTrip.PrintTrip | crates/hlsl-compiler/src/parser.rs:535-817 | Expression round trip: for every printable tree, level and rest of input that does not continue it, parsing its minimally parenthesised tokens returns that tree and stops there |
| RoundTrip.InfixChain | crates/hlsl-compiler/src/parser.rs:591-696 | Left associativity: a chain of one level is read as the left-nested tree and goes on with what follows |
| RoundTrip.MemberChain | crates/hlsl-compiler/src/parser.rs:728-750 | Postfix chains likewise |
| RoundTrip.NotDecl | crates/hlsl-compiler/src/parser.rs:339-347 | No printable expression is mistaken for a declaration |
| StmtRoundTrip.StmtTrip | crates/hlsl-compiler/src/parser.rs:310-457 | Statement round trip: parsing the tokens of a printable statement returns it and stops after it |
| StmtRoundTrip.StmtsTrip | crates/hlsl-compiler/src/parser.rs:302-308 | The same for statement lists |
| UnitRoundTrip.UnitTrip | crates/hlsl-compiler/src/parser.rs:113-140 | Translation-unit round trip: parsing the tokens of a unit as it is written, with element types, modifiers, and semantics and registers that come to nothing, returns the declarations it stands for, with exactly their structs known, where a struct can be used from the declaration behind it on |
| UnitRoundTrip.TopTrip | crates/hlsl-compiler/src/parser.rs:121-272 | Each struct, constant buffer, function and global comes back, and parsing stops after it |
| UnitRoundTrip.ElementDropped | crates/hlsl-compiler/src/parser.rs:483-489 | `Texture2D<...>` is a texture, whatever tokens other than `>` stand in the brackets, and reading goes on behind the `>` |
| UnitRoundTrip.RegisterTrip | crates/hlsl-compiler/src/parser.rs:242-272 | The first word in the parentheses of a register clause is kept, the rest up to the next closing one dropped, as are a colon and a keyword that lead nowhere |
| UnitRoundTrip.ColonTrip | crates/hlsl-compiler/src/parser.rs:460-473 | A semantic or plain word behind a colon is kept, any other token dropped |
| UnitRoundTrip.ModifierDropped | crates/hlsl-compiler/src/parser.rs:294-300 | The four modifiers change nothing |
| UnitRoundTrip.ModifiersExact | crates/hlsl-compiler/src/parser.rs:294-300 | They are `in`, `out`, `inout` and `uniform` |
| UnitRoundTrip.WrittenStandsFor | crates/hlsl-compiler/src/parser.rs:113-140 | Every declaration the parser can return has a writing, so the round trip covers all of them |
| UnitRoundTrip.ParameterExact | crates/hlsl-compiler/src/parser.rs:274-300 | A parameter comes back exactly when its type is not a struct named like a modifier |
| StmtRoundTrip.OpenIfExact | crates/hlsl-compiler/src/parser.rs:77-84 | An `if` without `else` comes back exactly when no keyword of any kind follows |
| StmtRoundTrip.ReturnTakenForElse | crates/hlsl-compiler/src/parser.rs:384-388 | A concrete program read as another one |
| BareBodies.BareIf | crates/hlsl-compiler/src/parser.rs:378-390 | `if (c) s` with a lone statement is read with `s` as its block |
| BareBodies.BareIfElse | crates/hlsl-compiler/src/parser.rs:378-390 | So is `if (c) s else t` |
| BareBodies.ElseBelongsToNearest | crates/hlsl-compiler/src/parser.rs:378-390 | In `if (c) if (d) { ... } else s` the `else` is the inner one's |
| BareBodies.BareFor | crates/hlsl-compiler/src/parser.rs:392-430 | A loop with a lone statement as its body |
| Acceptance.ExprAccepted | crates/hlsl-compiler/src/parser.rs:535-817 | The converse of the round trip: whatever parses as an expression is the text of a syntax tree, levels and associativity respected, that stands for the result, up to where parsing stops |
| StmtAcceptance.StmtAccepted | crates/hlsl-compiler/src/parser.rs:310-457 | So for statements: bodies with and without braces, `else`, loops, declarations |
| UnitAcceptance.UnitAccepted | crates/hlsl-compiler/src/parser.rs:113-300 | So for whole files, every token accounted for and every struct declared before it is used as a type |
| UnitAcceptance.TopAccepted | crates/hlsl-compiler/src/parser.rs:121-272 | And for each declaration |
| StmtRoundTrip.ParenthesesExact | crates/hlsl-compiler/src/parser.rs:770-786 | Any printable expression in parentheses, needed or not, comes back exactly when its text does not start with a type |
| StmtRoundTrip.ExprConsumes | crates/hlsl-compiler/src/parser.rs:535-817 | Parsing consumes at least the words of the tree it returns |
| Tokens.VectorWordExact | crates/hlsl-compiler/src/parser.rs:833-885 | A displayed vector type is read back exactly for two to four components |
| Tokens.MatrixWordExact | crates/hlsl-compiler/src/parser.rs:833-885 | A displayed matrix type is read back exactly with at least one row and two columns |
| Tokens.ScalarWord | crates/hlsl-compiler/src/ast.rs:246-270 | A displayed scalar type is read back |
| TypeWords.TypeWordExact | crates/hlsl-compiler/src/parser.rs:833-885 | A word is a type exactly when it is a kind, a kind and a number from 2 to 4, or a kind and two numbers from 1 to 2^32 - 1 around an `x`, and which type it is |
| LexerState.Lexer.Run | crates/hlsl-compiler/src/lexer.rs:175-200 | The token list is exactly what the specification reads from the source, and one `Eof`; it fails exactly when the specification fails; what is read by the text itself, `Lexing.SourceRead` and `TokenText.TokenSpelled` say |
| LexerState.Lexer.SkipWsAndComments | crates/hlsl-compiler/src/lexer.rs:219-254 | Skips exactly the white space and comments in front, as `Lexing.SkippedIsGap` and `Lexing.GapSkipped` describe them; fails exactly at a block comment that does not end |
| LexerState.Lexer.OneToken | crates/hlsl-compiler/src/lexer.rs:182-194 | Reads exactly one token and advances by its length |
| LexerState.Lexer.ScanDecimal | crates/hlsl-compiler/src/lexer.rs:286-310 | The scan over digits, point and exponent, which `NumberText.NumberScanned` and `NumberText.ScannedIsNumber` describe |
| Lexing.GapSkipped | crates/hlsl-compiler/src/lexer.rs:219-254 | White characters, `//` comments up to a newline and `/* */` comments are skipped in any number and order, whatever follows |
| Lexing.SkippedIsGap | crates/hlsl-compiler/src/lexer.rs:219-254 | Whatever is skipped consists of these, but for a last line comment that the end of the text ends |
| Lexing.UnterminatedExact | crates/hlsl-compiler/src/lexer.rs:232-247 | Skipping fails exactly when they are followed by `/*` and no `*/` behind it |
| Lexing.CommentsIgnored | crates/hlsl-compiler/src/lexer.rs:219-254 | They change no token and leave the rest where it is |
| Lexing.SourceRead | crates/hlsl-compiler/src/lexer.rs:175-254 | Lexing writable tokens with any white space and comments before, between and behind them, or none where the next token does not run into the one before, gives exactly these tokens |
| Lexing.Tiling | crates/hlsl-compiler/src/lexer.rs:175-254 | On success spans are ordered, not empty, apart and inside the source, and every gap is white space and comments as they are written |
| Lexing.MaximalMunch | crates/hlsl-compiler/src/lexer.rs:262-434 | A word is not followed by a word character, a number not by a character that would continue it (digit, first point or exponent, sign of an exponent, suffix), nor an operator character by one that makes a longer operator |
| Lexing.RenderRead | crates/hlsl-compiler/src/lexer.rs:175-517 | So for tokens separated by single spaces |
| Lexing.TokenRead | crates/hlsl-compiler/src/lexer.rs:262-517 | A writable token is read back whatever follows that does not run into it |
| TokenText.TokenSpelled | crates/hlsl-compiler/src/lexer.rs:262-517 | Every token read is spelled by the text it was read from: words, keywords, semantics, numerals with their values, operators |
| TokenText.SemanticsExact | crates/hlsl-compiler/src/lexer.rs:489-517 | A word is a semantic exactly when it starts with `SV_` or is one of the 14 bases with decimal digits or nothing behind it |
| TokenText.HexUintRead | crates/hlsl-compiler/src/lexer.rs:262-285 | A hexadecimal literal with suffix, in either case, is the unsigned number of its digits |
| TokenText.HexIntRead | crates/hlsl-compiler/src/lexer.rs:262-285 | Without suffix it is that number as a signed one of 64 bits |
| TokenText.DigitsExact | crates/hlsl-compiler/src/lexer.rs:321-338 | Decimal digits are accepted exactly up to 2^63 - 1, as their value |
| NumberText.ScannedIsNumber | crates/hlsl-compiler/src/lexer.rs:286-310 | Whatever the decimal scan reads is digits, a point and digits, an exponent with sign and digits, each part optional, in this order, and what is behind does not continue it |
| NumberText.NumberScanned | crates/hlsl-compiler/src/lexer.rs:286-310 | And every such number is read to its end, as a float exactly if it has a point or an exponent |
| NumberText.FloatExact | crates/hlsl-compiler/src/lexer.rs:286-320 | So a float without suffix is accepted exactly when the host's parser takes its text, and then as what that makes of it |
| Lexing.DecimalUintRejected | crates/hlsl-compiler/src/lexer.rs:321-329 | No decimal literal with a `u` or `U` suffix is accepted |
| Lexing.FloatSuffixExact | crates/hlsl-compiler/src/lexer.rs:286-320 | A number with a point or an exponent and an `f` or `F` behind it, in any of the forms the scan reads, is accepted exactly when the host's float parser takes the text with the suffix, and then as that |
| Lexing.FloatSuffixRejected | crates/hlsl-compiler/src/lexer.rs:286-320 | With a parser that takes no text ending in `f` or `F`, no source text whose first token is such a number is accepted |
| FrontEnd.SourceRoundTrip | crates/hlsl-compiler/src/parser.rs:33-35 | From source text to tree: lexing and parsing the text of a printable statement, with any white space and comments between its tokens, gives the statement back and leaves nothing over |
| FrontEnd.FileRoundTrip | crates/hlsl-compiler/src/parser.rs:33-35 | The same for whole files, with all the tokens the parser drops |
| X86.DecodeEncode | crates/pe-loader/src/thunk.rs:304-368 | Decoding undoes encoding for every instruction form and register, whatever follows |
| ThunkCode.EmitReturning | crates/pe-loader/src/thunk.rs:290-371 | The bytes pushed are the encoding of the intended instructions, for every argument count up to 32 |
| ThunkCode.FrameMinimal | crates/pe-loader/src/thunk.rs:290-303 | The frame is the smallest that holds the stack arguments and leaves the stack aligned at the call |
| ThunkCode.EmitCopies | crates/pe-loader/src/thunk.rs:343-352 | The copy loop pushes one load and one store per stack argument, in order |
| ThunkCode.EmitNoreturn | crates/pe-loader/src/thunk.rs:381-407 | The same for the trampoline that does not return |
| ThunkAbi.ArgumentsDelivered | crates/pe-loader/src/thunk.rs:290-357 | Running the bytes from any proper entry state reaches the target with every Windows argument in its System V position, the stack aligned, the saved registers and the return address in place, and only the frame and the slots of arguments 5 to n touched |
| ThunkAbi.CalleeReturnRestores | crates/pe-loader/src/thunk.rs:359-368 | After any conforming callee the trampoline returns to the caller with all registers the Windows convention preserves, the stack pointer, the result and memory as they must be |
| ThunkAbi.NoreturnDelivers | crates/pe-loader/src/thunk.rs:381-407 | The other trampoline reaches its target with up to six arguments in place, stack pointer and memory untouched |
| ThunkAbi.RunCopies | crates/pe-loader/src/thunk.rs:343-352 | The copies put every stack argument in its slot and touch nothing but the argument area |
| ThunkArenas.ThunkArena.MakeThunk | crates/pe-loader/src/thunk.rs:137-152 | Succeeds exactly for at most 32 arguments in an arena that is not sealed, if the code fits or the kernel grants a block; the address returned holds exactly the returning trampoline, 16-aligned, apart from everything handed out before, all of which is intact |
| ThunkArenas.ThunkArena.MakeThunkNoreturn | crates/pe-loader/src/thunk.rs:157-171 | The same for the other trampoline and at most six arguments |
| ThunkArenas.ThunkArena.Grow | crates/pe-loader/src/thunk.rs:225-256 | Growing retires the live block without moving or losing anything handed out |
| ThunkArenas.ThunkArena.Alloc | crates/pe-loader/src/thunk.rs:204-221 | Succeeds exactly when the arena is not sealed and the code fits or the kernel grants a block; the span is aligned and past everything handed out |
| ThunkArenas.ThunkArena.Finalize | crates/pe-loader/src/thunk.rs:175-200 | Succeeds exactly when every block is granted; then every owned block is executable and none writable; after a refusal the arena is still usable; no byte changes |
| ThunkArenas.ThunkArena.HandedOutStaysCallable | crates/pe-loader/src/thunk.rs:64-81 | Once sealed, every address ever handed out is in executable memory holding the code emitted for it |
| ThunkArenas.ThunkArena.Drop | crates/pe-loader/src/thunk.rs:259-275 | Every owned mapping is released once and no other |
| MutexProtocol.AlwaysSafe | crates/ntapi/src/sync.rs:286-329 | In every reachable state at most one thread holds the lock, the word is 0 exactly when none does, the recursion count is its acquires minus its releases modulo 2^32, and no sleeper is stranded |
| MutexProtocol.StepKeepsSafety | crates/ntapi/src/sync.rs:56-92 | Every step of a critical section or mutex keeps exclusion, the owner field and the recursion count |
| MutexProtocol.StepKeepsStirring | crates/ntapi/src/sync.rs:286-329 | No wake-up is lost: with the word 0 and a sleeper, another thread is about to try or about to wake |
| MutexProtocol.StepRefinesLock | crates/ntapi/src/sync.rs:286-329 | Each step is nothing, an acquisition of the free lock, or a release by its holder |
| MutexProtocol.ReleasedOutermost | crates/ntapi/src/sync.rs:317-329 | The word returns to 0 only in the holder's matching outermost release |
| MutexProtocol.OutermostExact | crates/ntapi/src/sync.rs:322-326 | A decrement starts the release exactly when the depth is 1 modulo 2^32, so up to that depth exactly at the outermost release |
| MutexProtocol.NestingWraps | crates/ntapi/src/sync.rs:286-329 | From a new lock, free or created owned, `n` nested acquires and one release are a run; for `n` a multiple of 2^32 it frees the lock with `n` acquires outstanding |
| MutexProtocol.StrayRelease | crates/ntapi/src/sync.rs:317-321 | A release changes nothing exactly when the thread does not hold the lock |
| MutexProtocol.SleeperNotStranded | crates/ntapi/src/sync.rs:286-329 | From any reachable state with the word 0 and a sleeper, at most two steps take the lock |
| MutexProtocol.FirstAcquire | crates/ntapi/src/sync.rs:286-303 | A free lock can be acquired, in any state, with depth 1 and nobody else disturbed |
| MutexProtocol.AcquireBlocks | crates/ntapi/src/sync.rs:304-314 | One that another thread holds puts the thread to sleep, or lets it give up at the deadline with nothing changed |
| MutexProtocol.WokenExact | crates/ntapi/src/sync.rs:304-328 | A sleeper leaves the queue exactly when it wakes up spuriously or is the one woken |
| MutexProtocol.OthersStay | crates/ntapi/src/sync.rs:286-329 | A step moves the thread itself and wakes sleepers; every other thread stays where it is |
| SemaphoreProtocol.Conserved | crates/ntapi/src/sync.rs:376-413 | In every reachable state initial plus released equals taken plus available, up to counted overflows of the word |
| SemaphoreProtocol.NoLostWakeup | crates/ntapi/src/sync.rs:376-413 | While someone sleeps, the count is covered by waiters under way and wake-ups owed |
| SemaphoreProtocol.StepKeepsInv | crates/ntapi/src/sync.rs:376-413 | Every step keeps both |
| SemaphoreProtocol.TakesWhatIsThere | crates/ntapi/src/sync.rs:379-389 | A wait succeeds only by taking an available unit |
| SemaphoreProtocol.OverflowExact | crates/ntapi/src/sync.rs:410-411 | A release adds its count exactly when the sum fits 32 bits |
| SemaphoreProtocol.WaitPasses | crates/ntapi/src/sync.rs:376-389 | An available unit can be taken in any state, and nothing else changes |
| SemaphoreProtocol.WaitBlocks | crates/ntapi/src/sync.rs:390-400 | Without one a wait ends asleep, or gives up at the deadline with nothing changed |
| SemaphoreProtocol.TakeExact | crates/ntapi/src/sync.rs:380-389 | A thread that saw a positive count takes a unit exactly when the count is still the same, and starts over otherwise |
| SemaphoreProtocol.ReleaseOwes | crates/ntapi/src/sync.rs:404-413 | A release goes through for every count, adds it and owes that many wake-ups |
| SemaphoreProtocol.WokenExact | crates/ntapi/src/sync.rs:390-413 | A sleeper leaves the queue exactly when it wakes up spuriously or is among those a release wakes, which are as many as it owes, or all |
| SemaphoreProtocol.WaitEndsExact | crates/ntapi/src/sync.rs:376-401 | A wait ends exactly with a unit taken or at the deadline, whatever else happens |
| SemaphoreProtocol.OthersStay | crates/ntapi/src/sync.rs:376-413 | A step moves the thread itself and wakes sleepers |
| SrwProtocol.Exclusion | crates/ntapi/src/sync.rs:462-509 | In every reachable state the word is the writer flag exactly when one writer and no reader holds the lock, and otherwise the number of readers |
| SrwProtocol.NobodyStranded | crates/ntapi/src/sync.rs:462-509 | With the word 0 and a sleeper someone is trying or about to wake; a sleeping reader has a writer or a wake-all to come |
| SrwProtocol.StepKeepsWord | crates/ntapi/src/sync.rs:462-509 | Every step keeps the word in line with the holders |
| SrwProtocol.StepRefinesLock | crates/ntapi/src/sync.rs:462-509 | Each step is nothing, or one legal acquisition or release of the abstract reader/writer lock |
| SrwProtocol.WritePasses | crates/ntapi/src/sync.rs:462-473 | A free lock can be taken exclusively |
| SrwProtocol.ReadPasses | crates/ntapi/src/sync.rs:480-491 | One that nobody holds exclusively can be taken shared, by one reader more |
| SrwProtocol.AcquireBlocks | crates/ntapi/src/sync.rs:474-494 | A held lock puts a writer to sleep, an exclusively held one a reader |
| SrwProtocol.AcquireEndsExact | crates/ntapi/src/sync.rs:462-495 | An acquisition ends exactly when its own exchange succeeds, in the mode it was started in, whatever else happens |
| SrwProtocol.ReleaseFrees | crates/ntapi/src/sync.rs:497-509 | Every holder can release: the word loses the writer or one reader, and the last reader owes a wake-up |
| SrwProtocol.WokenExact | crates/ntapi/src/sync.rs:474-509 | A sleeper leaves the queue exactly when it wakes up spuriously, everyone is woken, or it is the one woken |
| SrwProtocol.OwedCanBePaid | crates/ntapi/src/sync.rs:497-509 | A wake-up owed is always possible |
| EventProtocol.SignalsAccounted | crates/ntapi/src/sync.rs:173-222 | Every 0-to-1 change is consumed by one wait, cleared, or still there; that a set makes the change, `SetSignals` says |
| EventProtocol.NoLostWakeup | crates/ntapi/src/sync.rs:173-222 | While signaled with a sleeper, a wake-up is owed or, for auto-reset only, a waiter that is awake has yet to try; that a set signals, `SetSignals` says |
| EventProtocol.StepKeepsStirring | crates/ntapi/src/sync.rs:173-222 | Every step keeps that |
| EventProtocol.WaitEndsSignaled | crates/ntapi/src/sync.rs:190-222 | A wait succeeds exactly at a signaled word, which manual reset leaves and auto reset takes |
| EventProtocol.PulseReleasesExact | crates/ntapi/src/sync.rs:184-222 | For every run after a pulse with a sleeper, until the next raise: a wait of the sleeper succeeds exactly when its load (for auto-reset its exchange) comes before the end of the pulse, every reset and every other exchange |
| EventProtocol.PulseCanReleaseNobody | crates/ntapi/src/sync.rs:184-188 | A concrete run in which a pulse releases no waiter |
| EventProtocol.SetSignals | crates/ntapi/src/sync.rs:173-178 | A set is always possible; the word is 1 then and stays 1 in every run until a reset, the end of a pulse or an exchange; the setter only has its wake-up left to do |
| EventProtocol.RaiseReleasesExact | crates/ntapi/src/sync.rs:173-222 | After a set or pulse, in every run up to the next: a wait of any thread succeeds exactly when its load (for auto-reset its exchange) comes before everything that lowers the word |
| EventProtocol.WaitPasses | crates/ntapi/src/sync.rs:190-206 | A wait at a signaled word goes through, leaving a manual-reset event as it is and taking the signal of an auto-reset one |
| EventProtocol.WaitBlocks | crates/ntapi/src/sync.rs:207-221 | At an unsignaled word it ends asleep, or gives up at the deadline with nothing changed |
| EventProtocol.WaitEndsExact | crates/ntapi/src/sync.rs:190-222 | A wait ends exactly at a signaled word or at the deadline, whatever else happens |
| EventProtocol.WokenExact | crates/ntapi/src/sync.rs:173-222 | A sleeper leaves the queue exactly when it wakes up spuriously or by the wake-up of a set or pulse: all for manual reset, one for auto-reset, and none only if nobody sleeps |
| EventProtocol.SignalEnds | crates/ntapi/src/sync.rs:173-188 | A reset lowers the word and nothing else; after its wake-up a set is over, and a pulse lowers the word first |
| EventProtocol.OthersStay | crates/ntapi/src/sync.rs:173-222 | A step moves the thread itself and wakes sleepers |
| Relocation.ApplyRelocations | crates/pe-loader/src/mapping.rs:339-448 | For every table: in place, every word named (`RelocationTable.DecodeUndoesEncode`) is moved, up to the first malformed block, word outside the image or unmapped byte, and the result says which; nothing happens at the preferred base |
| Relocation.WalkTable | crates/pe-loader/src/mapping.rs:376-445 | The walk over blocks moves exactly the words decoded, whatever the table holds; which these are, `RelocationTable.DecodeUndoesEncode` says |
| Relocation.ApplyBlock | crates/pe-loader/src/mapping.rs:394-443 | The walk over the entries of a block likewise: page plus offset, with the width of the type |
| Relocation.PatchInPlace | crates/pe-loader/src/mapping.rs:498-530 | One word is replaced by its value plus delta modulo its width |
| Relocation.WordsMoved | crates/pe-loader/src/mapping.rs:498-530 | For words that do not overlap, each gains delta modulo its width |
| Relocation.OtherBytesKept | crates/pe-loader/src/mapping.rs:376-445 | Every other byte is unchanged |
| Relocation.RelocationsCompose | crates/pe-loader/src/mapping.rs:376-445 | Relocating twice is relocating by the sum |
| Relocation.RelocationsUndo | crates/pe-loader/src/mapping.rs:376-445 | Relocating back restores the image |
| Relocation.ZeroMovesNothing | crates/pe-loader/src/mapping.rs:350-360 | The shortcut at the preferred base leaves the bytes the full walk would, overlapping or not |
| Relocation.OverrunAccepted | crates/pe-loader/src/mapping.rs:27-29 | A concrete table whose word starts in the image and ends 7 bytes behind it: patched if they are mapped, a fault if not |
| Relocation.TailKeptExact | crates/pe-loader/src/mapping.rs:404-409 | For words that do not overlap, memory behind the image is left alone, whatever the image and the move, exactly when every word ends inside |
| RelocationTable.DecodeUndoesEncode | crates/pe-loader/src/mapping.rs:376-445 | For every table written out as blocks of page, size and entries: decoding names, in order, 8, 4 or 2 bytes at page plus offset for types 10, 3 and 2 and nothing for others, up to the first that starts outside the image or is not mapped; what stands behind the last block ends the walk, as malformed if it holds a header |
| RelocationTable.TableRelocates | crates/pe-loader/src/mapping.rs:376-445 | From table to image: if its words do not overlap, each word named gains delta modulo its width, and no other byte changes |

## Left out

- Textures, samplers, constant buffers, matrices and method calls in the emitter: an error in the model, so the theorems say nothing about them.
- BodyPreservation.BodyPreserved: says nothing where the interpreter stops; for operands `Coverage` shows that the emitted code is wrong there, and division by zero and unwritten reads have no HLSL value.
- BodyPreservation.NeverBroken: assumes that the source is not stuck; `Typing.WellTypedNeverBroken` has the static premise.
- BodyPreservation.HaltingReflectsReturn: likewise; `Typing.WellTypedHaltingReflects` has the static premise.
- Intrinsics on vectors of different lengths have no meaning in `HlslMeaning`.
- CompoundAssignment.Desugars: where `x = x op e` is not covered it says nothing; what `x op= e` is there, `CompoundAssignment.CompoundMeansHlsl` and `Coverage.CompoundCoverageIsExact` say.
- Numeric ids of types: instructions carry the type itself, so sharing of type declarations is not modelled.
- `infer_type` on an intrinsic without arguments panics in the source and is an error in the model.
- Interface decorations, entry-point declarations and the binary form of SPIR-V modules.
- SPIR-V's rule that a merge instruction comes right before the terminator: a loop header's condition stands between them.
- Struct types with 2^32 or more members are excluded by the premises of the preservation theorem.
- CodegenContext.Ctx.EmitFunctionBody: error messages are not compared, and the state after an error is not specified, because the source abandons the context then.
- ParserState.Parser.ParseExpr: error messages and source spans are not compared.
- Lexing.SourceRead: words that the lexer classifies otherwise, and floats without a plain decimal rendering, have no text; hexadecimal spellings are `TokenText.HexUintRead` and `TokenText.HexIntRead`.
- RoundTrip.PrintTrip: covers the trees the grammar can produce (`Acceptance.ExprAccepted`); scalar constructors, bitwise operators and parentheses that start with a type have no reading, as `ParenthesesExact` shows for the last.
- Floating-point and vector registers in trampolines: the source handles integer arguments only.
- ThunkAbi.ArgumentsDelivered: memory is a map of aligned words, so a misaligned stack is not modelled beyond the entry condition.
- ThunkArenas.ThunkArena.Grow: the kernel's choice of address is a parameter, assumed free; sizes do not wrap at 2^64.
- Page protections around each relocation patch, and the lookup of the table in the file: where bytes behind the image are not mapped, the model ends the walk, and the source fails to change their protection or faults.
- Weak memory ordering, real clocks and fairness: steps are sequentially consistent and time-outs may happen at any time.
- `WaitForMultipleObjects`, handle tables and object lifetimes.
- SrwProtocol.Exclusion: a thread that holds the lock shared twice counts as two threads.
- SemaphoreProtocol.Conserved: the maximum count given at creation is ignored, as in the source.
