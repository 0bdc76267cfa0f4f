# tac-os: a verified model of the tool chain, the database, the pose estimator and the broker

This project models four parts of tac-os in Dafny and proves what they promise.

**The `tacc` compiler and the `tacvm` machine.** `Semantics` gives the source language a meaning of its own: names in
nested scopes, left-to-right evaluation, bounded 64-bit `Int`, `Float` restricted to finite values, and a trace of
Runtime calls. `CheckerSpec`, `CodeGenSpec`, `FileFormat` and `MachineSpec` say what the checker, the code generator,
the writer, the loader and one machine step compute. `TypeChecker`, `Builders`, `CodeGenerator`, `BytecodeWriter`,
`Loader` and `VirtualMachine` are the same components as they run (scopes and a slot counter, a code buffer with
patched jumps, an output stream, a reader and a sweep over an array of boundaries, frames and an operand stack), each
proved to compute what its specification says. On top of that: a checked program cannot go wrong (`TypeSoundness`), the
machine does what the source means (`Simulation`, `Toolchain`), which programs are accepted, by typing rules and by
counting (`Typing`, `Capacity`), in which file version (`FloatUse`), what the operators compute (`Arithmetic`), that constants stay what they are
(`Constants`), the file round-trips (`RoundTrip`, `FileExample`), the loader takes back exactly the compiled programs
that meet a stated condition (`Assembly`, `Acceptance`, `Loading`, `Limits`), whatever the loader accepts stays in
bounds (`VerifierSoundness`), and calls are isolated from each other (`FrameIsolation`). `Driver` composes the two
programs and states the result for a whole compile-and-run.

**The SQL database.** `SqlLexer`, `SqlGrammar` and `SqlParser` model lexing and parsing; `SqlPrinting`, `SqlRoundTrip`
and `SqlLanguage` prove that every rendering of a statement is read back and that nothing else is accepted.
`Relational` says what statements do to tables of values; `QueryLaws` says it again cell by cell, with every error;
`RelationalLaws` proves atomicity, sound tables over every session and idempotent updates; `Storage` and `Database`
are the tables as they are stored, with rows that are arrays changed in place. `StatementFraming` is the stdin framer,
`Server` the connections around one lock.

**Marker pose recovery.** `LinearSystem` is Gaussian elimination with partial pivoting, `Pose` the estimate of a
position from four corners, both over the real numbers.

**The publish/subscribe broker.** `Broker` is the shared map of subscribers and a state machine of handlers,
publications and deliveries.

Two facts about the code differ from what is written next to it, and the model follows the code:

- `compiler/src/main/kotlin/tacc/CodeGen.kt:16-17` says that no jump ever targets the end of the code. A value-returning
  function with a statement behind an always-returning one can have such a jump, and the loader then refuses the file
  that the compiler has just written (`Loading.DeadLoopIsRefused`). `Loading.LoadsBackIff` gives the exact condition.
- The compiler admits 65536 constants and 65536 functions, but writes their number into 16 bits, where 65536 becomes 0
  (`RoundTrip.RoundTripIffCountsFit`). `Limits` gives two programs that are compiled and then refused.

The semantics preserved is that of the machine, in which an `Int` overflow is an error. The reference interpreter in
the compiler's own tests (`compiler/src/test/kotlin/tacc/TestSupport.kt:129-141`) wraps around instead.

`dafny verify dfyconfig.toml` checks the whole project.

## Model

| member | source | states |
|---|---|---|
| `Driver.CompileAndRun` | compiler/src/main/kotlin/tacc/Main.kt:7-11 | compile a program, load the file, run it: whatever the machine ends with, other than a stack limit, is the value or error the source semantics gives, after the same Runtime calls |
| `Driver.Compile` | compiler/src/main/kotlin/tacc/Main.kt:7-11 | the bytes are those of the module generated from the checked tree, or the error of the first phase that fails; a checked program always has its `main` |
| `Driver.CompilesExactly` | compiler/src/main/kotlin/tacc/Main.kt:7-11 | a program is compiled exactly if it has a typing and its annotated form has room for its functions, variables, code and constants |
| `Toolchain.SemanticPreservation` | compiler/src/main/kotlin/tacc/CodeGen.kt:57-189 | for every checked program, world and fuel: the machine ends with the source's value or error and trace, is still running when the source is, or has hit a stack limit after a prefix of the trace |
| `Toolchain.EndedRun` | vm/src/vm.cpp:360-508 | every ended run of a compiled program agrees with the source given fuel for the steps taken |
| `Toolchain.ResultReflected` | vm/src/vm.cpp:495-502 | a value the machine returns is the value the source program yields, with the same trace |
| `Toolchain.ErrorReflected` | vm/src/vm.cpp:394-448 | an error that is no stack limit is the error of the source program, with the same trace |
| `Toolchain.TypeSafety` | vm/src/vm.cpp:366-568 | a compiled program stops only with an arithmetic error, a Runtime error or a stack limit; wrong kinds, non-Bool conditions, underflow, uninitialised locals, Float arguments to the Runtime and a missing RET cannot occur |
| `TypeSoundness.CheckedProgramsDoNotGoWrong` | compiler/src/main/kotlin/tacc/Checker.kt:52-272 | a checked program never reaches a point where the semantics has no meaning, whatever the Runtime answers within its signatures |
| `TypeSoundness.ExprSound` | compiler/src/main/kotlin/tacc/Checker.kt:182-272 | an expression of static type T yields a value of type T, or a legitimate error |
| `TypeSoundness.StmtSound` | compiler/src/main/kotlin/tacc/Checker.kt:92-173 | a checked statement keeps every visible variable at its declared type and returns only values of the function's type |
| `Fuel.ResultIndependentOfFuel` | spec/language.md:66-88 | two fuels that both suffice give the same result, so fuel only says how long one looks |
| `Arithmetic.IntDivision` | vm/src/vm.cpp:407-414 | `/` on Int is an error exactly for a zero divisor and for the smallest Int divided by -1; otherwise it yields the one number whose product with the divisor misses the dividend by less than the divisor, on the side of zero |
| `Arithmetic.IntArithmetic` | vm/src/vm.cpp:404-418 | `+`, `-`, `*` and unary minus are exact, or an overflow exactly when the result is no 64-bit number |
| `Arithmetic.IntComparison` | vm/src/vm.cpp:415-415 | the six comparisons, by which of the three orders holds |
| `Arithmetic.FloatComparison` | vm/src/vm.cpp:430-432 | the six comparisons of finite Floats are those of their bit patterns as sign and magnitude, with both zeros equal |
| `Arithmetic.ComparedByBits` | vm/src/vm.cpp:430-432 | the order of the real values that patterns denote is the order of the patterns |
| `Arithmetic.FloatArithmetic` | vm/src/vm.cpp:434-447 | a result that is not finite and a zero divisor are errors, and every other result is the rounded one |
| `Arithmetic.FloatNegation` | vm/src/vm.cpp:449-450 | unary minus changes the sign and nothing else, of zeros too |
| `Arithmetic.DivisionRuns` | vm/src/vm.cpp:407-414 | the program that returns a quotient of two literals ends with that quotient or with the error |
| `Simulation.SimFunction` | compiler/src/main/kotlin/tacc/CodeGen.kt:26-49 | a call of a compiled function runs its source meaning and leaves the caller untouched but for one result |
| `Simulation.SimStmt` | compiler/src/main/kotlin/tacc/CodeGen.kt:57-116 | the code of every statement does what the statement means, with every visible variable in its slot before and after |
| `Simulation.SimExpr` | compiler/src/main/kotlin/tacc/CodeGen.kt:125-158 | the code of every expression pushes its value on an otherwise unchanged stack and changes no local below the temporaries |
| `Simulation.SimSwapped` | compiler/src/main/kotlin/tacc/CodeGen.kt:160-177 | for nested `>` and `<=` the left operand is evaluated first, and its saved value is still in its temporary when reloaded |
| `Simulation.NegatedOperator` | compiler/src/main/kotlin/tacc/CodeGen.kt:178-188 | on reachable (finite) operands NOT of the opposite comparison is the comparison, both zeros included |
| `Simulation.StoreAssigned` | compiler/src/main/kotlin/tacc/Checker.kt:108-123 | an assignment through a slot changes exactly the variable that the innermost visible declaration binds |
| `Simulation.StoreDeclared` | compiler/src/main/kotlin/tacc/Checker.kt:276-287 | a declaration stores into a slot that no visible variable uses |
| `Slots.EveryDeclarationHasItsOwnSlot` | compiler/src/main/kotlin/tacc/Checker.kt:276-287 | the declarations of a function, shadowed, in sibling blocks or in loops, have consecutive slots behind the parameters, one each, at most 256 in all |
| `Slots.FunctionSlots` | compiler/src/main/kotlin/tacc/Checker.kt:66-88 | parameters and locals of a checked function fit 256 slots and the reported count is their number |
| `Slots.StmtSlots` | compiler/src/main/kotlin/tacc/Checker.kt:92-142 | after any statement, no two visible variables share a slot |
| `Typing.AcceptedIffTyped` | compiler/src/main/kotlin/tacc/Checker.kt:52-293 | the checker accepts exactly the programs that have a typing by rules on the source tree: what is in force is the last declaration of a name, an assignment needs a `let`, operators take the operand types of the language, at most 255 parameters, 255 other variables and 256 in all, and no value-returning function can be left but by `return` |
| `Typing.TypedIffChecked` | compiler/src/main/kotlin/tacc/Checker.kt:182-272 | an expression has a type exactly if the checker accepts it with that type |
| `Typing.AllowedIffChecked` | compiler/src/main/kotlin/tacc/Checker.kt:92-173 | a statement is allowed, with room for its variables, exactly if the checker accepts it, and leaves behind the declarations of the rules |
| `Typing.OperatorRules` | compiler/src/main/kotlin/tacc/Checker.kt:206-237 | arithmetic and order on two Ints or two Floats, equality on two values of any one type |
| `Constants.ConstantsStay` | compiler/src/main/kotlin/tacc/Checker.kt:108-115 | in every run a `const` has the value it was declared with, after any number of the statements behind its declaration |
| `Constants.ParametersStay` | compiler/src/main/kotlin/tacc/Checker.kt:108-115 | in every run a parameter has its argument, wherever the body has got to |
| `Constants.StmtKeeps` | compiler/src/main/kotlin/tacc/Checker.kt:92-142 | no checked statement changes a visible constant or parameter, by whatever loops and blocks it runs through |
| `Constants.AssignToConstRefused` | compiler/src/main/kotlin/tacc/Checker.kt:111-111 | an assignment to a constant is refused as such |
| `Constants.AssignToParameterRefused` | compiler/src/main/kotlin/tacc/Checker.kt:112-112 | and so is one to a parameter |
| `TypeChecker.Checker.Check` | compiler/src/main/kotlin/tacc/Checker.kt:52-64 | the checker as it runs accepts, annotates and refuses as specified, and so accepts exactly what `Typing.AcceptedIffTyped` says; the function index is built once and duplicates are found |
| `TypeChecker.Checker.CheckFunction` | compiler/src/main/kotlin/tacc/Checker.kt:66-88 | parameters share the scope of the body, a missing return is refused, the local count is the slots handed out |
| `TypeChecker.Checker.CheckStmt` | compiler/src/main/kotlin/tacc/Checker.kt:92-136 | annotated statement and new scopes, or the first error, as specified; a block's scope is closed and its slots stay taken |
| `TypeChecker.Checker.CheckExpr` | compiler/src/main/kotlin/tacc/Checker.kt:182-204 | the annotated expression or the first error, without changing the scopes |
| `TypeChecker.Checker.CheckArgs` | compiler/src/main/kotlin/tacc/Checker.kt:260-271 | arguments are checked left to right against the parameter types |
| `TypeChecker.Checker.Declare` | compiler/src/main/kotlin/tacc/Checker.kt:276-287 | duplicates in the innermost scope and exhausted slots are refused, and otherwise the next slot is bound |
| `TypeChecker.Checker.Lookup` | compiler/src/main/kotlin/tacc/Checker.kt:290-293 | the innermost declaration, or nothing if there is none |
| `CodeGenerator.Generate` | compiler/src/main/kotlin/tacc/CodeGen.kt:26-49 | the generator as it runs yields the specified module or error |
| `CodeGenerator.CodeGen.GenFunction` | compiler/src/main/kotlin/tacc/CodeGen.kt:30-42 | one function: its code, its slot count with the deepest temporary, and the grown pool |
| `CodeGenerator.CodeGen.GenStmt` | compiler/src/main/kotlin/tacc/CodeGen.kt:57-79 | exactly the specified bytes are appended to the code |
| `CodeGenerator.CodeGen.GenIf` | compiler/src/main/kotlin/tacc/CodeGen.kt:88-101 | after both patches the two forward jumps have the absolute targets of the specification |
| `CodeGenerator.CodeGen.GenWhile` | compiler/src/main/kotlin/tacc/CodeGen.kt:109-116 | the loop jumps back to its condition and forward to its patched end |
| `CodeGenerator.CodeGen.GenExpr` | compiler/src/main/kotlin/tacc/CodeGen.kt:125-158 | exactly the specified bytes are appended, and the temporaries in use are as before |
| `CodeGenerator.CodeGen.GenBinary` | compiler/src/main/kotlin/tacc/CodeGen.kt:160-189 | temporaries are taken and given back like a stack, with the deepest one recorded |
| `Capacity.GeneratesExactly` | compiler/src/main/kotlin/tacc/CodeGen.kt:26-49 | code is generated for a checked program exactly if it has at most 65536 functions, at most 65536 different constants, and in each function at most 255 locals and temporaries, 256 slots and 2147483647 bytes of code; names, parameter counts, local counts and code sizes are then those of the source |
| `Capacity.ExprExactly` | compiler/src/main/kotlin/tacc/CodeGen.kt:125-189 | which constants, how many temporaries at once and how many bytes an expression needs, and that it is refused exactly if they do not fit |
| `Capacity.StmtExactly` | compiler/src/main/kotlin/tacc/CodeGen.kt:57-116 | the same for statements |
| `FloatUse.VersionExactly` | spec/bytecode.md:113-115 | a program is written as version 2 exactly if its source has a Float literal or names Float as the type of a variable, a parameter or a result, and as version 1 otherwise |
| `Builders.ConstantPool.IntConstant` | compiler/src/main/kotlin/tacc/Bytecode.kt:51-55 | the index of the first equal constant; the pool grows only if there is none, and its index maps stay exact |
| `Builders.ConstantPool.FloatConstant` | compiler/src/main/kotlin/tacc/Bytecode.kt:57-61 | the same, by bit pattern, so that the two zeros are different constants |
| `Builders.ConstantPool.StringConstant` | compiler/src/main/kotlin/tacc/Bytecode.kt:45-49 | the same for text |
| `Builders.CodeBuilder.JumpForward` | compiler/src/main/kotlin/tacc/Bytecode.kt:96-101 | a placeholder operand, and where it is |
| `Builders.CodeBuilder.Patch` | compiler/src/main/kotlin/tacc/Bytecode.kt:104-106 | the four operand bytes become the target, and no other byte changes |
| `Builders.PoolIndexAppend` | compiler/src/main/kotlin/tacc/Bytecode.kt:39-64 | indices of constants are stable while the pool grows |
| `Bytecode.DecodeEncode` | compiler/src/main/kotlin/tacc/Bytecode.kt:67-125 | every encoded instruction whose operands fit is decoded back, and decoding ends just behind it |
| `FileExample.Opcodes` | spec/bytecode.md:68-143 | every instruction starts with its opcode and has operands of the specified widths |
| `Bytes.LittleEndianRoundTrip` | compiler/src/main/kotlin/tacc/Bytecode.kt:108-122 | a number written in w bytes is read back modulo 256^w |
| `Bytes.SignedRoundTrip` | vm/src/vm.cpp:117-124 | every signed 64-bit number is read back from its eight bytes |
| `BytecodeWriter.Write` | compiler/src/main/kotlin/tacc/BytecodeWriter.kt:15-23 | the stream holds the specified file |
| `BytecodeWriter.OutputStream.WriteConstantPool` | compiler/src/main/kotlin/tacc/BytecodeWriter.kt:25-43 | the count (its low 16 bits) and the constants, tagged, in order |
| `BytecodeWriter.OutputStream.WriteFunctionTable` | compiler/src/main/kotlin/tacc/BytecodeWriter.kt:45-54 | the count (its low 16 bits) and the functions in order |
| `BytecodeWriter.OutputStream.WriteI64` | compiler/src/main/kotlin/tacc/BytecodeWriter.kt:74-78 | eight bytes, lowest first, two's complement |
| `FileExample.ExampleFile` | spec/bytecode.md:10-38 | the file of a module with an Int, a String and a Float constant and one function, byte by byte |
| `RoundTrip.SerializationRoundTrip` | compiler/src/main/kotlin/tacc/BytecodeWriter.kt:15-79 | for every module within the limits, reading the written bytes gives back constants, functions, code, entry and version, and consumes every byte |
| `RoundTrip.RoundTripIffCountsFit` | compiler/src/main/kotlin/tacc/CodeGen.kt:27-29 | among the modules the compiler admits, the file round-trips exactly when there are at most 65535 constants and 65535 functions |
| `RoundTrip.ConstantCountWraps` | compiler/src/main/kotlin/tacc/BytecodeWriter.kt:26-26 | with 65536 constants the file does not give the module back |
| `RoundTrip.FunctionCountWraps` | compiler/src/main/kotlin/tacc/BytecodeWriter.kt:46-46 | with 65536 functions the file does not give the module back |
| `Loading.LoadsBackIff` | vm/src/vm.cpp:202-353 | the loader returns the compiled program exactly when both counts are at most 65535 and no value-returning function jumps to its own end |
| `Loading.LoadOutcome` | vm/src/vm.cpp:202-353 | with at most 65535 constants: the compiled program, or trailing bytes if there are 65536 functions, or an invalid jump target if a value-returning function jumps to its own end; nothing else can be wrong with a compiled file |
| `Loading.NoDeadCodeLoads` | compiler/src/main/kotlin/tacc/Ast.kt:106-111 | in particular it does if no value-returning function has a statement behind an always-returning one |
| `Loading.LiveCodeEndsWithReturn` | compiler/src/main/kotlin/tacc/Ast.kt:106-111 | an always-returning statement without dead code never jumps to its end |
| `Loading.DeadLoopCompiles` | compiler/src/main/kotlin/tacc/CodeGen.kt:109-116 | a function that returns and then loops is checked and compiled |
| `Loading.DeadLoopIsRefused` | vm/src/vm.cpp:345-349 | and the loader refuses its file for an invalid jump target |
| `Limits.ManyFunctionsWrap` | compiler/src/main/kotlin/tacc/CodeGen.kt:27-29 | `main` and 65535 more empty functions with names of their own are checked and compiled, and the loader refuses the written file for trailing bytes |
| `Limits.ManyConstantsWrap` | compiler/src/main/kotlin/tacc/CodeGen.kt:219-222 | a `main` that assigns 0 to 65535 in turn is checked and compiled with 65536 constants, and the loader refuses the written file |
| `Limits.AllEmptyGenerated` | compiler/src/main/kotlin/tacc/CodeGen.kt:30-49 | any number of empty functions share the one constant 0 and keep their names |
| `Limits.AssignmentsGenerated` | compiler/src/main/kotlin/tacc/CodeGen.kt:213-222 | each new Int literal gets the next index of the pool, up to 65535 |
| `Acceptance.StmtInstrs` | compiler/src/main/kotlin/tacc/CodeGen.kt:57-116 | the code of a statement is a sequence of instructions that pass every load-time test, with jumps that land on instructions or, exactly under the stated condition, at the end |
| `Acceptance.ExprInstrs` | compiler/src/main/kotlin/tacc/CodeGen.kt:125-189 | the same for expressions; Float opcodes occur only where the version is 2 |
| `Assembly.SweepAssembled` | vm/src/vm.cpp:265-344 | the sweep over assembled code finds exactly the instruction starts and the jump targets |
| `Loader.Load` | vm/src/vm.cpp:202-353 | the loader as it runs returns the specified program or the specified error |
| `Loader.CheckFunction` | vm/src/vm.cpp:267-350 | the boundary array and the collected targets decide as the specification does |
| `Loader.Reader.Instruction` | vm/src/vm.cpp:272-344 | one instruction is read, judged and skipped exactly as decoding says; truncated operands are an error before any index is judged |
| `Loader.Reader.ProgramAndVersion` | vm/src/vm.cpp:202-256 | magic, version, constants, functions, entry, and no trailing byte |
| `Loader.Reader.Constant` | vm/src/vm.cpp:224-239 | tags, the two's complement Int, the finite Float only in version 2 |
| `Loader.Reader.U64` | vm/src/vm.cpp:117-135 | eight bytes added up by their places |
| `VerifierSoundness.AcceptedProgramsStayInBounds` | vm/src/vm.cpp:265-350 | for any accepted bytes, compiled or not, and any world, every reachable state has instruction pointers at boundaries, indices in range, ordered frame bases, both limits kept and only finite Floats; the invalid-opcode error is dead |
| `VerifierSoundness.AtBoundary` | vm/src/vm.cpp:271-349 | at a boundary there is an approved instruction, and both its successor and its jump target are boundaries or the end |
| `VerifierSoundness.ExecOk` | vm/src/vm.cpp:378-505 | executing an approved instruction keeps the invariant |
| `VerifierSoundness.RetOk` | vm/src/vm.cpp:495-502 | the push in RET never overflows; RET fails only by underflow |
| `VerifierSoundness.AcceptedIsChecked` | vm/src/vm.cpp:219-263 | acceptance implies a parameterless entry, verified functions and finite constants |
| `VerifierSoundness.LegacyFilesAreFloatFree` | vm/src/vm.cpp:318-329 | an accepted version 1 file has no Float constant and no Float instruction at any boundary |
| `VerifierSoundness.FramesAreIsolated` | vm/src/vm.cpp:473-502 | until it is returned to, a frame and all frames below it keep their locals and operands, over runs of any length |
| `FrameIsolation.CompletedCall` | vm/src/vm.cpp:473-502 | a completed call leaves the caller's frame as it was and its operands as before minus the arguments plus one result |
| `FrameIsolation.CalleesAreBlind` | vm/src/vm.cpp:510-552 | two machines that differ only below a callee do the same while it runs and fail alike: it never reads its callers |
| `VirtualMachine.RunFile` | vm/src/vm.cpp:578-581 | load and run: the specified load error, or the specified outcome and trace |
| `VirtualMachine.Vm.Run` | vm/src/vm.cpp:360-508 | the loop does what that many specified steps do |
| `VirtualMachine.Vm.Step` | vm/src/vm.cpp:363-506 | fetch, decode and execute as specified, with every vector access proved in range although none is tested |
| `VirtualMachine.Vm.Operand` | vm/src/vm.cpp:371-377 | the little-endian operand, and the instruction pointer behind it |
| `VirtualMachine.Vm.Arguments` | vm/src/vm.cpp:547-552 | the arguments in the order they were pushed, or underflow |
| `VirtualMachine.Vm.MakeFrame` | vm/src/vm.cpp:522-533 | arguments in the first locals, all others uninitialised |
| `StepLemmas.LimitsAreReal` | vm/src/vm.cpp:477-536 | a run ends with a stack limit only if it came to a state with 65536 operands or 1024 frames |
| `StepLemmas.LimitsAreKept` | vm/src/vm.cpp:512-536 | no run of any program has more operands or frames than that |
| `Floats.NegatedComparison` | vm/src/vm.cpp:427-432 | `a <= b` is the negation of `b < a` exactly when neither is a NaN, in particular on all finite values |
| `Floats.ZerosAreEqual` | vm/src/vm.cpp:430-432 | the two zeros are equal and neither is less than the other |
| `Values.TruncatesTowardZero` | vm/src/vm.cpp:407-414 | the quotient leaves a remainder smaller than the divisor and with the sign of the dividend |
| `Values.QuotientInRange` | vm/src/vm.cpp:409-413 | only the smallest Int divided by -1 overflows |
| `MachineSpec.StepsAdd` | vm/src/vm.cpp:363-506 | runs can be cut anywhere |
| `SqlLexer.Tokens` | server/dbms/lexer.go:31-115 | the scanner as it runs yields the specified tokens or the first error |
| `SqlLexer.Lex` | server/dbms/lexer.go:31-115 | every token starts within the source, the end token is last and only last, an error points into the source or just behind it |
| `SqlParser.ParseStatement` | server/dbms/parser.go:132-161 | the parser as it runs yields the specified statement or error and never looks behind the end token |
| `SqlParser.Parser.Names` | server/dbms/parser.go:84-96 | a comma-separated list, to the first token that is no comma |
| `SqlParser.Parser.Value` | server/dbms/parser.go:109-131 | TEXT as decoded, INTEGER in the 64-bit range, REAL if finite |
| `SqlParser.Parser.UpdateStatement` | server/dbms/parser.go:262-306 | as many values as columns, and a condition |
| `SqlGrammar.Parse` | server/dbms/parser.go:132-161 | a parsed UPDATE has a condition and a value for every column; every error position is in 0..length |
| `SqlRoundTrip.PrintParseRoundTrip` | server/dbms/parser.go:132-306 | for every statement, with any names (keywords too), numbers and texts, in any spacing that keeps tokens apart and any case of the keywords, the rendered text parses to that statement |
| `SqlRoundTrip.RenderRoundTrip` | server/dbms/parser.go:132-306 | the plain rendering is one of these, for any way of spelling REAL values as digits on both sides of a point that the conversion takes back |
| `SqlLanguage.ParsedIsSpelled` | server/dbms/parser.go:132-306 | conversely, the tokens of an accepted source are those of the parsed statement |
| `SqlLanguage.AcceptedExactly` | server/dbms/parser.go:132-306 | a source is accepted if and only if its tokens are those of some statement |
| `SqlLanguage.CharacterClasses` | server/dbms/lexer.go:31-115 | letters, digits, white space and punctuation, as characters |
| `SqlLanguage.KeywordsInAnyCase` | server/dbms/parser.go:57-64 | a word is a keyword exactly if each letter is that of the keyword, capital or small |
| `SqlPrinting.LexLayout` | server/dbms/lexer.go:31-115 | the tokens of a layout are its lexemes and nothing else |
| `SqlPrinting.ScanDoubled` | target-service/dbclient/client.go:232-232 | any text with its apostrophes doubled is decoded back |
| `SqlPrinting.IntegerBack` | server/dbms/parser.go:115-120 | every 64-bit number is parsed back from its decimal text |
| `Relational.Resolve` | server/dbms/database.go:73-86 | the columns found are distinct and each has the type of its value |
| `Relational.AssignedCell` | server/dbms/database.go:166-168 | a cell has the value assigned to its column, or the one it had |
| `RelationalLaws.FailuresChangeNothing` | server/dbms/database.go:17-51 | a statement text that fails, for whatever reason, leaves the whole database unchanged, and so does a SELECT |
| `RelationalLaws.StatementKeeps` | server/dbms/database.go:17-171 | every statement keeps all rows at schema width with exact column types, and column names unique |
| `RelationalLaws.SessionsStaySound` | server/dbms/database.go:17-51 | the same over every sequence of statement texts |
| `RelationalLaws.InsertedCell` | server/dbms/database.go:67-92 | an inserted row has at every column the value given for that column: no placeholder is left |
| `RelationalLaws.InsertsExactly` | server/dbms/database.go:67-92 | INSERT succeeds exactly when every column gets one value of its type |
| `RelationalLaws.DefinedExactly` | server/dbms/database.go:26-35 | CREATE succeeds exactly when no column is named twice, and the table has the columns as written |
| `RelationalLaws.SelectedExactly` | server/dbms/database.go:124-134 | the loop over the rows yields the matching ones, each once and in table order, cut down to the selected columns |
| `RelationalLaws.UpdateIsIdempotent` | server/dbms/database.go:137-171 | the same UPDATE twice equals once, even when it sets the column of its condition |
| `QueryLaws.UpdateLaw` | server/dbms/database.go:137-171 | an UPDATE succeeds exactly if the columns it names exist, differ and have the types of their values, and its condition fits; then in the rows whose condition column equals the literal the named columns have their values, and every other cell, row and table is as it was |
| `QueryLaws.SelectLaw` | server/dbms/database.go:93-135 | a SELECT succeeds exactly if its columns exist and its condition fits; then it has the names and types of the selected columns and the cells of these columns in the rows whose condition column equals the literal, once each and in table order |
| `QueryLaws.InsertLaw` | server/dbms/database.go:67-92 | an INSERT succeeds exactly if every column gets one value of its type; then there is one row more, at the end, with these values |
| `QueryLaws.CreateLaw` | server/dbms/database.go:21-36 | a CREATE succeeds exactly if the name is free and no column is named twice; then there is one empty table more with the columns as written |
| `QueryLaws.SameByType` | server/dbms/database.go:125-126 | cells are equal as INTEGER by value, as TEXT by bytes, as REAL by pattern but for the two zeros |
| `QueryLaws.InsertErrors` | server/dbms/database.go:67-92 | which error an INSERT fails with and where: the first column with a problem, or what is wrong with the whole |
| `QueryLaws.UpdateErrors` | server/dbms/database.go:137-161 | the same for UPDATE, with the condition looked at last |
| `QueryLaws.SelectErrors` | server/dbms/database.go:93-123 | the same for SELECT |
| `QueryLaws.CreateErrors` | server/dbms/database.go:26-30 | the first column whose name came before |
| `QueryLaws.TextRuns` | server/dbms/database.go:17-20 | the text of a statement does what the statement does |
| `QueryLaws.BadTextFails` | server/dbms/database.go:18-21 | a text that is no statement fails with the parser's error and changes nothing |
| `Storage.StoredTable.InsertRow` | server/dbms/database.go:67-92 | one new array is appended, holding the specified row; on any error nothing changes |
| `Storage.StoredTable.UpdateRows` | server/dbms/database.go:137-171 | the rows in their arrays are those of the specification, whose cells `QueryLaws.UpdateLaw` gives; every row is tested by the values it had and changed in place; on any error no row has been written |
| `Storage.StoredTable.SelectRows` | server/dbms/database.go:93-135 | the rows of the specification, whose cells `QueryLaws.SelectLaw` gives, copied into new arrays |
| `Storage.StoredTable.FindColumnIndex` | server/dbms/database.go:53-60 | the first column of that name, or an error at the identifier |
| `Database.Database.ExecuteSource` | server/dbms/database.go:17-51 | database and answer are those of the specification, of which the laws in `QueryLaws` give every cell; a failure leaves all tables and rows as they were, and the arrays of the answer stay outside the database |
| `Database.RunSession` | server/dbms/database.go:17-51 | over any sequence of texts all answers agree with the specification, and at the end every earlier answer is still what it was |
| `StatementFraming.StatementReader.ReadStatement` | server/dbms/internal/cli/cli.go:19-47 | the next frame, or nothing if only white space is left |
| `StatementFraming.ReadAll` | server/dbms/internal/cli/cli.go:86-94 | reading until nothing is left gives frames that put together are the input up to a blank rest; each ends with its first semicolon behind an even number of apostrophes, or at the end of the input, and none is blank |
| `StatementFraming.EndsAtFirst` | server/dbms/internal/cli/cli.go:19-47 | a frame ends behind the first semicolon that an even number of apostrophes precedes |
| `StatementFraming.FramesCover` | server/dbms/internal/cli/cli.go:19-47 | the frames put together are the input up to a blank rest |
| `StatementFraming.FramesHoldOneStatement` | server/dbms/internal/cli/cli.go:19-47 | in a frame that lexes, a semicolon token can only be the last byte, so no frame is refused for input behind its statement |
| `StatementFraming.FrameAlone` | server/dbms/internal/cli/cli.go:32-45 | a frame read by itself is one frame |
| `Server.Linearizable` | server/dbms/internal/server/protocol.go:75-127 | a statement reads the database in one step and writes it in a later one, with any steps of other handlers between; still, after any interleaving the database is that of a serial run in lock order, and every idle connection has one response per request, in order, from that run |
| `Server.RealTimeOrder` | server/dbms/internal/server/server.go:147-166 | a statement answered before another was received comes first in that order |
| `Server.MutualExclusion` | server/dbms/internal/server/protocol.go:79-81 | at most one handler is under the lock; the worker count is the number of handlers |
| `Server.StepSeen` | server/dbms/internal/server/protocol.go:79-81 | what the lock is for: the database a running statement has read is still the database when it writes, because a writer would hold the lock too |
| `Server.StepKeeps` | server/dbms/internal/server/server.go:116-166 | accepting, receiving, rejecting, locking, reading, writing, releasing, answering, dropping and closing all keep the invariant |
| `Server.EveryRequestCanBeAnswered` | server/dbms/internal/server/server.go:116-166 | no deadlock: from every reachable state any handler can be brought to its answer, if need be after the handler that has the lock |
| `Server.RequestsAreTaken` | server/dbms/internal/server/server.go:116-166 | an open server takes new connections, and an idle connection any payload of 1 to 1048576 bytes |
| `LinearSystem.Solve8` | prototypes/marker-detect/pose/pose.go:97-126 | it succeeds exactly if every column of the elimination has a pivot of 1e-12 or more, that is, if the system is not singular and the elimination does not stop at a smaller pivot other than zero; the result is then the solution and the only one |
| `LinearSystem.Eliminate` | prototypes/marker-detect/pose/pose.go:99-116 | the elimination as it runs on the array is the specified one, keeps the solutions, both ways, and ends in a staircase or reports the column without a pivot |
| `LinearSystem.BackSubstitute` | prototypes/marker-detect/pose/pose.go:117-124 | a staircase has exactly the solution computed |
| `LinearSystem.FindPivot` | prototypes/marker-detect/pose/pose.go:100-105 | the largest entry of the column at or below the diagonal, the first of them |
| `LinearSystem.ClearKeepsSolutions` | prototypes/marker-detect/pose/pose.go:110-115 | subtracting multiples of the pivot row from the rows below keeps the solutions, both ways, also those of the homogeneous system |
| `LinearSystem.SwapKeepsSolutions` | prototypes/marker-detect/pose/pose.go:109-109 | swapping two rows keeps the solutions |
| `LinearSystem.SolvableExactly` | prototypes/marker-detect/pose/pose.go:106-108 | a singular system is always reported; any other is reported only because of a pivot that is not zero but below 1e-12 |
| `LinearSystem.PivotThreshold` | prototypes/marker-detect/pose/pose.go:106-108 | every pivot divided by is at least 1e-12, and a pivot that stops the elimination without being zero is below it |
| `LinearSystem.OnlySolution` | prototypes/marker-detect/pose/pose.go:95-97 | a solution is the only one exactly if the system is not singular |
| `LinearSystem.GrowthIsBounded` | prototypes/marker-detect/pose/pose.go:100-116 | because the largest entry is the pivot, no entry grows by more than a factor of two in each column |
| `Pose.EstimatePosition` | prototypes/marker-detect/pose/pose.go:50-93 | if the corners are the image of a marker with unit axes in front of the camera, the estimate is exactly its center, unless the marker is seen edge-on or the solver stops at a pivot that is not zero but below 1e-12, and then it is reported as degenerate; for all other corners success is characterised by the solution; invalid arguments are refused and only they |
| `Pose.SceneSolves` | prototypes/marker-detect/pose/pose.go:64-74 | the homography of a scene solves the equations of its image |
| `Pose.SingularExactly` | prototypes/marker-detect/pose/pose.go:61-74 | the homography is the only solution of the equations exactly if the plane of the marker does not go through the camera |
| `Pose.ColumnLength` | prototypes/marker-detect/pose/pose.go:80-87 | the first two columns of the homography have the length that fixes the scale |
| `Pose.RotationInvariant` | prototypes/marker-detect/pose/pose.go:58-90 | for any corners, which of them is called the first does not change the estimate |
| `Pose.CenterOnDiagonals` | prototypes/marker-detect/pose/pose.go:64-90 | for any corners, the estimate is in front of the camera and is seen where the diagonals of the quadrilateral cross |
| `Broker.RunsAreOrdered` | broker/main.go:47-126 | in every run, at every subscriber, what one publisher sent arrives in publication order without duplicates; no topic has an empty set; a finished client is subscribed to nothing |
| `Broker.FinishedForever` | broker/main.go:92-97 | however a run goes on, a client whose handler has finished stays finished and is subscribed to nothing |
| `Broker.NothingAfterFinished` | broker/main.go:67-73 | no later publication has it among its recipients |
| `Broker.OnlySubscribedTopics` | broker/main.go:67-90 | every message received was published at a moment when its receiver was subscribed to its topic |
| `Broker.StepKeeps` | broker/main.go:47-126 | connecting, subscribing, publishing, delivering, failing, removing and leaving all keep the invariant |
| `Broker.EveryPublicationArrives` | broker/main.go:67-90 | if a message was published while a client was subscribed to its topic, then once its publisher is done with it the client has got it exactly once, or the delivery failed and the client was removed, both before the publication ended |
| `Broker.DeliveriesAccounted` | broker/main.go:67-90 | at every point before that, the delivery is made, still to be made, failing, or failed with its receiver removed |
| `Broker.SubscribersExactly` | broker/main.go:47-65 | in every run the subscribers of a topic are those who have subscribed and have neither left nor been removed since |
| `Broker.HandlersCanGoOn` | broker/main.go:67-126 | in every reachable state every pending delivery can be made or can fail, failed receivers can be removed, a finished publication can end, and an idle handler can subscribe, publish or leave |
| `Broker.Registry.Subscribe` | broker/main.go:47-54 | the client is added to the topic, which is created if needed |
| `Broker.Registry.Remove` | broker/main.go:56-65 | the client is taken from every topic and emptied topics are dropped |
| `Broker.Registry.Recipients` | broker/main.go:67-73 | the list that is copied under the lock holds every subscriber of the topic once, and nobody else |
| `RuntimeApi.CompilerTableIsImplemented` | compiler/src/main/kotlin/tacc/Checker.kt:14-37 | every Runtime function the compiler knows is in the dispatch table with the same arity and never takes a Float |
| `RuntimeApi.RuntimeFunctions` | compiler/src/main/kotlin/tacc/Checker.kt:14-37 | the four functions by the names a program calls them, with their parameter and result types |

## Left out

- Lexing and parsing of `.tc` (the ANTLR grammar and `AstBuilder`): the model starts from the syntax tree, of which it only uses that `else` holds a block or another `if` and that Float literals are finite.
- Annotation in place: the Kotlin checker writes types and slots into the tree; the model's checker returns an annotated tree, so aliasing of tree nodes is not captured.
- Text is the sequence of its UTF-8 bytes; the conversion from UTF-16 is not modelled.
- Rounded binary64 arithmetic is a parameter of every theorem about runs, so the theorems hold for any rounding; decimal-to-double conversion of Float and REAL literals is a parameter too.
- The Runtime is an oracle over the calls made so far; the theorems about compiled programs need it to answer with the kinds its signatures promise.
- A byte list on the JVM holds at most 2^31 - 1 bytes: a longer function is the model's error `CodeTooLarge`, and the theorems about loading require texts of at most that length.
- VirtualMachine.Vm.Run: runs for a given number of instructions instead of until the machine ends, because a machine may run forever; the theorems quantify over all numbers.
- VirtualMachine.RunFile: has the same instruction budget, and the file arrives as bytes instead of a path.
- Driver.CompileAndRun: has the same instruction budget.
- Server.Step: under the lock a statement reads the whole database in one step and writes it back in another, and materialisation belongs to the second; a payload's validity and the JSON encoding of a reply are parameters.
- StatementFraming.StatementReader.ReadStatement: the end of input is the only read error.
- Broker.Step: a send is one step that completes or fails; bytes of a failed send, deadlines and the splitting of lines into commands are not modelled.
- Pose.EstimatePosition: real numbers have no NaN or infinity, so the tests for them are absent; the hypotenuse is a parameter that must be the nonnegative root.
- Error message texts and source line numbers; errors are told apart by kind, and SQL errors also by position.
- Runtime sockets, camera and window code, map rendering, socket and lock files, signals and timeouts: operating-system plumbing.
- `writeFrame` and `readFrame` of the server protocol, `AngleDeg`, `Distance`, `CameraFromHorizontalFOV`, and the CLI's display of results: they would only add easy members.
- `spec/target-aggregation.md` and `spec/analyzer-observation.md`: no code implements them.
