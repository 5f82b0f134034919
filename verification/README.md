# HalaOS in Dafny

HalaOS is a small operating system for a microcontroller: a preemptive kernel, a stack bytecode (HBC) with
its own compiler, verifier and virtual machine, an application store in Flash, kernel objects with handles,
and a compact device tree. This project models those five parts and proves what holds of them on all inputs
and over whole runs.

Code that changes state in place is a class or an array method here, proved equal to functions on values;
the theorems are about those functions. Constants, branch order, error numbers and 32-bit arithmetic are the
source's. `Common` holds the types and limits that several parts share.

## What is proved

**Toolchain.** `Hbc` (bytes and instructions), `Machine` and `Interpreter` (the VM), `Verifier`,
`VmSoundness`; `Lexer`, `Scanning` (the lexer), `Source` (tokens, grammar and a big-step semantics of Hala-C),
`Emission` (reference code), `Parser` and `Compiler` (the single-pass compiler as state functions and as an
object), `Recognition`, `Statements`, `Programs` (what is accepted), `Completeness`, `Compilable`, `Ordering`,
`Language` (what must be accepted), `Simulation`, `Acceptance`, `Rejection`, `Toolchain`, `Frontend`,
`Witnesses`. The compiler builds no tree, patches bytes it has emitted and decides about a missing `return` by
looking at the last byte. It accepts exactly the spellings of admissible programs; what it leaves in its buffer
is the program's reference image; the VM on that image does what the program means; and the bytecode verifier
accepts it exactly when a condition on the program's syntax holds. The verifier by itself is proved exact
(it accepts what has a consistent depth assignment, nothing else) and sound (the VM never underflows, never
leaves the instruction starts, never returns with a wrong height). `Instructions`, `LexerLaws` and `Readings` say
in literal bytes and plain arithmetic what instructions, tokens and small source texts are and do, and
`Diagnoses` what every reported error says about the source.

**Store.** `AppStore` and `StoreDriver`: crash atomicity of the two-slot store over runs of interrupted
writes and reboots. `StoreDamage`: the layout in literal half-words, and what damaged slots do at boot.

**Scheduler.** `ReadyList`, `SleepQueue`, `Scheduling`, `SchedulerRuns`, `FairnessLimits`, `DeadlineRuns`,
`Kernel`: the linked arrays refine queues and a timeline; on the resulting machine weighted fairness and the
real-time budget hold in every run, and deadline isolation exactly in those in which no sleep asked for ends
before the next release. `SchedulerLaws` says, by the states of the tasks, who runs, what each tick charges and
how turns go round.

**Kernel objects.** `FileTable`, `Descriptors`: reference counts, processes and their waiting parents. `Ipc`,
`IpcTable`: streams, semaphores, mutexes and timeouts with direct hand-off, and handles with generations.
`FileLaws` and `IpcLaws`: when each call succeeds, with which result, and what it changes.

**Device tree.** `Dtb`: the encoder of the build tool and the validator and lookup of the driver undo each
other. `DtbLaws`: the header, the checksum and the lookup in terms of the bytes.

## Where the code is not what one would expect

Each of these is a lemma or a hypothesis of one, never smoothed over.

- The implicit `return 0` is decided by the last byte of the code. A body whose last byte happens to be 0x0F
  (an `if` whose block returns, `sleep(3840)`, a literal ending in that byte, an empty body after another
  function) runs on into whatever follows: `MissingReturnGoesUnnoticed`. `SealedExactly` says for which
  functions this cannot happen.
- A last function that ends in an `if`/`else` of which both blocks return emits a jump to the end of the
  image, which the verifier refuses; so does a call of an empty last function
  (`ReturningBranchesAreRefused`, `EmptyCalleesAreRefused`). `Loadable` is the exact condition.
- The number guard lets 2147483648 and 2147483649 through; they turn negative, and further digits are then
  read on top of the wrapped value (`NumbersReadExactly`, `WrappedNumber`).
- A backslash inside a literal takes a newline with it without counting the line (`ReportedPlaces`).
- `sleep_advance` stops when the elapsed time is used up: of several tasks due at that instant only the
  first wakes, the others with the next advance (`AdvanceRefines`, `LeftBehindWakesNext`).
- A compile request makes the compiler's task ready while it sleeps, and clears its links without taking it off
  the queue: every task that was to wake later is off the queue too, and stays asleep (`EarlyWakeExactly`,
  `EarlyWakeLoses`).
- Killing a child does not answer a parent that is blocked waiting for it (`KillStrands`).
- A deadline task that sleeps of its own accord is given a full budget on waking (`VoluntarySleepRefills`);
  `IsolationExactly` says which sleeps are harmless.
- A weight above 1024 would be charged nothing per tick but for the minimum of 1, and a BATCH slice is twice as
  long as the share it is first scheduled for: such tasks overrun (`OverrunExactly`, `HeavyTasksOvershoot`).
- `rt_enqueue` and `rt_remove` clamp the priority to 15, `rt_rotate` does not; the queues are stated for that.
- An injected fault of stage 3 on code of at most two bytes comes too late to stop the commit.
- A mutex is held by a process number other than 0; process 0 could lock without becoming the owner.
- The driver refuses a tree without nodes, so the round trip is for non-empty trees.

## Model

| member | source | states |
|---|---|---|
| Frontend.AcceptedSourcesRun | src/services/hala_compiler.c:746-783 | Source text that compiles spells, in full, some program; its image passes the bytecode verifier exactly when that program is loadable, and, if the functions reached by calls from main are terminated, the VM finishes with an outcome exactly when the program's big-step semantics has it |
| Frontend.SourcesAcceptedExactly | src/services/hala_compiler.c:746-783 | A text is compiled exactly when it is 1 to 299 bytes long, lexes, and its tokens are the spelling of an admissible program |
| Frontend.PrintedProgramsCompile | src/services/hala_compiler.c:746-783 | The printed text of an admissible program of fewer than 80 tokens, if shorter than 300 bytes, compiles to the program's image |
| Frontend.CompileSource | src/services/hala_compiler.c:746-783 | Size check, lexing and compilation in sequence give the image or the first error with the line and column reported for its token |
| Frontend.LayoutDoesNotReachTheImage | src/services/hala_compiler.c:179-364 | Comments and spacing never change the image: a source and the plain printing of its tokens compile alike |
| Toolchain.CompiledProgramsRun | src/services/hala_compiler.c:746-783 | The same end-to-end statement on token streams |
| Language.CompilerAcceptsExactly | src/services/hala_compiler.c:746-777 | Token streams with one end marker are accepted exactly when they spell an admissible program: proper, at most six functions and eleven calls, names shorter than 12, every variable new when declared and declared when used |
| Language.CompilesToItself | src/services/hala_compiler.c:746-777 | The spelling of an admissible program is accepted, as that program, and the buffer then holds its image |
| Language.SpellingIsUnambiguous | src/services/hala_compiler.c:470-728 | No two admissible programs are spelled alike |
| Completeness.ExpressionIs | src/services/hala_compiler.c:528-539 | An expression of the grammar that stands next, uses declared variables, fits the tables and is followed by `)` or `;` is parsed as itself, with its reference code appended |
| Compilable.StatementSucceeds | src/services/hala_compiler.c:578-703 | A well-formed statement that stands next, declares its names in order and fits the tables is accepted, as itself |
| Ordering.StatementOrdered | src/services/hala_compiler.c:578-703 | Conversely, an accepted statement declares every variable before using it and none twice |
| Toolchain.SealedExactly | src/services/hala_compiler.c:723-727 | For any set of functions, testing the last byte for RET adds every implicit `return 0` that is needed in them exactly when they are terminated and call only each other, a condition on their syntax |
| Witnesses.MissingReturnGoesUnnoticed | src/services/hala_compiler.c:723-727 | That condition is needed: the compiler, from tokens and from text, and the verifier accept a two-function program, and the VM on its image prints a number the program does not print, because a sleep operand ends in 0x0F |
| Witnesses.ReturningBranchesAreRefused | src/services/halaos_runtime.c:150-169 | A last function ending in an if/else whose branches both return is accepted by the compiler, from tokens and from text, and its image is refused by the verifier |
| Witnesses.EmptyCalleesAreRefused | src/services/halaos_runtime.c:150-169 | So is a program that calls an empty last function |
| Readings.ThreeOperands | src/services/hala_compiler.c:510-539 | For every source text with the tokens `int main() { print(a j b k c); }`, all numbers and all operators but two comparisons: it compiles, and the machine prints the value arithmetic gives it, `*` and `/` before `+` and `-` before comparisons and equals from the left, or stops with DivideByZero exactly when a divisor is 0 |
| Readings.TwoOperands | src/services/hala_compiler.c:510-539 | The same for `print(a j b)` and all ten operators |
| Readings.SignedOperand | src/services/hala_compiler.c:500-506 | `print(-a j b)` is (0 - a) j b: the sign binds tighter than every operator |
| Readings.LoopsCountDown | src/services/hala_compiler.c:618-630 | `int x = n; while (x > 0) { print(x); x = x - 1; }` prints n, n - 1, down to 1, for every n and every name |
| Readings.BranchesTaken | src/services/hala_compiler.c:602-617 | `if (v) { print(1); } else { print(2); }` prints 1 exactly when v is not 0 |
| Readings.CallsKeepVariables | src/services/hala_compiler.c:712-728 | A main whose variable x holds a, calling a function whose own x is b and that returns it, prints b and then a; without the return it prints 0 and then a |
| Readings.LinesWritten | src/services/halaos_tasks.c:448-465 | `write(1, literal)` puts the decoded text on the console, followed by CR LF exactly when it does not end in a newline |
| Diagnoses.RefusedProgramsMean | src/services/hala_compiler.c:374-777 | For every token list that is refused, the error reported is true of the token it is reported at and of the tokens before it: for each of the fifty errors from -70 to -119, what is missing or wrong there and behind which tokens of which construct, or which name is declared already, undeclared, or not a function; -69 never occurs |
| Rejection.VerifierAcceptsLoadable | src/services/halaos_runtime.c:105-272 | For every proper program, the verifier accepts its image if and only if the program is loadable: enough operand room on live paths, no jump to the image's end, callees with code |
| Rejection.AcceptedImagesAreLoadable | src/services/halaos_runtime.c:196-266 | The only-if half: any consistent depth assignment of an image forces the program to be loadable |
| Acceptance.LoadableImagesPass | src/services/halaos_runtime.c:105-272 | The if half: a loadable program's image decodes, its patched targets are instruction starts, and its depths are consistent |
| Simulation.MachineMatchesMeaning | src/services/halaos_tasks.c:257-476 | For a proper program in which a set of functions that contains main is closed under calls and sealed, the VM on its image finishes with an outcome exactly when the source semantics has that outcome |
| Simulation.ImageRuns | src/services/halaos_tasks.c:257-476 | Every amount of fuel of the source semantics is matched by a number of VM steps with the same trace, trap cause or return value |
| Simulation.ExprRuns | src/services/hala_compiler.c:470-539 | Where the functions it reaches by calls are sealed, running an expression's code pushes exactly its value, or stops with its trap, locals, frames and the rest of the stack unchanged |
| Simulation.StmtRuns | src/services/hala_compiler.c:578-703 | Where the functions it reaches by calls are sealed, running a statement's code ends at the statement's end with the store in the locals and the operand height unchanged, or at a RET holding the returned value |
| Simulation.CallFreeExprRuns | src/services/hala_compiler.c:470-539 | For an expression without calls the same holds in any proper program, whatever its functions end in |
| Simulation.CallFreeStmtRuns | src/services/hala_compiler.c:578-703 | For a statement without calls the same holds in any proper program, if it always returns or code follows it |
| Simulation.CallRuns | src/services/hala_compiler.c:712-728 | A call of a function in a sealed set runs the callee on zeroed locals and comes back with its value and the caller's locals |
| Machine.RunCompose | src/services/halaos_tasks.c:294-473 | Running m + n instructions is running m and then n |
| Interpreter.Compute | src/services/halaos_tasks.c:324-361 | The ten binary operations: wrap-around sum, difference and product, truncated quotient with its overflow case, division by zero refused |
| Interpreter.StepRet | src/services/halaos_tasks.c:380-390 | What RET does: only with exactly one operand above the frame's base, restoring locals, pc and height and leaving the result |
| Interpreter.Vm.ExecPush | src/services/halaos_tasks.c:303-311 | Executing PUSH_I32 on the fixed arrays is one step of the abstract machine, including which trap is raised |
| Interpreter.Vm.ExecLoad | src/services/halaos_tasks.c:312-317 | Executing LOAD_LOCAL on the fixed arrays is one step of the abstract machine, including which trap is raised |
| Interpreter.Vm.ExecStore | src/services/halaos_tasks.c:318-323 | Executing STORE_LOCAL on the fixed arrays is one step of the abstract machine, including which trap is raised |
| Interpreter.Vm.ExecBinary | src/services/halaos_tasks.c:324-361 | Executing an arithmetic or comparison instruction on the fixed arrays is one step of the abstract machine, including which trap is raised |
| Interpreter.Vm.ExecCall | src/services/halaos_tasks.c:362-379 | Executing CALL on the fixed arrays is one step of the abstract machine, including which trap is raised |
| Interpreter.Vm.ExecRet | src/services/halaos_tasks.c:380-390 | Executing RET on the fixed arrays is one step of the abstract machine, including which trap is raised |
| Interpreter.Vm.ExecJmp | src/services/halaos_tasks.c:405-415 | Executing JMP on the fixed arrays is one step of the abstract machine, including which trap is raised |
| Interpreter.Vm.ExecJz | src/services/halaos_tasks.c:416-430 | Executing JZ on the fixed arrays is one step of the abstract machine, including which trap is raised |
| Interpreter.Vm.ExecPop | src/services/halaos_tasks.c:431-447 | Executing POP and PRINT_INT on the fixed arrays is one step of the abstract machine, including which trap is raised |
| Interpreter.Vm.ExecWrite | src/services/halaos_tasks.c:448-465 | Executing WRITE on the fixed arrays is one step of the abstract machine, including which trap is raised |
| Interpreter.Vm.ExecSleep | src/services/halaos_tasks.c:396-404 | Executing SLEEP on the fixed arrays is one step of the abstract machine, including which trap is raised |
| Interpreter.Vm.ExecOther | src/services/halaos_tasks.c:391-472 | Executing GPIO, HALT and the opcodes that are refused on the fixed arrays is one step of the abstract machine, including which trap is raised |
| Interpreter.Vm.Execute | src/services/halaos_tasks.c:295-473 | Fetch and dispatch of one instruction is one step of the abstract machine |
| Interpreter.Vm.Slice | src/services/halaos_tasks.c:294-473 | A budgeted slice is that many steps of the abstract machine, stopping at a trap, HALT or SLEEP |
| Instructions.DecodesExactly | src/services/halaos_runtime.c:118-148 | Over raw bytes: an instruction is malformed exactly when its first byte is not 0x01-0x15, 0x20, 0x30-0x35 or 0xFF, its operand is cut short, or a local is 8 or above; otherwise it takes 5, 2, 3, 2 + length or 1 bytes by its opcode |
| Instructions.OperatorsMean | src/services/halaos_tasks.c:324-361 | The machine's step for the bytes 0x04-0x0D replaces two operands by the value that defines the operator: congruent modulo 2^32, quotient with truncated remainder, or 1 or 0; a zero divisor stops it with status 136 |
| Instructions.GivesOne | src/services/halaos_tasks.c:324-361 | Those definitions determine the value |
| Instructions.StopsExactly | src/services/halaos_tasks.c:294-473 | The machine exits exactly at 0xFF and goes on exactly where none of the listed raw reasons holds; which status each stop has |
| Instructions.EffectsMean | src/services/halaos_tasks.c:303-473 | What every other opcode byte does to pc, stack, locals, frames and trace, operands read from the raw bytes |
| Instructions.LineEnds | src/services/halaos_tasks.c:448-465 | What WRITE puts on the console starts with the text and ends in a newline; it is the text itself exactly when that ends in one, and otherwise CR LF is added |
| Instructions.LinesOfHi | src/services/halaos_tasks.c:448-465 | The console bytes of `hi`, of `hi` with a newline, and of the empty text |
| Verifier.BytecodeVerify | src/services/halaos_runtime.c:105-272 | Accepts exactly the images of 1..256 bytes that decode, whose targets are instruction starts and that have a consistent assignment of depths 0..16 with 0 at the entry and at every callee; says when the reject counter advances |
| Verifier.MarkBoundaries | src/services/halaos_runtime.c:118-148 | Succeeds exactly when the image decodes, with a bit set exactly at the instruction starts |
| Instructions.MarkersAreAccepted | src/services/halaos_runtime.c:145-145 | For every b from 0x30 to 0x35 the image [b, 0xFF] is accepted |
| Instructions.FlowMeans | src/services/halaos_runtime.c:196-266 | Where the verifier sends a depth, by raw opcode: to the target of 0x12 and 0x13, and on unless the byte is 0x0F, 0x12 or 0xFF; markers and halt are allowed at every depth, a return at depth 1 only |
| Instructions.DepthsAreHeights | src/services/halaos_runtime.c:204-252 | The verifier's depth rule is the machine's: an instruction not stopped for another reason runs exactly at the heights allowed as depths, and leaves the height computed |
| Instructions.CallsPushOne | src/services/halaos_runtime.c:218-220 | A call and its return change the caller's height by exactly the verifier's effect of the call |
| Verifier.CheckTargets | src/services/halaos_runtime.c:150-169 | Succeeds exactly when every jump and call target is an instruction start |
| Verifier.Worklist.SeedCallees | src/services/halaos_runtime.c:171-194 | Queues the entry and every callee at depth 0, each address once |
| Verifier.Worklist.Visit | src/services/halaos_runtime.c:252-265 | Records a new depth and queues the address, or accepts an equal one, or refuses; an address is queued at most once, so 256 entries suffice |
| Verifier.Worklist.Process | src/services/halaos_runtime.c:196-266 | One queue entry: refuses only what no assignment allows, otherwise the entry's flow is settled |
| Verifier.Worklist.Propagate | src/services/halaos_runtime.c:196-267 | The data-flow loop ends, and succeeds exactly when a consistent assignment exists |
| VmSoundness.VerifiedCodeIsSafe | src/services/halaos_runtime.c:105-272 | Whatever the verifier accepts keeps, in every run, pc at an instruction start or the end, the stack height equal to the frame base plus the depth at pc in the running and every suspended frame, and is stopped only for the allowed causes |
| VmSoundness.StepSafe | src/services/halaos_tasks.c:295-473 | One step keeps that relation or stops for an allowed cause |
| VmSoundness.RunSafe | src/services/halaos_tasks.c:295-473 | So does every number of steps from any state in the relation |
| Programs.CompilerEmitsImage | src/services/hala_compiler.c:746-783 | If compilation does not fail, the tokens up to the end marker spell a proper program and the code buffer holds exactly its image, forward jumps and calls resolved |
| Programs.PatchCallsFills | src/services/hala_compiler.c:730-740 | Call patching fills exactly the recorded operands with the callees' addresses, and succeeds only if every callee is known |
| Programs.FunctionCompiles | src/services/hala_compiler.c:712-728 | A definition appends its code at the current address under a new name, and ends in a RET byte |
| Programs.DefinitionsCompile | src/services/hala_compiler.c:770-771 | All definitions in sequence append the layout of the reference code generator with holes at the calls |
| Statements.StatementCompiles | src/services/hala_compiler.c:578-703 | An accepted statement's tokens spell a statement of the grammar, well formed for the declared names, and the bytes appended are its reference code after backpatching |
| Recognition.ExpressionCompiles | src/services/hala_compiler.c:528-539 | An accepted expression's tokens spell a left-associative tree with at most one comparison, and the bytes appended are its reference code |
| Recognition.PrimaryCompiles | src/services/hala_compiler.c:470-508 | The same for literals, variables, calls, parentheses and negation |
| Parser.Expression | src/services/hala_compiler.c:528-539 | Parsing an expression ends, consumes a token or fails, keeps the cursor before the end of the table and the first failure |
| Parser.Statement | src/services/hala_compiler.c:578-703 | The same for statements: each consumes a token or fails |
| Parser.FunctionDefinition | src/services/hala_compiler.c:712-728 | The same for function definitions |
| Compiler.HcCompiler.Fail | src/services/hala_compiler.c:130-137 | Records the failure if it is the first |
| Compiler.HcCompiler.Match | src/services/hala_compiler.c:368-373 | Consumes the token exactly when it is the one asked for |
| Compiler.HcCompiler.Expect | src/services/hala_compiler.c:374-381 | Consumes the token asked for or fails at it; returns the token it looked at |
| Compiler.HcCompiler.EmitU8 | src/services/hala_compiler.c:383-390 | Appends a byte, or fails with -68 when 256 are there |
| Compiler.HcCompiler.EmitU16 | src/services/hala_compiler.c:391-391 | Appends both bytes, or as many as fit |
| Compiler.HcCompiler.EmitI32 | src/services/hala_compiler.c:392-395 | Appends the four bytes of a word, or as many as fit |
| Compiler.HcCompiler.EmitJump | src/services/hala_compiler.c:396-402 | Appends a jump with an empty operand and returns the operand's place |
| Compiler.HcCompiler.PatchU16 | src/services/hala_compiler.c:403-410 | Overwrites the two operand bytes, or fails when they were not emitted |
| Compiler.HcCompiler.FindLocal | src/services/hala_compiler.c:412-419 | The slot of the name, -1 if it has none |
| Compiler.HcCompiler.AddLocal | src/services/hala_compiler.c:420-434 | Enters a name once, in the next of eight slots |
| Compiler.HcCompiler.FindFunction | src/services/hala_compiler.c:435-440 | The first function of that name, -1 if there is none |
| Compiler.HcCompiler.AddFunction | src/services/hala_compiler.c:441-457 | Enters a function name once, six at most |
| Compiler.HcCompiler.AddCallPatch | src/services/hala_compiler.c:458-466 | Records a call to patch, twelve at most |
| Compiler.HcCompiler.Primary | src/services/hala_compiler.c:470-508 | On the object state, does exactly what the state function of primary expressions says |
| Compiler.HcCompiler.Factor | src/services/hala_compiler.c:510-518 | The `*` and `/` loop folds to the left |
| Compiler.HcCompiler.Term | src/services/hala_compiler.c:519-527 | The `+` and `-` loop folds to the left |
| Compiler.HcCompiler.Expression | src/services/hala_compiler.c:528-539 | One comparison at most |
| Compiler.HcCompiler.EmitText | src/services/hala_compiler.c:550-574 | Decodes the literal while emitting it and counts the decoded bytes, or fails at a bad escape |
| Compiler.HcCompiler.EmitString | src/services/hala_compiler.c:543-576 | WRITE, the decoded text, and its length stored back into the byte left for it |
| Compiler.HcCompiler.DeclareStatement | src/services/hala_compiler.c:579-595 | A declaration enters the name before its initialiser is parsed |
| Compiler.HcCompiler.IfStatement | src/services/hala_compiler.c:602-617 | Both jumps are patched to the ends of the blocks |
| Compiler.HcCompiler.WhileStatement | src/services/hala_compiler.c:618-630 | The back jump goes to the condition, the exit jump behind the back jump |
| Compiler.HcCompiler.WriteStatement | src/services/hala_compiler.c:631-645 | Only descriptor 1 is accepted; the optional length is ignored |
| Compiler.HcCompiler.SleepStatement | src/services/hala_compiler.c:655-667 | Durations outside 0..65535 fail; the low half-word is emitted |
| Compiler.HcCompiler.NameStatement | src/services/hala_compiler.c:682-701 | Assignment or call |
| Compiler.HcCompiler.Statement | src/services/hala_compiler.c:578-703 | Dispatch on the first token |
| Compiler.HcCompiler.BlockOf | src/services/hala_compiler.c:705-710 | Statements between braces, until a brace, the end or a failure |
| Compiler.HcCompiler.FunctionDefinition | src/services/hala_compiler.c:712-728 | Header, table entry, fresh locals, body, implicit return |
| Compiler.HcCompiler.PatchCalls | src/services/hala_compiler.c:730-740 | Patches the calls in order until one is unknown |
| Compiler.HcCompiler.CompileGeneral | src/services/hala_compiler.c:746-777 | The whole compiler on its fixed tables; on success the buffer holds a proper program's image and the consumed tokens spell it |
| Lexer.PrintedTokensAreLexed | src/services/hala_compiler.c:179-364 | Printing any spellable token list of fewer than 80 tokens and lexing the text gives the list back, with the end marker |
| Lexer.LayoutDoesNotMatter | src/services/hala_compiler.c:179-364 | Any source that lexes without a wrapped number lexes like the plain printing of its tokens |
| Lexer.LexedWell | src/services/hala_compiler.c:162-176 | Lexing yields at most 80 tokens, one end marker at the end, names shorter than 12, literals that close where they end, keywords never as names |
| Lexer.NumbersReadExactly | src/services/hala_compiler.c:255-272 | A number is read as its decimal value exactly when that is at most 2147483647; above, it is refused unless it starts with 2147483648 or 2147483649 |
| Lexer.NumbersReadModulo | src/services/hala_compiler.c:252-272 | A run of digits is refused exactly when the value of some of its first digits, modulo 2^32 and signed, is above 214748364 and another follows; otherwise the token is the whole run's value modulo 2^32 |
| Lexer.LiteralsReadExactly | src/services/hala_compiler.c:274-309 | Reading a literal gives a result exactly when it ends there by position: at the first quote that no backslash takes, within 60 characters; at a newline or the end of the text; or at the 61st character, an escape being one |
| Lexer.WrappedNumber | src/services/hala_compiler.c:259-265 | 2147483648 is accepted and becomes negative |
| Lexer.RefusedPlaces | src/services/hala_compiler.c:179-364 | A text is refused at a place with an error exactly when cutting pieces off it, from its start, reaches a character at that place and stops there with that error: -61 at a further token or the end when the 80 tokens cut off fill the table, any other for what stands there. The place is true short of the newlines inside the literals cut off before, as it is for tokens |
| Lexer.RefusalMeans | src/services/hala_compiler.c:190-361 | What stands at a position is refused with an error exactly when: -62, a comment is not closed; -63, twelve letters, digits or underscores stand there; -64, digits whose value modulo 2^32 is above 214748364 stand before a further digit; -65, a newline or the end comes before an unescaped quote, and before 61 characters; -66, a 61st character comes before either; -67, no token starts there |
| Lexer.ReportedPlaces | src/services/hala_compiler.c:190-237 | The line reported for a token is its true line less the newlines inside earlier literals; with none of those the column is true as well |
| LexerLaws.OneByteSources | src/services/hala_compiler.c:179-364 | What each of the 256 one-byte sources is: layout, a name, a number, an operator or bracket, or refused with -65 or -67 |
| LexerLaws.WordsMean | src/services/hala_compiler.c:139-160 | The nine keywords by their bytes, and every other word a name |
| LexerLaws.SignsMean | src/services/hala_compiler.c:328-354 | The thirteen one-byte operators and brackets by their bytes |
| LexerLaws.PairsMean | src/services/hala_compiler.c:310-327 | The four two-byte operators by their bytes, and no others |
| LexerLaws.LineComments | src/services/hala_compiler.c:197-207 | A line comment ends before its newline or with the text |
| LexerLaws.BlockComments | src/services/hala_compiler.c:209-227 | A block comment ends behind its first star and slash, with exactly its newlines counted |
| LexerLaws.EscapesUndone | src/services/hala_compiler.c:550-574 | Decoding undoes escaping, for every text, whatever follows |
| LexerLaws.BadEscapes | src/services/hala_compiler.c:550-574 | Any other character behind a backslash, or none, spoils the literal |
| Scanning.Scanner.AddToken | src/services/hala_compiler.c:162-176 | Appends to the token table or fails with -61 when 80 are there |
| Scanning.Scanner.SkipComment | src/services/hala_compiler.c:197-227 | A line or block comment is passed with its lines counted; an open block comment fails at its start |
| Scanning.Scanner.LexWord | src/services/hala_compiler.c:229-250 | The longest run of letters, digits and underscores is one token; 12 or more fail |
| Scanning.Scanner.LexNumber | src/services/hala_compiler.c:252-272 | The longest run of digits is one token, with the guard before each digit |
| Scanning.Scanner.LexLiteral | src/services/hala_compiler.c:274-309 | A literal ends at the first quote not behind a backslash; newline, end of text and more than 60 characters fail |
| Scanning.Scanner.LexOperator | src/services/hala_compiler.c:311-361 | Two-character operators before one-character ones |
| Scanning.Scanner.Lex | src/services/hala_compiler.c:179-364 | The loop over the source computes the token list or the first refusal with its place |
| AppStore.CrashAtomic | src/services/halaos_runtime.c:310-394 | From any Flash contents, after any run of writes each cut off after any erase or half-word program and any reboots, once a write has committed the boot scan succeeds and selects the last committed application byte for byte |
| AppStore.RunKeeps | src/services/halaos_runtime.c:348-394 | Over whole runs no valid slot is newer than the kernel knows, and the last commit is in slot sequence % 2 |
| AppStore.WriteKeeps | src/services/halaos_runtime.c:348-394 | A write cut anywhere leaves the other slot and the invariant alone; only the last program commits |
| AppStore.PrefixState | src/services/halaos_runtime.c:361-390 | The Flash after any prefix of the erase and program operations, cell by cell |
| AppStore.CommittedSlot | src/services/halaos_runtime.c:287-296 | After all operations the slot verifies and holds the application, its sequence number, flags and name |
| AppStore.UncommittedSlot | src/services/halaos_runtime.c:287-296 | After any shorter prefix but the empty one the slot does not verify |
| AppStore.OtherSlot | src/services/halaos_runtime.c:348-394 | No prefix of a write changes whether the other slot verifies or what it holds |
| AppStore.StatusSteps | src/services/halaos_runtime.c:361-390 | Programming VERIFYING over WRITING leaves VERIFYING, and VALID over VERIFYING leaves VALID: the values only clear bits |
| StoreDamage.OlderApplicationBoots | src/services/halaos_runtime.c:287-330 | After any run that had committed an application, and a further write that commits: whatever then happens to the new slot's code that changes its checksum, or makes it a code the verifier refuses, the boot scan selects the older application, which is there byte for byte |
| StoreDamage.SpoiledNeverBoots | src/services/halaos_runtime.c:287-330 | Any Flash in which a slot has the header of a commit and code with another checksum, or refused code: that slot is never booted and the other one is, if intact; of two intact ones the higher number is |
| StoreDamage.BadHeaderNeverBoots | src/services/halaos_runtime.c:288-291 | A slot whose status, version, magic or size word is wrong is never booted |
| StoreDamage.CommitLeaves | src/services/halaos_runtime.c:361-390 | What a commit leaves in its slot, half-word by half-word in literal numbers: status, version, magic, size, type, checksum, number, name, code |
| StoreDamage.ValidExactly | src/services/halaos_runtime.c:287-296 | Under such a header a slot is valid exactly when its code still has the written code's checksum and the verifier accepts it |
| StoreDamage.AndIsBitwise | src/services/halaos_runtime.c:83-89 | A programmed half-word has exactly the bits set that were set and are programmed set |
| StoreDriver.Store.FlashErasePage | src/services/halaos_runtime.c:59-68 | All ones on one page, nothing else |
| StoreDriver.Store.FlashProgramHalf | src/services/halaos_runtime.c:83-89 | The bitwise and of the old and the new half-word, nothing else |
| StoreDriver.Store.NameCopy | src/kernel/halaos_kernel.c:128-134 | Eleven characters at most, up to the first zero byte; the rest of the twelve bytes is zero |
| StoreDriver.Store.AppVerifySlot | src/services/halaos_runtime.c:287-296 | True exactly when status, magic, version, size and CRC of the slot are right and its code passes the bytecode verifier |
| StoreDriver.Store.AppScan | src/services/halaos_runtime.c:310-330 | Selects the verified slot with the higher sequence number and adopts its number and type; changes nothing if there is none |
| StoreDriver.Store.Boot | src/services/halaos_tasks.c:983-983 | The scan at boot on top of cleared counters |
| StoreDriver.Store.Transact | src/services/halaos_runtime.c:361-390 | Performs exactly the operations of a write up to an injected fault |
| StoreDriver.Store.AppWrite | src/services/halaos_runtime.c:348-394 | Refuses what is oversized or fails verification without touching Flash; otherwise performs a prefix of the write's operations and updates the kernel's variables only on commit |
| SchedulerRuns.WeightedFairness | src/kernel/halaos_kernel.c:686-707 | NORMAL and BATCH tasks of any weights that stay ready through a run of unit ticks, in the course of a slice and at equal virtual runtime at the start: at every state reached none is ahead of another by more than what the other is granted per slice and his own overrun, whatever deadline and real-time work interleaves; only a task that was running at the start may instead be ahead by his own share and overrun |
| SchedulerRuns.OverrunExactly | src/kernel/halaos_kernel.c:1070-1082 | A slice is charged no more than the share it was scheduled for exactly for NORMAL tasks of weight at most 1024 |
| FairnessLimits.OrdinaryFairness | src/kernel/halaos_kernel.c:1070-1082 | Among those nobody is ahead of another by more than 4096 divided by the other's weight; a task running at the start, by its own |
| FairnessLimits.HeavyTasksOvershoot | src/kernel/halaos_kernel.c:1071-1073 | For every weight above 1024 that bound fails: from a concrete valid state one of two tasks of that weight gets exactly the grant plus the overrun ahead in its first slice |
| SchedulerRuns.ClearedInSlice | src/services/halaos_runtime.c:695-721 | A task whose virtual deadline was cleared when the shell re-enabled it meets the hypothesis of fairness, whatever it has used of its slice |
| SchedulerLaws.ClassesInOrder | src/kernel/halaos_kernel.c:721-762 | By the states of the tasks: a ready deadline task with budget, the one with the earliest deadline; otherwise, unless throttled, a ready FIFO or RR task of the most urgent level, the one waiting longest; otherwise a ready NORMAL or BATCH task with the least virtual deadline; otherwise task 0 |
| SchedulerLaws.FairService | src/kernel/halaos_kernel.c:1070-1082 | Along any run a fair task's virtual runtime grows by 1024 / weight, at least 1, for every tick it runs for and for nothing else, and its slice counts those ticks modulo 4 or 8 |
| SchedulerLaws.TickCharges | src/kernel/halaos_kernel.c:1028-1089 | A tick is the wake-ups and then the accounting of the running task; every other task is as the wake-ups left it |
| SchedulerLaws.BudgetExactly | src/kernel/halaos_kernel.c:986-1004 | Along any run a deadline task's budget is its runtime less exactly the ticks it ran for since it was last replenished |
| SchedulerLaws.ExhaustionSleeps | src/kernel/halaos_kernel.c:986-1004 | The tick that takes the last of the budget puts the task to sleep until its next release, or for a period if that has passed |
| SchedulerLaws.WakingMeans | src/kernel/halaos_kernel.c:418-437 | The tick a sleeper is due at makes it ready, a deadline task with its whole runtime and deadline and release a period ahead; other sleepers stay as they are |
| SchedulerLaws.SleepingMeans | src/kernel/halaos_kernel.c:794-804 | The running task leaves its list and is queued for the ticks asked for, at least one |
| SchedulerLaws.QuantumMeans | src/kernel/halaos_kernel.c:1061-1069 | A tick of a round-robin task takes one from its quantum; when that is used up it is full again and the first task of the level stands behind all others, those just woken included |
| SchedulerLaws.TurnsInOrder | src/kernel/halaos_kernel.c:282-293 | A round-robin task runs for exactly the rest of its quantum; then the next in line of its level runs and it stands last with a full quantum |
| SchedulerRuns.RealTimeBudget | src/kernel/halaos_kernel.c:957-971 | In every run of unit ticks each followed by the reschedule, FIFO and RR tasks are charged at most 80 ticks between two window resets |
| SchedulerRuns.EarlyWakeExactly | src/kernel/halaos_syscall.c:84-94 | A sleeping task made ready, as a compile request does, leaves the ready lists right; every other sleeping task stays queued exactly when it was the last in the sleep queue |
| SchedulerRuns.NextValid | src/kernel/halaos_kernel.c:393-437 | Every step keeps the ready lists, the sleep queue and the task states consistent: ready real-time tasks queued once at their priority, sleepers queued once, nobody in both |
| DeadlineRuns.IsolationExactly | src/kernel/halaos_kernel.c:418-437 | For a deadline task whose budget and release time are in step at the start: its replenishments are at least a period apart and it is charged at most its runtime between two of them, in a run and in all continuations of it by ticks, if and only if no sleep it asks for along the run, of n ticks, has now + max(n, 1), plus 1 if another sleeper is due at that tick, before its next release |
| DeadlineRuns.DeadlineIsolation | src/kernel/halaos_kernel.c:986-1004 | The if half, for the run itself |
| DeadlineRuns.VoluntarySleepRefills | src/kernel/halaos_kernel.c:418-437 | From a concrete valid state a deadline task that sleeps one tick has its whole budget back at the next, 99 ticks early |
| SleepQueue.TickExactly | src/kernel/halaos_kernel.c:418-437 | A tick wakes exactly the sleepers that were to wake with it and brings each other one tick nearer |
| SleepQueue.PlaceWakes | src/kernel/halaos_kernel.c:359-378 | A task queued for r > 0 ticks wakes at the r-th tick, or at the next one if another sleeper is due then |
| SleepQueue.DueInMeans | src/kernel/halaos_kernel.c:418-437 | The test for another sleeper being due r ticks from now, made on the deltas, holds exactly when some sleeper has that time left |
| SleepQueue.PlaceKeepsWaking | src/kernel/halaos_kernel.c:359-378 | Queueing a task changes no other sleeper's waking tick |
| SleepQueue.AdvanceRefines | src/kernel/halaos_kernel.c:418-437 | Against a list of absolute due times: wakes everything due before the new time and the first task due exactly then, in order, and subtracts the elapsed time from the rest |
| SleepQueue.PlaceRefines | src/kernel/halaos_kernel.c:359-378 | Insertion is stable insertion into the list sorted by due time; nobody else's time changes |
| SleepQueue.DropRefines | src/kernel/halaos_kernel.c:326-344 | Removal takes one task off that list; nobody else's time changes |
| SleepQueue.DropUndoesPlace | src/kernel/halaos_kernel.c:326-378 | Inserting and removing again restores the queue |
| SleepQueue.NeverEarly | src/kernel/halaos_kernel.c:418-437 | Over any run that leaves a sleeper alone it stays queued until its ticks have passed, with exactly the rest to wait |
| SleepQueue.LeftBehindWakesNext | src/kernel/halaos_kernel.c:419-436 | A due task left behind wakes with the next advance |
| SleepQueue.CutKeepsExactly | src/kernel/halaos_kernel.c:393-404 | When a queued sleeper is made ready, of the others exactly those before it stay queued, with their waking ticks |
| SleepQueue.EarlyWakeHarmless | src/kernel/halaos_kernel.c:393-404 | Nobody loses his place exactly when it was the last to wake |
| SleepQueue.EarlyWakeLoses | src/kernel/halaos_kernel.c:393-437 | Those behind it are woken by no later tick, whatever the queue goes through, until they are queued again |
| SleepQueue.TimelineSorted | src/kernel/halaos_kernel.c:359-378 | The due times of a delta queue are sorted |
| SleepQueue.DeltaQueue.SleepRemove | src/kernel/halaos_kernel.c:326-344 | Unlinks a sleeper and gives its delta to its successor; nothing if it is not queued |
| SleepQueue.DeltaQueue.SleepInsert | src/kernel/halaos_kernel.c:359-378 | Links a task in behind all that are due no later |
| SleepQueue.DeltaQueue.Pop | src/kernel/halaos_kernel.c:420-436 | Takes the first sleeper whose delta fits the elapsed time |
| SleepQueue.DeltaQueue.Detach | src/kernel/halaos_kernel.c:398-399 | Clears the links of a task: the queue ends where it stood, and is as it was if it was not queued |
| ReadyList.HighestIsFirst | src/kernel/halaos_kernel.c:307-312 | The task picked is the head of the smallest non-empty level |
| ReadyList.LinesMean | src/kernel/halaos_kernel.c:218-293 | Where everybody stands after an append, a removal and a rotation, by position in the line of the level |
| ReadyList.RemoveUndoesEnqueue | src/kernel/halaos_kernel.c:218-268 | Enqueue and remove again restores all sixteen queues |
| ReadyList.EnqueueMembers | src/kernel/halaos_kernel.c:218-231 | Enqueue adds exactly one task and keeps the lists disjoint |
| ReadyList.RemoveMembers | src/kernel/halaos_kernel.c:245-268 | Remove takes exactly one task out and keeps the lists disjoint |
| ReadyList.RotateMembers | src/kernel/halaos_kernel.c:282-293 | Rotation keeps the members of every level |
| ReadyList.ReadyQueues.constructor | src/kernel/halaos_kernel.c:198-204 | Sixteen empty lists, no bit set |
| ReadyList.ReadyQueues.RtEnqueue | src/kernel/halaos_kernel.c:218-231 | Appends to the list of the clamped level; links, tail and bitmap encode the sixteen sequences again |
| ReadyList.ReadyQueues.RtRemove | src/kernel/halaos_kernel.c:245-268 | Deletes from the middle, the head or the tail; the bit goes with the last one |
| ReadyList.ReadyQueues.RtRotate | src/kernel/halaos_kernel.c:282-293 | Moves the head to the tail when there are two |
| ReadyList.ReadyQueues.HighestRt | src/kernel/halaos_kernel.c:307-312 | Head of the lowest level whose bit is set, or none |
| Kernel.Kernel.TaskMakeReady | src/kernel/halaos_kernel.c:393-404 | A task that is not ready becomes ready with its sleep links cleared, which ends the sleep queue at it if it stands there; a real-time task is queued at its priority; a ready task is left alone |
| Kernel.Kernel.WakeTask | src/kernel/halaos_kernel.c:421-436 | A woken deadline task gets its budget and next deadline |
| Kernel.Kernel.SleepAdvance | src/kernel/halaos_kernel.c:418-437 | Wakes by the queue's rule, in its order |
| Kernel.Kernel.ChooseDeadline | src/kernel/halaos_kernel.c:656-672 | The ready deadline task with budget and the earliest deadline, lowest index first |
| Kernel.Kernel.ChooseFair | src/kernel/halaos_kernel.c:686-707 | Fills missing virtual deadlines and picks the smallest, lowest index first |
| Kernel.Kernel.ScheduleNext | src/kernel/halaos_kernel.c:721-762 | Deadline before unthrottled real-time before fair before idle |
| Kernel.Kernel.RtCharge | src/kernel/halaos_kernel.c:957-971 | Counts real-time ticks, throttles at the budget, resets with the window |
| Kernel.Kernel.DeadlineCharge | src/kernel/halaos_kernel.c:986-1004 | Charges the budget; an exhausted task sleeps until its next release |
| Kernel.Kernel.BlockRunning | src/kernel/halaos_kernel.c:794-804 | Takes the running task off its ready list and queues it for sleep |
| Kernel.Kernel.ChargeRunning | src/kernel/halaos_kernel.c:1041-1084 | Quantum, virtual runtime or budget of the running task, by policy |
| Kernel.Kernel.SysTick | src/kernel/halaos_kernel.c:1028-1089 | The tick: time, wake-ups, IPC timeouts on the object table, accounting of the running task, real-time window |
| Kernel.Kernel.IpcTick | src/kernel/halaos_objects.c:1148-1158 | Every overdue waiter's object is cleared and its task made ready, in the order of the table; nobody else is touched |
| Scheduling.AwakenKeeps | src/kernel/halaos_kernel.c:1039-1040 | The first half of a tick: sleepers that are due become ready, deadline tasks among them replenished; blocked tasks become ready with nothing else changed; all others are as they were |
| FileTable.DescriptorsConserved | src/kernel/halaos_objects.c:1163-1337 | After any sequence of open, close, dup2, spawn, program steps, both kinds of exit, stop, kill and wait: each open file's reference count is the number of table cells over all processes that point at it, it is used exactly when that is positive, each process's count matches its row, and opens less closes is the number of live cells |
| FileTable.OpenConserves | src/kernel/halaos_objects.c:1163-1224 | One open keeps it, also when a table is full |
| FileTable.CloseConserves | src/kernel/halaos_objects.c:1226-1246 | One close keeps it; the file is freed with its last reference |
| FileTable.Dup2Conserves | src/kernel/halaos_objects.c:1319-1337 | One dup2 keeps it, whether the new descriptor was open, closed or the same |
| FileTable.SpawnConserves | src/kernel/halaos_objects.c:268-299 | Creating a process keeps it |
| FileTable.KillConserves | src/kernel/halaos_objects.c:804-820 | Killing a child releases its descriptors and keeps it |
| FileTable.WaitConserves | src/kernel/halaos_objects.c:849-903 | Waiting keeps it, reaping an exited child included |
| FileTable.ExitConserves | src/kernel/halaos_objects.c:791-801 | Exit keeps it |
| FileTable.StepConserves | src/kernel/halaos_objects.c:732-776 | A step of a process's program keeps it |
| FileTable.FinalizeConserves | src/kernel/halaos_objects.c:783-788 | The end of a program keeps it, a waiting parent's reaping included |
| FileTable.StopConserves | src/kernel/halaos_objects.c:823-841 | Stopping and resuming keep it |
| FileTable.ProcessesIdentified | src/kernel/halaos_objects.c:268-328 | After any sequence of those calls no two live processes have one pid and no two that were spawned run in one task |
| FileTable.WaitsConserved | src/kernel/halaos_objects.c:626-651 | Over any sequence of those calls the waits that blocked are as many as those answered, those still registered with their child, and those whose child another caller's wait reaped |
| FileTable.KillStrands | src/kernel/halaos_objects.c:804-820 | Killing a child that a parent waits for answers nobody: the wait stays registered with a process whose program makes no further step |
| FileTable.ProgramEnds | src/kernel/halaos_objects.c:732-776 | A program is ready through all its steps (one, or the argument up to 16 for the counting entry) and ended exactly by the step after the last |
| FileLaws.OpenExactly | src/kernel/halaos_objects.c:1163-1224 | A path without a node gives its own error, a table without room -24; otherwise the lowest free descriptor from 3 on names the lowest unused file, which has the node, the flags and one reference, and every other cell and file stays |
| FileLaws.OpenUnknown | src/kernel/halaos_objects.c:1163-1176 | Without the process -22, and nothing changes |
| FileLaws.CloseExactly | src/kernel/halaos_objects.c:1226-1246 | Close succeeds exactly for an open descriptor, empties that cell alone and takes one reference from its file |
| FileLaws.Dup2Exactly | src/kernel/halaos_objects.c:1319-1337 | Dup2 succeeds exactly from an open descriptor to one in range; then both name the file the old one named, whatever the new one named, and no other cell of any process changes; otherwise it is -9 and nothing changes |
| FileLaws.KillExactly | src/kernel/halaos_objects.c:804-820 | Who may kill whom, and what is left: no descriptors, the status, nobody told |
| FileLaws.StopExactly | src/kernel/halaos_objects.c:823-841 | Who may stop and resume whom, out of which state, with which result |
| FileLaws.ExitExactly | src/kernel/halaos_objects.c:791-801 | An exiting process is left with its status or, if a task waits, reaped at once and the task told pid and status |
| FileLaws.WaitExactly | src/kernel/halaos_objects.c:849-880 | A wait by the parent returns pid and status of an exited child, or registers the task if none waits; others get their error |
| FileLaws.NobodyAnswers | src/kernel/halaos_objects.c:791-880 | Every call on a pid that no process has gives its error and changes nothing |
| FileLaws.SpawnExactly | src/kernel/halaos_objects.c:268-328 | When a process is made, with which pid, entry, task and parent, and what a refusal returns |
| FileLaws.ClaimExactly | src/kernel/halaos_objects.c:310-327 | The task claimed is the lowest dynamic one that is blocked and free |
| FileLaws.TaskStepExactly | src/kernel/halaos_objects.c:732-776 | What a task is told to do at each step of each program, and when the program ends |
| FileLaws.FinalizeExactly | src/kernel/halaos_objects.c:783-788 | A program that has ended is reaped exactly when a task waits, with its notice |
| FileLaws.ReapExactly | src/kernel/halaos_objects.c:626-651 | The entry is free again, its descriptors closed, all others as they were |
| Descriptors.ObjectTable.AllocateFd | src/kernel/halaos_objects.c:382-392 | Lowest free descriptor of the row, or none |
| Descriptors.ObjectTable.VfsOpen | src/kernel/halaos_objects.c:1163-1224 | On the arrays, the specified open, result code included |
| Descriptors.ObjectTable.VfsClose | src/kernel/halaos_objects.c:1226-1246 | The specified close |
| Descriptors.ObjectTable.VfsDup2 | src/kernel/halaos_objects.c:1319-1337 | The specified dup2 |
| Descriptors.ObjectTable.FdReleaseOwned | src/kernel/halaos_objects.c:600-618 | Releases every descriptor of a process |
| Descriptors.ObjectTable.ReapProcess | src/kernel/halaos_objects.c:626-651 | Frees the process slot after releasing its descriptors |
| Descriptors.ObjectTable.ProcessSpawn | src/kernel/halaos_objects.c:688-720 | The specified spawn, with and without a program to run |
| Descriptors.ObjectTable.ClaimSlot | src/kernel/halaos_objects.c:310-327 | The lowest dynamic task that is blocked and runs no process; none while an application runs |
| Descriptors.ObjectTable.ProcessTaskStep | src/kernel/halaos_objects.c:732-776 | The specified step |
| Descriptors.ObjectTable.FinalizeTaskExit | src/kernel/halaos_objects.c:783-788 | The specified end of a program |
| Descriptors.ObjectTable.ProcessStop | src/kernel/halaos_objects.c:823-841 | The specified stop and resume |
| Descriptors.ObjectTable.ProcessExit | src/kernel/halaos_objects.c:791-801 | The specified exit |
| Descriptors.ObjectTable.ProcessKill | src/kernel/halaos_objects.c:804-820 | The specified kill |
| Descriptors.ObjectTable.ProcessWait | src/kernel/halaos_objects.c:849-880 | The specified wait, exit status included |
| Ipc.StreamConserved | src/kernel/halaos_objects.c:982-1058 | For a queue or pipe over any interleaving of calls and timeouts: the ring at the start followed by the bytes sent successfully is the bytes delivered, from the ring or by hand-off, followed by the ring at the end, in order |
| Ipc.SemaphoreCounts | src/kernel/halaos_objects.c:1060-1101 | Initial value plus posts is the value plus the waits completed, hand-offs included |
| Ipc.MutualExclusion | src/kernel/halaos_objects.c:1103-1145 | From a lock obtained to its unlock no other process's lock succeeds, hand-offs included |
| Ipc.CallConserves | src/kernel/halaos_objects.c:346-357 | The stream law for one call |
| Ipc.StaysSound | src/kernel/halaos_objects.c:982-1158 | Every call keeps: a receiver waits only at an empty ring, a semaphore waiter only at value 0, a locker only at a held mutex |
| Ipc.EnterRing | src/kernel/halaos_objects.c:1001-1006 | Writing at the tail appends to the ring's contents |
| Ipc.LeaveRing | src/kernel/halaos_objects.c:1031-1036 | Reading at the head takes the first byte of them |
| IpcLaws.SendExactly | src/kernel/halaos_objects.c:982-1009 | A send returns 1 exactly when a receiver waits or the ring holds fewer than 128 bytes, and -11 otherwise; the byte goes to the receiver or to the end of the ring |
| IpcLaws.ReceiveExactly | src/kernel/halaos_objects.c:1011-1039 | A receive returns 1 exactly when the ring holds a byte, and takes the oldest; otherwise -11 or, given a timeout, -110 |
| IpcLaws.ReceiveWaitExactly | src/kernel/halaos_objects.c:1042-1058 | A blocking receive takes a byte, or blocks exactly when it may wait and nobody does, with its deadline modulo 2^32, or returns -11 |
| IpcLaws.QueueRoundTrip | src/kernel/halaos_objects.c:982-1039 | Up to 128 sends to an empty queue or pipe all return 1, as many receives return 1 and give the bytes back in order; a 129th send is refused |
| IpcLaws.EventExactly | src/kernel/halaos_objects.c:993-1035 | An event is set by a send or handed over; a receive finds it once |
| IpcLaws.SemaphoreExactly | src/kernel/halaos_objects.c:1060-1101 | A wait returns 0 exactly at a positive value and takes one; a post wakes the waiter or adds one |
| IpcLaws.SemaphoreBlocksExactly | src/kernel/halaos_objects.c:1074-1089 | A blocking wait succeeds, blocks or is refused |
| IpcLaws.MutexExactly | src/kernel/halaos_objects.c:1103-1145 | A lock returns 0 exactly when the mutex is free or the caller's own; unlock is for the holder alone and hands over to the waiter |
| IpcLaws.MutexBlocksExactly | src/kernel/halaos_objects.c:1116-1131 | A blocking lock succeeds, blocks or is refused |
| IpcLaws.WrongKind | src/kernel/halaos_objects.c:982-1145 | A call that the object's kind does not take returns -9 and changes nothing |
| IpcLaws.TimesOutExactly | src/kernel/halaos_objects.c:1148-1158 | A wait of n < 2^31 ticks times out n ticks after its start and not before, across the wrap of the counter |
| IpcLaws.NobodyWaits | src/kernel/halaos_objects.c:1148-1158 | Without a waiter time changes nothing |
| IpcTable.HandleRoundTrip | src/kernel/halaos_objects.c:359-370 | A handle finds the object it was made for while the generation stands |
| IpcTable.HandlesApart | src/kernel/halaos_objects.c:359-361 | Different slots or generations have different handles |
| IpcLaws.LookupExactly | src/kernel/halaos_objects.c:359-370 | A handle names an entry exactly when that is in use and its 32 bits are the generation over the index |
| IpcLaws.CreateExactly | src/kernel/halaos_objects.c:937-960 | -22 for an unknown process, -12 exactly when every entry is in use, otherwise the first free entry, empty, with its initial value and the next generation |
| IpcLaws.CloseExactly | src/kernel/halaos_objects.c:962-980 | -9 exactly for a handle that names nothing, -13 exactly for somebody else's object; otherwise the entry is free and its waiter told -125 |
| IpcLaws.ReleaseExactly | src/kernel/halaos_objects.c:584-598 | Killing or reaping frees exactly the entries of that process |
| IpcTable.StaleHandle | src/kernel/halaos_objects.c:937-980 | A handle kept over a close is refused after any number of reuses short of the generation counter's period |
| IpcTable.ObjectsAccounted | src/kernel/halaos_objects.c:937-980 | Over any run of creating, closing, calls, timeouts, kills and reaps each process's count is the number of objects it owns, the live count is the number in use, and no object outlives its owner |
| IpcTable.ReleaseAccounted | src/kernel/halaos_objects.c:584-598 | After a kill or a reap the process owns nothing and all counts are right |
| IpcTable.TimedOutWaited | src/kernel/halaos_objects.c:1148-1158 | Every task that times out was registered as the waiter of an object in use |
| IpcTable.Table.WakeWaiter | src/kernel/halaos_objects.c:346-357 | The waiter gets result and byte and is forgotten |
| IpcTable.Table.Create | src/kernel/halaos_objects.c:937-960 | For a live process, a cleared object of the next generation in the first free slot, counted for its owner |
| IpcTable.Table.Close | src/kernel/halaos_objects.c:962-980 | Only the owner; the waiter is woken with an error, the slot is free and the owner's count one less |
| IpcTable.Table.ReleaseOwned | src/kernel/halaos_objects.c:584-598 | Everything the process owns is closed, and the waiters are woken with an error |
| IpcTable.Table.IpcSend | src/kernel/halaos_objects.c:982-1009 | The specified send on the object the handle names; others are untouched |
| IpcTable.Table.IpcReceive | src/kernel/halaos_objects.c:1011-1039 | The specified receive |
| IpcTable.Table.IpcReceiveWait | src/kernel/halaos_objects.c:1042-1058 | The specified blocking receive |
| IpcTable.Table.SemaphoreWait | src/kernel/halaos_objects.c:1060-1072 | The specified wait |
| IpcTable.Table.SemaphoreWaitBlocking | src/kernel/halaos_objects.c:1074-1089 | The specified blocking wait |
| IpcTable.Table.SemaphorePost | src/kernel/halaos_objects.c:1091-1101 | The specified post |
| IpcTable.Table.Lock | src/kernel/halaos_objects.c:1103-1114 | The specified lock |
| IpcTable.Table.LockBlocking | src/kernel/halaos_objects.c:1116-1131 | The specified blocking lock |
| IpcTable.Table.Unlock | src/kernel/halaos_objects.c:1133-1145 | The specified unlock with hand-off |
| IpcTable.Table.Tick | src/kernel/halaos_objects.c:1148-1158 | Overdue waiters return -110 in slot order; afterwards none is overdue, nobody else is touched |
| Dtb.EncodedTreeIsRead | tools/dtsgen.py:12-20 | Any non-empty tree of well-typed properties within the field widths, encoded, is accepted by the validator's rules and read back as the same tree |
| Dtb.AcceptedBlobIsEncoded | src/platform/halaos_dtb_driver.c:38-93 | Conversely, of every blob that validates, the records are the encoding of exactly the non-empty tree that is read from it, and the header's counts are that tree's |
| Dtb.ValidateBlob | src/platform/halaos_dtb_driver.c:38-93 | Ends inside the blob on all inputs and accepts exactly the blobs that hold a tree |
| Dtb.Get | src/platform/halaos_dtb_driver.c:123-150 | On a blob that validates, the first matching property in document order; ends inside the blob |
| Dtb.GetEncoded | src/platform/halaos_dtb_driver.c:123-150 | On an encoded tree, the lookup in the tree itself |
| Dtb.NameEq | src/platform/halaos_dtb_driver.c:23-30 | True exactly when the stored bytes are the name and its terminator |
| Dtb.PropRoundTrip | tools/dtsgen.py:14-16 | One property record reads back |
| Dtb.NodeRoundTrip | tools/dtsgen.py:18-20 | One node record reads back |
| Dtb.BlobFields | tools/dtsgen.py:62-63 | Where the header fields and the checksum of an assembled blob stand, and what they are |
| DtbLaws.AcceptedExactly | src/platform/halaos_dtb_driver.c:38-93 | A blob is accepted, as a tree, exactly when its header is right byte for byte, its last four bytes are the checksum of all before, and its records are the encoding of that tree |
| DtbLaws.DamageIsRefused | src/platform/halaos_dtb_driver.c:38-93 | A blob whose bytes have come to have another checksum than the stored one is refused |
| DtbLaws.TypesMean | src/platform/halaos_dtb_driver.c:38-93 | What a value may be by its type byte: text with its terminator, 4, 8, 12 bytes, or one |
| DtbLaws.RecordsMean | tools/dtsgen.py:12-20 | Every byte of a record's and a property's header |
| DtbLaws.LookupExactly | src/platform/halaos_dtb_driver.c:123-150 | A lookup fails exactly when no node of the path has the property, and otherwise finds it in the earliest node and place |

## Left out

- Registers, UART, interrupts, context switching, tickless reload values, HardFault recovery: hardware effects. The VM's output is an appended trace, the answer to a GPIO request a function of how much was traced before.
- `crc32_bytes`: an arbitrary function of the bytes, in the store and in the device tree.
- Flash parts that refuse to program a half-word twice: erasing gives all ones, programming clears bits, and one erase or one half-word program is atomic.
- Wrap-around of ticks, sequence numbers, virtual runtime and process numbers: stated below their limits. Deadlines of waiting processes are compared modulo 2^32 as in the source; the generation counter wraps as in the source.
- Shell, console printing, the procfs text, demonstration workloads, self-tests, the marker applications recognised by `compile_hala_c`.
- Null pointers as arguments, and the copying of names through fixed character arrays in the compiler: names are compared as whole byte sequences shorter than 12.
- Compiler.HcCompiler.EmitString: when the buffer was full before the length byte was emitted the source stores the length at index 256, outside the array; compilation has failed by then and the store is not modelled.
- Compiler.HcCompiler.AddLocal: after a failed expectation the source may enter a token that is no identifier; here its name is then empty. Compilation has failed by then.
- Diagnoses.RefusedProgramsMean: of -68 (the code is full) it says nothing about the token, since it depends on the size of all the code before.
- Readings.LinesWritten: a text that ends in the byte 0x0F is left out, since then main may run on (`MissingReturnGoesUnnoticed`).
- Lexer.ReadNumber: overflow of the signed accumulator, undefined in C, is taken as wrap-around.
- Frontend.CompileSource: hands the image back instead of calling the store; `StoreDriver.Store.AppWrite` is the store's side. The three statistics globals are not kept.
- Interpreter.Vm.Slice: the wait for the shell to stop typing, locking of the console and the step counter are not modelled; starting over when the stored application changes is a fresh `Vm`.
- Scheduling counters (`g_switches`, `g_fair_picks`, `g_scheduler_max_scan` and the like), stack checks and `g_preempt_count`: they decide nothing that is proved.
- Tickless steps: they begin only while every load task is off and are undone before one is enabled, so the runs are of single ticks; the members about one tick and about the sleep queue are for steps of any length.
- SchedulerRuns.NextValid: making a sleeping task ready (load switches, the compile request, resuming a process stopped or killed in its sleep) is no step of the runs, since it breaks the sleep queue; what one such step does is stated by `EarlyWakeExactly` and `EarlyWakeLoses`. The wake-up counter is not kept.
- SchedulerRuns.WeightedFairness: of the ways tasks come to equal virtual runtime only the state they leave is modelled (`ClearedInSlice`), not the shell command itself.
- Descriptors.ObjectTable.VfsOpen: path lookup through mounts and virtual nodes is a parameter. Process names and which tasks are blocked are the caller's to say in `ProcessSpawn`. Reading, writing and file contents are not modelled.
- Descriptors.ObjectTable.ProcessKill: its effects outside the process and descriptor tables are elsewhere or not modelled: `IpcTable.Table.ReleaseOwned` closes the IPC objects, the task's own state is the scheduler's, and an IPC wait of the process on somebody else's object stays registered.
- IpcTable.Table.Create: process entries are seen only as the map of live pids to counts; an object type outside the five is not expressible.
- `tools/dtsgen.py` beyond the encoder: reading the device tree source and writing the generated files.
