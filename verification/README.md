# Verified models of the Orison bootstrap toolchain

This project models the parts of the Orison bootstrap compiler and CLI in which the reasoning is hard
to check by reading, and proves what they promise. Each module follows one component.

- **Schema validation** (`MiniRegex`, `PatternSyntax`, `PatternWriter`, `PatternMeaning`, `SchemaWalk`,
  `SchemaMeaning`, `SchemaReports`, `SchemaModes`, `SchemaEnds`, `SchemaValidator`): the pattern engine
  whose greedy matcher returns a single end position, and the recursive validator with its strict and
  lenient modes, compared with a statement of what each keyword demands; what its issues say and where
  they point, and when its walk along references ends.
- **Async runtime** (`CoopScheduler`, `SchedulerOrder`, `WorkerPool`, `PoolRuns`, `PoolStarvation`,
  `ParallelMode`): the cooperative FIFO scheduler as an object, and the worker pool as a transition
  system. One step of the pool is one critical section or one signal; leaving the lock with an empty
  queue and draining it are separate steps, as are recording the cap, requeueing and notifying.
- **x86-64 encoder** (`X64Encoder`, `X64Codec`, `X64Programs`): REX and ModR/M packing on 8-bit vectors
  (Intel SDM volume 2A, sections 2.1.3 and 2.2.1), an independent decoder, and a simulation between the
  instruction list and its bytes. What an instruction does to data is a parameter.
- **Lifetime solver** (`Order`, `LifetimeClasses`, `LifetimeSolver`): depth-first reachability, a
  union-find whose roots are least members, and the constraint solver on top of both.
- **Bundler** (`Fnv`, `Octal`, `Ustar`, `Splitting`, `Bundler`, `BundleLaws`): the ustar writer (POSIX.1,
  `pax` utility, ustar interchange format), an independent reader, and the rules for accepting inputs.
- **Request dispatch** (`RoutePatterns`, `RouteDispatch`, `Dispatcher`): path patterns, the route table,
  selection, redirects (RFC 9110 section 15.4.9), 405 answers (section 15.5.6), middleware and the
  capability check. Middleware and upper-casing are arbitrary functions.
- **Borrow checking** (`Ast`, `Regions`, `BorrowWalk`, `BorrowLaws`, `BorrowPlaces`, `BorrowSteps`,
  `BorrowListing`, `BorrowMeaning`): the region tracker, the recursive walker that drives it, and what
  the two rules mean for the places of borrows in a body.
- **Constant folding** (`ConstFold`, `FoldSize`, `Interp`, `EvalEnv`, `FoldMeaning`, `FoldLimits`): the
  folder, and the repository's own interpreter as the meaning that folding must keep. Builtins and the
  capability guard are arbitrary functions, so the results hold for all of them.

A method proved against a specification function has that equation as its contract; the lemmas named
below say what the specification means. Strings that the source compares byte by byte (bundle names)
are modelled as one character per UTF-8 byte. 64-bit counters saturate and hashes wrap explicitly.

## Where the code and its documentation differ

The models follow the code.

- `bundler.rs` lines 79-81 and 254 call the manifest the first entry; entries are sorted, so it is first
  only when its name is least (`BundleLaws.ManifestFirstExactlyWhenLeast`).
- The bundler's destination check says nothing about NUL bytes, and the archive then truncates the name
  (`Ustar.RoundTrip`, `BundleLaws.NulNamesCollide`).
- `backend_dispatch.rs` lines 130-139 call `/users` and `/users/` distinct routes under the strict
  policy, but `insert_route` refuses every such pair, although no request matches both
  (`RoutePatterns.ConflictIsAmbiguityExactly`).
- A path of slashes only redirects to an empty location (`Dispatcher.RedirectsSettle`).
- `borrow_lifetimes.rs` lines 251-253 let requirements be proved from other constraints; the code uses
  the declared bounds only (`LifetimeSolver.EqualitiesDoNotExtendBounds`).
- `schema_check.rs` lines 20-23 say that a boolean `additionalProperties` never rejects; strict mode does
  reject with `false`. The pattern documentation at lines 760-775 requires both anchors; only `^` is
  needed. `oneOf` means "at least one" (as the header says), not "exactly one" as in JSON Schema.
- `codegen_x64.rs` line 118 allows 10 or 11 bytes for `MOV r64, imm64`; the encoding is always 10.
- `const_fold.rs` lines 3-13 promise to collapse only what can be reduced without observing effects, and
  to pick literal arms; wildcard and binding arms are picked too, and six kinds of bodies change their
  result under the interpreter (`FoldLimits`). `FoldMeaning.Safe` is the condition under which a program
  keeps its meaning.
- `async_runtime.rs` promises that ids are never reused; a saturated counter hands the last id out again
  (`CoopScheduler.SpawnHealthy` gives the exact condition).

## Model

| member | source | states |
|---|---|---|
| MiniRegex.MatchTokens | crates/ori-cli/src/schema_check.rs:983-1031 | the greedy matcher returns the greatest end that any match of the tokens can reach from the position, and None exactly when no match exists |
| MiniRegex.BackOff | crates/ori-cli/src/schema_check.rs:997-1019 | the back-off loop over a `+` token finds that greatest end although it stops at the first suffix that matches |
| MiniRegex.Exchange | crates/ori-cli/src/schema_check.rs:997-1019 | crossing match paths can be exchanged: if a match from an earlier start ends no earlier than one from a later start, the later start can reach that end too |
| MiniRegex.LaterBreakDominates | crates/ori-cli/src/schema_check.rs:1002-1018 | when the rest matches from a later break, the greatest end from there is the greatest over every earlier break as well |
| PatternSyntax.ParseClass | crates/ori-cli/src/schema_check.rs:931-964 | the class scanner computes the ranges of the class grammar, and fails exactly where the grammar does |
| PatternSyntax.CompileTokens | crates/ori-cli/src/schema_check.rs:845-929 | the one-cursor scan computes the token list the grammar assigns to the pattern, None exactly on unsupported syntax |
| PatternSyntax.MatchAnchored | crates/ori-cli/src/schema_check.rs:822-835 | comparing the one returned end with the text length decides membership: an anchored supported pattern accepts exactly its language, every other pattern accepts everything |
| PatternSyntax.SplitTopLevel | crates/ori-cli/src/schema_check.rs:785-820 | the scan returns the pieces between the top-level bars |
| PatternSyntax.AlternativesJoin | crates/ori-cli/src/schema_check.rs:785-820 | joining those pieces with bars gives the pattern back: nothing is lost or invented |
| PatternSyntax.PatternMatches | crates/ori-cli/src/schema_check.rs:776-783 | a pattern matches exactly when one of its top-level alternatives accepts the text |
| PatternWriter.CompileUndoesWrite | crates/ori-cli/src/schema_check.rs:845-929 | round trip: every expressible token list is recovered by compiling its written form |
| PatternWriter.ExpressibleExactly | crates/ori-cli/src/schema_check.rs:845-929 | a token list is what some pattern compiles to if and only if it is expressible: escapes inside the limits of the syntax, counts of 64 bits, and a leading `+` or `{` only where no quantifier could stand |
| PatternMeaning.EscapesMean | crates/ori-cli/src/schema_check.rs:873-895 | which escapes are supported, and for each exactly the bytes it consumes |
| PatternMeaning.PlainBytesMean | crates/ori-cli/src/schema_check.rs:896-902 | which bare bytes are unsupported; every other one consumes itself |
| PatternMeaning.ClassesMean | crates/ori-cli/src/schema_check.rs:931-964 | a class consumes exactly what one of its members does: an escape, a range with both ends, or a single byte |
| PatternMeaning.AlternativesAreBetweenBars | crates/ori-cli/src/schema_check.rs:785-820 | the alternatives are exactly the pieces between the bars that are neither escaped nor inside brackets or parentheses |
| SchemaValidator.ValidateNode | crates/ori-cli/src/schema_check.rs:273-347 | the validator appends to the error list exactly the issues of the walk, in order, or runs out of reference fuel exactly when the walk does |
| SchemaValidator.CheckObject | crates/ori-cli/src/schema_check.rs:601-672 | required, property and additional-property checks append exactly the issues of the object walk in the mode given |
| SchemaValidator.CheckItems | crates/ori-cli/src/schema_check.rs:674-691 | every array element is validated at its own path, in order |
| SchemaValidator.CheckCombinator | crates/ori-cli/src/schema_check.rs:693-727 | branches are tried in order on lists of their own; one mismatch is reported when none is clean |
| SchemaMeaning.WalkDecides | crates/ori-cli/src/schema_check.rs:273-347 | in either mode, for every schema and value: if the walk ends, it reports nothing if and only if the value satisfies every keyword, stated without the walk |
| SchemaMeaning.LeafDecided | crates/ori-cli/src/schema_check.rs:349-599 | type, const, enum, numeric, string, pattern, array and uniqueness checks report nothing if and only if their keywords hold, each type name having a meaning of its own |
| SchemaMeaning.OneBasicType | crates/ori-cli/src/schema_check.rs:377-401 | every value has exactly one of the six basic types; integers are numbers, and 1.5 is a number that is no integer |
| SchemaMeaning.ResolveExactly | crates/ori-cli/src/schema_check.rs:734-757 | a reference resolves to a definition of the current document, the document itself, or a loaded document with itself as root, and a web address to nothing |
| SchemaReports.LeafReports | crates/ori-cli/src/schema_check.rs:349-599 | each code is reported, at the path of the value, exactly when the keyword it stands for is broken |
| SchemaReports.MissingReports | crates/ori-cli/src/schema_check.rs:614-627 | one issue for each required name that is missing, at the path of that name |
| SchemaReports.UnexpectedReports | crates/ori-cli/src/schema_check.rs:642-660 | one issue for each unknown key of a closed object, at the path of that key |
| SchemaReports.JoinReadsBack | crates/ori-cli/src/schema_check.rs:265-271 | joining any segment to a path adds exactly one reference token to the JSON pointer, slashes and tildes included |
| SchemaReports.ReportsPointInto | crates/ori-cli/src/schema_check.rs:94-347 | every path reported for a document, read as a JSON pointer, leads to a part of it, or for a missing property to a key that its object lacks |
| SchemaMeaning.KeysDecided | crates/ori-cli/src/schema_check.rs:612-660 | required and closed-object checks report nothing exactly when, in strict mode, required keys are present and closed objects have no other |
| SchemaMeaning.PassesDecide | crates/ori-cli/src/schema_check.rs:693-727 | a combinator passes exactly when some branch is satisfied |
| SchemaModes.LenientWithinStrict | crates/ori-cli/src/schema_check.rs:273-347 | for every schema, value and nesting: if the strict walk ends, so does the lenient one, and its issues are the strict issues with some left out |
| SchemaModes.StrictImpliesLenient | crates/ori-cli/src/schema_check.rs:601-727 | mode monotonicity: no issue in strict mode means no issue in lenient mode |
| SchemaModes.PassesCovered | crates/ori-cli/src/schema_check.rs:693-727 | a combinator satisfied strictly is satisfied leniently, possibly by an earlier branch |
| SchemaModes.StrictMayNotEnd | crates/ori-cli/src/schema_check.rs:296-323 | the converse fails even for ending: a schema on which the lenient walk accepts at once and the strict walk never ends at any fuel |
| SchemaModes.RetryingForever | crates/ori-cli/src/schema_check.rs:693-727 | the family behind it: any document that tries a branch which always has issues and then itself is walked for ever |
| SchemaEnds.NodeEnds | crates/ori-cli/src/schema_check.rs:273-347 | for every schema, value and document loader: if a rank drops along the references followed on the same value (those under `properties`, `items` and `additionalProperties` being free), the walk ends |
| SchemaEnds.WalkEndsAndDecides | crates/ori-cli/src/schema_check.rs:273-347 | under the same condition the validator is a decision procedure: it ends and reports nothing if and only if the value is valid |
| SchemaEnds.TreeSchemaEnds | crates/ori-cli/src/schema_check.rs:296-323 | recursion through a property ends on every value |
| SchemaEnds.LoopNeverEnds | crates/ori-cli/src/schema_check.rs:296-323 | the other side: a loop of references that must be followed, directly or in first branches, never ends, in either mode and for every value |
| SchemaModes.PassesExactly | crates/ori-cli/src/schema_check.rs:693-727 | a combinator passes exactly when some branch has no issues |
| SchemaModes.OneOfIsAnyOf | crates/ori-cli/src/schema_check.rs:341-346 | `oneOf` reports what `anyOf` reports |
| SchemaModes.FuelIrrelevant | crates/ori-cli/src/schema_check.rs:296-323 | reference fuel decides only whether the walk ends, never what it reports |
| CoopScheduler.Scheduler.Spawn | crates/ori-compiler/src/async_runtime.rs:89-100 | the exact new state; the invariant survives exactly when the id handed out is not still queued or parked |
| CoopScheduler.Scheduler.Park | crates/ori-compiler/src/async_runtime.rs:105-113 | the exact new state, an unknown id changing nothing; the invariant is kept |
| CoopScheduler.Scheduler.Resume | crates/ori-compiler/src/async_runtime.rs:118-127 | the exact new state, an id that is not parked changing nothing; the invariant is kept |
| CoopScheduler.Scheduler.Step | crates/ori-compiler/src/async_runtime.rs:132-143 | the exact new state and tick; on a healthy scheduler it never yields Pending |
| CoopScheduler.Scheduler.RunToCompletion | crates/ori-compiler/src/async_runtime.rs:180-194 | returns exactly the values of the first min(max_steps, queued) futures in queue order and leaves the rest of the queue and the parked futures alone |
| CoopScheduler.Scheduler.LeakedIds | crates/ori-compiler/src/async_runtime.rs:162-174 | computes the leak set, which is empty on a healthy scheduler |
| CoopScheduler.Scheduler.DiagnosticsFor | crates/ori-compiler/src/async_runtime.rs:263-340 | which of A0001, A0002 and A0003 are raised, both directions, on any scheduler; A0003 never on a healthy one |
| CoopScheduler.Scheduler.DrainAndDiagnose | crates/ori-compiler/src/async_runtime.rs:180-194 | after a drain, overflow is reported exactly when more was queued than steps allowed, deadlock exactly when everything ready ran and something is parked |
| CoopScheduler.SpawnHealthy | crates/ori-compiler/src/async_runtime.rs:89-100 | spawning keeps the invariant if and only if the id is not in use |
| CoopScheduler.StepHealthy | crates/ori-compiler/src/async_runtime.rs:132-143 | stepping keeps the invariant and pops a future whose value is ready |
| CoopScheduler.RunsStayHealthy | crates/ori-compiler/src/async_runtime.rs:89-174 | over every run with at most 2^64 spawns: no duplicate in the queue, queued ids are those with values, queued, parked and completed cover all spawned ids, nothing leaks |
| SchedulerOrder.RunsAreInOrder | crates/ori-compiler/src/async_runtime.rs:89-143 | over every run with at most 2^64 - 1 spawns, read off its history: ids stand in the queue, and leave it, in the order in which they were last made ready, each with the value it was given then; a future waits exactly when a park of it was not followed by a resume |
| SchedulerOrder.SpawnsAreObservedInOrder | crates/ori-compiler/src/async_runtime.rs:180-194 | where nothing is parked, values are observed in the order of their spawns and the rest are queued in that order |
| SchedulerOrder.DepthIsPeak | crates/ori-compiler/src/async_runtime.rs:96-98 | the depth recorded is the longest the queue ever was |
| ParallelMode.ShipReady | crates/ori-compiler/src/async_runtime.rs:816-827 | parallel mode empties the ready queue into as many non-panicking pool tasks, completes exactly those ids and leaves parked futures alone |
| ParallelMode.ParallelReport | crates/ori-compiler/src/async_runtime.rs:810-829 | when there are at most 1024 tasks for each step allowed, the report of parallel mode is the same for every interleaving: all n completed in n steps, none cancelled or panicked, no A0011, and A0013 exactly above 256 workers |
| ParallelMode.ParallelReportExactly | crates/ori-compiler/src/async_runtime.rs:702-706 | with at least one worker, every interleaving gives that report if and only if n <= 1024 * max_steps |
| ParallelMode.NoWorkersNothingRuns | crates/ori-compiler/src/async_runtime.rs:502-511 | with no workers the report comes at once, nothing has run, and A0011 is raised exactly when something was submitted |
| WorkerPool.StepKeepsInv | crates/ori-compiler/src/async_runtime.rs:439-480 | every atomic step, by any worker in any state, keeps: each task in exactly one place, counters equal to the history, phases, and nothing left behind |
| WorkerPool.RunKeepsInv | crates/ori-compiler/src/async_runtime.rs:656-785 | so does every run, with any number of workers, cap exits and requeue-versus-drain races included |
| PoolRuns.Accounting | crates/ori-compiler/src/async_runtime.rs:439-480 | accepted = completed + panicked + cancelled + queued + in flight, and total_steps = completed + panicked |
| PoolRuns.NeverTwice | crates/ori-compiler/src/async_runtime.rs:656-785 | a task is never in two places, so it is never run twice nor both run and cancelled |
| PoolRuns.StepShrinks | crates/ori-compiler/src/async_runtime.rs:673-713 | once shutdown is set every step lowers a measure built from the queue and the worker positions |
| PoolRuns.RunsAreFinite | crates/ori-compiler/src/async_runtime.rs:673-713 | runs after shutdown have at most as many steps as the measure |
| PoolRuns.NeverStuck | crates/ori-compiler/src/async_runtime.rs:559-565 | after shutdown some step is always possible: no worker waits for ever |
| PoolRuns.EveryRunJoins | crates/ori-compiler/src/async_runtime.rs:526-551 | from any such state the run can be completed, within the measure, to where the join is possible |
| PoolRuns.NobodyParked | crates/ori-compiler/src/async_runtime.rs:559-565 | after the broadcast no worker is or gets parked on the condition variable |
| PoolRuns.StarvationDiagnostic | crates/ori-compiler/src/async_runtime.rs:615-632 | at the join a nonempty queue implies A0011, and without A0011 every accepted task was run or cancelled |
| PoolRuns.ScheduleIndependence | crates/ori-compiler/src/async_runtime.rs:489-550 | for any workers and any interleaving, if the queue fits under one worker's cap: every queued task runs exactly once, nothing more is cancelled, the queue ends empty, no A0011, and the report is the predicted one |
| PoolRuns.StartRunIsStartable | crates/ori-compiler/src/async_runtime.rs:489-523 | starting a run puts the pool in such a state whenever at most 1024 tasks are queued for each step allowed |
| PoolRuns.TasksLeaveInOrder | crates/ori-compiler/src/async_runtime.rs:673-713 | workers take tasks from the front: unless one is put back, the queue is a suffix of what it was under every interleaving |
| PoolRuns.OverloadStarves | crates/ori-compiler/src/async_runtime.rs:691-706 | more tasks than all workers may pop together always ends with A0011, whatever the interleaving |
| PoolStarvation.StarvesExactlyOverCap | crates/ori-compiler/src/async_runtime.rs:691-706 | for any number of workers: every interleaving is free of A0011 if and only if the queue is no longer than one worker's cap |
| PoolStarvation.StartedStarvesExactly | crates/ori-compiler/src/async_runtime.rs:702-706 | a run just asked for is free of A0011 under every interleaving if and only if at most 1024 * max_steps tasks are queued |
| PoolStarvation.OneWorkerStarvesExactlyOverCap | crates/ori-compiler/src/async_runtime.rs:691-706 | with one worker, any interleaving raises A0011 if and only if the queue is longer than the cap |
| X64Codec.DecodeUndoesEncoding | crates/ori-compiler/src/codegen_x64.rs:249-322 | unique decodability: whatever bytes follow, an encoded instruction decodes to itself and its own length |
| X64Codec.EncodingUndoesDecode | crates/ori-compiler/src/codegen_x64.rs:249-322 | whatever decodes is the encoding of what it decodes to |
| X64Codec.PrefixFree | crates/ori-compiler/src/codegen_x64.rs:249-322 | no encoding is a prefix of another instruction's encoding |
| X64Codec.MoveEncodings | crates/ori-compiler/src/codegen_x64.rs:249-322 | the published bytes of register moves |
| X64Codec.ArithmeticEncodings | crates/ori-compiler/src/codegen_x64.rs:249-322 | the published bytes of ADD, SUB and CMP |
| X64Codec.MultiplyEncodings | crates/ori-compiler/src/codegen_x64.rs:249-322 | the published bytes of IMUL, its operands the other way round |
| X64Codec.PushEncodings | crates/ori-compiler/src/codegen_x64.rs:249-322 | the published bytes of PUSH, with and without a prefix |
| X64Codec.PopEncodings | crates/ori-compiler/src/codegen_x64.rs:249-322 | the published bytes of POP, with and without a prefix |
| X64Codec.DisplacementLayout | crates/ori-compiler/src/codegen_x64.rs:249-322 | every displacement lies in the code in two's complement, low byte first |
| X64Codec.ImmediateLayout | crates/ori-compiler/src/codegen_x64.rs:249-322 | every 64-bit immediate lies there likewise, behind the prefix and opcode that name its register |
| X64Programs.Encode | crates/ori-compiler/src/codegen_x64.rs:169-176 | the appending loop yields the concatenated encodings of the program |
| X64Programs.ProgramsAreTheirBytes | crates/ori-compiler/src/codegen_x64.rs:169-176 | decode(encode(p)) == p, and two programs with the same bytes are the same program |
| X64Programs.LandingUnique | crates/ori-compiler/src/codegen_x64.rs:138-150 | an offset is the start of at most one instruction |
| X64Programs.StepSimulates | crates/ori-compiler/src/codegen_x64.rs:169-176 | a fetch-decode-execute step on the bytes at an instruction's offset is the step of the instruction list, jumps being relative to the next instruction |
| X64Programs.BytesSimulateList | crates/ori-compiler/src/codegen_x64.rs:169-176 | the same for whole runs from the program's start |
| LifetimeClasses.UnionFind.FindOrInsert | crates/ori-compiler/src/borrow_lifetimes.rs:621-634 | following parents ends, at the least lifetime that the united pairs force equal |
| LifetimeClasses.UnionFind.Union | crates/ori-compiler/src/borrow_lifetimes.rs:636-646 | the classes become those of the united pairs and the new one; only the two names are added |
| LifetimeClasses.RootIsLeast | crates/ori-compiler/src/borrow_lifetimes.rs:606-646 | in a parent map that represents the pairs, a root is the least member of its class |
| LifetimeClasses.Unite | crates/ori-compiler/src/borrow_lifetimes.rs:606-646 | after any sequence of unions, in any order, the representative is the least member of the generated class |
| LifetimeSolver.Reachable | crates/ori-compiler/src/borrow_lifetimes.rs:555-575 | the stack-based search ends and finds the target exactly when a path exists |
| LifetimeSolver.CheckOutlives | crates/ori-compiler/src/borrow_lifetimes.rs:234-240 | decides exactly the reflexive-transitive closure of the bounds |
| LifetimeSolver.FindTwoCycle | crates/ori-compiler/src/borrow_lifetimes.rs:580-591 | returns the first two-way edge in pair order, None exactly when there is none |
| LifetimeSolver.Solve | crates/ori-compiler/src/borrow_lifetimes.rs:260-368 | the full meaning of the answer: the first undeclared lifetime, the least two-way class pair, the first unprovable requirement, or the map of least representatives |
| LifetimeSolver.SuccessIsSound | crates/ori-compiler/src/borrow_lifetimes.rs:260-368 | on success equal lifetimes share a representative and every requirement holds in the closure or inside one class |
| LifetimeSolver.FailureMeansUnsolvable | crates/ori-compiler/src/borrow_lifetimes.rs:260-368 | solving succeeds if and only if all lifetimes are declared, no two classes are related both ways, and every requirement is provable |
| LifetimeSolver.AnswersIgnoreOrder | crates/ori-compiler/src/borrow_lifetimes.rs:242-259 | permuting or repeating constraints changes neither success, nor the map, nor a reported cycle |
| LifetimeSolver.EqualitiesDoNotExtendBounds | crates/ori-compiler/src/borrow_lifetimes.rs:326-349 | requirements are checked against the bounds as written: an instance that follows with the equalities is rejected |
| Fnv.Compute | crates/ori-compiler/src/bundler.rs:479-486 | the loop computes the hash |
| Fnv.PublishedHashes | crates/ori-compiler/src/bundler.rs:479-486 | the published hashes of the empty string and of "a" |
| Fnv.MultiplyInjective | crates/ori-compiler/src/bundler.rs:479-486 | multiplying by the odd prime is one-to-one on 64-bit words |
| Fnv.OneByteChanges | crates/ori-compiler/src/bundler.rs:479-486 | changing one byte between any prefix and suffix changes the hash |
| Fnv.SingleDifferenceDetected | crates/ori-compiler/src/codegen_x64.rs:324-332 | two byte strings of equal length that differ in exactly one place hash differently |
| Octal.WriteOctal | crates/ori-compiler/src/bundler.rs:452-477 | the header slice becomes the zero-padded octal field of the value, digits that do not fit being dropped, and nothing else changes |
| Octal.FieldReadsBack | crates/ori-compiler/src/bundler.rs:452-477 | a field reads back if and only if the value fits its digits |
| Ustar.WriteEntry | crates/ori-compiler/src/bundler.rs:396-450 | the in-place header, payload and padding appended are the entry's layout, checksum included |
| Ustar.WriteArchive | crates/ori-compiler/src/bundler.rs:305-313 | the buffer is the entries in order and two zero blocks |
| Ustar.HeaderReadsBack | crates/ori-compiler/src/bundler.rs:396-440 | an independent reader verifies the checksum of every written header and finds the size and the name up to its first NUL |
| Ustar.OwnershipReadsBack | crates/ori-compiler/src/bundler.rs:406-418 | the reader finds mode 0644, owner and group 0, and modification time 0 in every header |
| Ustar.StandardMarks | crates/ori-compiler/src/bundler.rs:419-426 | every header carries the type, magic and version that the standard prescribes |
| Ustar.ArchiveReadsBack | crates/ori-compiler/src/bundler.rs:305-313 | the reader recovers every payload and every name up to its first NUL |
| Ustar.RoundTrip | crates/ori-compiler/src/bundler.rs:305-313 | the reader recovers the entries exactly if and only if no name holds a NUL |
| Ustar.Aligned | crates/ori-compiler/src/bundler.rs:443-448 | every entry and the archive are whole 512-byte blocks |
| Ustar.HeaderDamageDetected | crates/ori-compiler/src/bundler.rs:428-440 | the reader rejects a header in which one byte outside the checksum field was changed |
| Bundler.ValidateDest | crates/ori-compiler/src/bundler.rs:358-382 | accepts exactly nonempty short names with no leading slash, no drive prefix and no `..` between separators |
| Bundler.DotDotClimbs | crates/ori-compiler/src/bundler.rs:372-376 | a `..` segment is split off exactly when `..` stands between separators or ends |
| Bundler.Collect | crates/ori-compiler/src/bundler.rs:257-283 | accepts exactly artefact lists whose destinations are valid and distinct; otherwise the error is the first offender's |
| Bundler.Bundle | crates/ori-compiler/src/bundler.rs:239-339 | the full meaning of a run: which error for which input, or the archive of the planned files in destination order and its report |
| BundleLaws.BundleReadsBack | crates/ori-compiler/src/bundler.rs:254-339 | a successful bundle reads back to its sorted entries, names exactly when NUL-free; it is block-aligned and its report is true |
| BundleLaws.PlanMeans | crates/ori-compiler/src/bundler.rs:254-283 | an accepted input is planned as it says: every artefact under its destination, the manifest under its own name, nothing else |
| BundleLaws.BundleHoldsEverything | crates/ori-compiler/src/bundler.rs:239-339 | a bundle read back holds the manifest and every artefact, each with the contents of its source |
| BundleLaws.TotalIsSum | crates/ori-compiler/src/bundler.rs:239-339 | the size reported is the sum of the payloads, saturating at 64 bits |
| Order.LessByFirstDifference | crates/ori-compiler/src/bundler.rs:254-257 | the order of names is decided at the first position where they differ |
| BundleLaws.OrderIndependent | crates/ori-compiler/src/bundler.rs:254-257 | permuting the artefacts changes neither success nor a single byte of archive and report |
| BundleLaws.ChecksumDetects | crates/ori-compiler/src/bundler.rs:315-315 | two bundles of one plan whose files differ in one byte of one entry report different checksums |
| BundleLaws.NulNamesCollide | crates/ori-compiler/src/bundler.rs:358-382 | the destination check admits NULs, and two destinations then read back as one |
| BundleLaws.ManifestFirstExactlyWhenLeast | crates/ori-compiler/src/bundler.rs:254-268 | the manifest is the first entry exactly when its name sorts before all others |
| RoutePatterns.ParsePattern | crates/ori-compiler/src/backend_dispatch.rs:68-87 | the loop computes the segments and the trailing-slash flag |
| RoutePatterns.ParseUndoesWrite | crates/ori-compiler/src/backend_dispatch.rs:68-87 | round trip: parsing a written pattern gives its segments and trailing slash back, a piece behind a colon being a parameter |
| RoutePatterns.PathUndoesWrite | crates/ori-compiler/src/backend_dispatch.rs:105-110 | a request path is determined by its nonempty pieces and its trailing slash, and gives them back |
| RoutePatterns.MatchPath | crates/ori-compiler/src/backend_dispatch.rs:105-129 | matches exactly when every literal and the trailing slash agree; binds each parameter name to its last occurrence and nothing else |
| RoutePatterns.MatchesItself | crates/ori-compiler/src/backend_dispatch.rs:68-129 | every stored path matches itself |
| RoutePatterns.OwnPatternIsLeast | crates/ori-compiler/src/backend_dispatch.rs:68-129 | no matching pattern has fewer parameters than the request path read as a pattern |
| RoutePatterns.ComputeShape | crates/ori-compiler/src/backend_dispatch.rs:90-103 | the loop computes the shape |
| RoutePatterns.ShapeDecidesConflict | crates/ori-compiler/src/backend_dispatch.rs:87-103 | two patterns have one shape if and only if, trailing slash aside, they match the same requests |
| RoutePatterns.SameMatchesExactly | crates/ori-compiler/src/backend_dispatch.rs:87-129 | two stored paths match the same request paths if and only if they have one shape and agree on the trailing slash |
| RoutePatterns.ConflictIsAmbiguityExactly | crates/ori-compiler/src/backend_dispatch.rs:87-129 | of two paths of one shape, some request path matches both if and only if both or neither end in a slash, and then all of them do |
| RoutePatterns.TrailingSlashStillConflicts | crates/ori-compiler/src/backend_dispatch.rs:87-129 | the instance `/users` and `/users/`: refused as a conflict, matched together by no request path |
| RouteDispatch.DispatchTable.Insert | crates/ori-compiler/src/backend_dispatch.rs:203-208 | last write wins, the replaced route is returned, the pattern table stays in step |
| RouteDispatch.DispatchTable.InsertRoute | crates/ori-compiler/src/backend_dispatch.rs:228-253 | refused exactly when another path of the method has the same shape, naming the first one and changing nothing |
| RouteDispatch.InsertKeepsUnambiguous | crates/ori-compiler/src/backend_dispatch.rs:226-253 | accepted insertions keep the table free of shape clashes |
| RouteDispatch.PathsAreDistinguishable | crates/ori-compiler/src/backend_dispatch.rs:226-253 | in such a table any two different paths of one method are told apart by some request path, which one matches and the other does not |
| RouteDispatch.DispatchTable.MethodsMatching | crates/ori-compiler/src/backend_dispatch.rs:212-224 | the sorted methods that have a matching route, no more and no fewer |
| RouteDispatch.DispatchTable.FindMatchingRoute | crates/ori-compiler/src/backend_dispatch.rs:550-586 | finds a route exactly when one matches: the exact path, or the first with the fewest parameters |
| RouteDispatch.SelectedIsMostSpecific | crates/ori-compiler/src/backend_dispatch.rs:550-586 | the selected route has the fewest parameters of all matching routes of the method, exact lookups included |
| RouteDispatch.DispatchTable.LenientRedirect | crates/ori-compiler/src/backend_dispatch.rs:525-548 | redirects exactly when the policy is lenient, the path has a trailing slash, and some route matches it without |
| Dispatcher.RunBefore | crates/ori-compiler/src/backend_dispatch.rs:473-485 | answers with the first before-middleware that short-circuits, and with nothing exactly when none does |
| Dispatcher.RunAfter | crates/ori-compiler/src/backend_dispatch.rs:511-521 | the response unwinds through the chain from the last middleware to the first: each after-middleware that short-circuits replaces the response of those behind it, no other changes it |
| Dispatcher.UnwoundUnique | crates/ori-compiler/src/backend_dispatch.rs:511-521 | the chain leaves no choice of responses |
| Dispatcher.Handle | crates/ori-compiler/src/backend_dispatch.rs:486-507 | succeeds exactly when the principal has the rights; otherwise names the first effect not held |
| Dispatcher.Dispatch | crates/ori-compiler/src/backend_dispatch.rs:449-523 | the full meaning of a dispatch: redirect, not found, method not allowed, or the selected route behind its middleware |
| Dispatcher.RedirectsSettle | crates/ori-compiler/src/backend_dispatch.rs:525-548 | a redirect is a 308 to the path without its trailing slashes; following it is not redirected again and is never answered NotFound |
| Dispatcher.NotAllowedIsHonest | crates/ori-compiler/src/backend_dispatch.rs:454-463 | a 405 answer lists at least one method, never the one requested, and only methods that are answered |
| Dispatcher.SuccessNeedsRights | crates/ori-compiler/src/backend_dispatch.rs:449-523 | unless a before-middleware answers first, a routed request succeeds if and only if it is authorised |
| Dispatcher.RightsMeanCapabilities | crates/ori-compiler/src/backend_dispatch.rs:434-436 | for routes marked as the table builder marks them, authorised means a principal holding every effect but transport |
| Regions.RegionMap.Enter | crates/ori-compiler/src/borrow_regions.rs:78-85 | pushes one fresh empty region; every other region is unchanged |
| Regions.RegionMap.Exit | crates/ori-compiler/src/borrow_regions.rs:91-96 | drops exactly the deepest region with its locals and borrows; nothing on an empty stack |
| Regions.RegionMap.DeclareLocal | crates/ori-compiler/src/borrow_regions.rs:101-107 | adds the name to the deepest region only |
| Regions.RegionMap.AddBorrow | crates/ori-compiler/src/borrow_regions.rs:133-143 | appends the borrow to the deepest region only |
| Regions.RegionMap.LiveBorrows | crates/ori-compiler/src/borrow_regions.rs:148-158 | all live borrows, outermost region first, in order of insertion |
| BorrowWalk.FindConflict | crates/ori-compiler/src/borrow.rs:1125-1140 | the mode of the first live borrow of the name that clashes, None exactly when none does |
| BorrowWalk.Walk | crates/ori-compiler/src/borrow.rs:976-1099 | the recursive walker changes the regions and reports diagnostics exactly as the body's borrow events do in order |
| BorrowMeaning.CheckBody | crates/ori-compiler/src/borrow.rs:709-727 | a body check reports B0070 if and only if two borrows of the body clash, and B0080 exactly for borrows in tail position of a name that is local there, both stated on the body alone |
| BorrowMeaning.ConflictsExactly | crates/ori-compiler/src/borrow.rs:976-1099 | B0070 is reported if and only if the body holds two borrows of one name, not both shared, the first before the second and every block or lambda around it also around the second |
| BorrowMeaning.EscapesExactly | crates/ori-compiler/src/borrow.rs:976-1123 | B0080 is reported for a borrow if and only if one stands in tail position inside a block that declared its name by an earlier statement |
| BorrowMeaning.BodyMeant | crates/ori-compiler/src/borrow.rs:976-1099 | the same for any expression walked from any regions: what it reports, what it leaves live, and that it leaves no local behind |
| BorrowListing.TakesListed | crates/ori-compiler/src/borrow.rs:976-1099 | the walk takes each borrow of the body once, in order, with the tail flag of its place, and takes nothing else |
| BorrowPlaces.InForceMeans | crates/ori-compiler/src/borrow.rs:984-1007 | one borrow is live at another exactly when it comes first and its regions are also around the other |
| BorrowPlaces.LocalMeans | crates/ori-compiler/src/borrow.rs:1079-1097 | a name is local at a place exactly when a block around it declares the name by an earlier statement |
| BorrowLaws.FirstClashIsFirst | crates/ori-compiler/src/borrow.rs:1125-1140 | the mode reported is that of the first live borrow of the name that clashes |
| BorrowLaws.NoConflictIffWellAliased | crates/ori-compiler/src/borrow.rs:994-1013 | no B0070 is reported if and only if at every moment of the walk any two live borrows of one name are both shared |
| BorrowLaws.BodyAliasing | crates/ori-compiler/src/borrow.rs:709-727 | the same for every function body |
| BorrowLaws.EscapeIffLocal | crates/ori-compiler/src/borrow.rs:994-1000 | B0080 is reported exactly for a tail-position borrow of a name that is then local |
| BorrowLaws.WalkOnlyAppends | crates/ori-compiler/src/borrow.rs:976-1077 | walking any expression leaves enclosing regions alone and only adds locals and borrows to the deepest |
| BorrowLaws.BlockRestores | crates/ori-compiler/src/borrow.rs:984-993 | a block leaves every region, its locals and its borrows exactly as they were |
| BorrowLaws.LambdaRestores | crates/ori-compiler/src/borrow.rs:1062-1067 | so does a lambda |
| ConstFold.FoldNormal | crates/ori-compiler/src/const_fold.rs:22-110 | folding yields an expression to which no rule applies anywhere |
| ConstFold.NormalFixed | crates/ori-compiler/src/const_fold.rs:22-110 | folding leaves such expressions alone |
| ConstFold.Idempotent | crates/ori-compiler/src/const_fold.rs:15-16 | fold(fold(x)) == fold(x) for every expression |
| ConstFold.NormalIffFolded | crates/ori-compiler/src/const_fold.rs:15-25 | the normal forms are exactly the results of folding |
| FoldSize.SameSizeIffNormal | crates/ori-compiler/src/const_fold.rs:128-228 | folding never enlarges an expression, and keeps its size if and only if it is already normal |
| FoldMeaning.RewriteSound | crates/ori-compiler/src/const_fold.rs:128-228 | each rule keeps value, environment and output of the interpreter at one node, under its condition |
| FoldMeaning.TryErrExactly | crates/ori-compiler/src/const_fold.rs:183-201 | away from the function's result the `Err` rule keeps meaning exactly when its argument never yields a value |
| FoldMeaning.LiteralsAgreeExactly | crates/ori-compiler/src/const_fold.rs:230-247 | folder and interpreter agree on a literal pattern except on a NaN with itself and on the two zeros |
| FoldMeaning.ChosenArmExactly | crates/ori-compiler/src/const_fold.rs:203-228 | away from the function's result, an arm that both pick and that binds nothing may replace its match exactly when its body restores the environment or leaves the function |
| FoldMeaning.LambdaExactly | crates/ori-compiler/src/const_fold.rs:89-92 | a folded lambda is the same value exactly when its body was left alone |
| FoldMeaning.FoldedIsSafe | crates/ori-compiler/src/const_fold.rs:22-110 | folding never leaves the safe fragment: whatever it yields is safe in any position |
| FoldMeaning.FoldPreserves | crates/ori-compiler/src/const_fold.rs:22-110 | folding a safe expression keeps value, environment and output, or the function's outcome where it leaves the function |
| EvalEnv.NoLeak | crates/ori-compiler/src/interp_exec.rs:508-545 | an expression without `let` outside match arms leaves the environment as it was |
| EvalEnv.Weaken | crates/ori-compiler/src/interp_exec.rs:508-545 | an expression that does not mention a name runs alike in environments that differ only there |
| FoldMeaning.ProgramPreserved | crates/ori-compiler/src/interp_exec.rs:289-405 | folding every body of a safe program changes neither its result nor its output, for every entry and all arguments |
| FoldLimits.TryErrMustBeTail | crates/ori-compiler/src/const_fold.rs:191-197 | `Err(1)?` as a statement: the original returns the error, the folded body goes on |
| FoldLimits.BindingArmsMustNotBeChosen | crates/ori-compiler/src/const_fold.rs:218-220 | a chosen binding arm whose body uses the name loses it |
| FoldLimits.ArmsMustNotLeak | crates/ori-compiler/src/const_fold.rs:214-221 | a chosen arm's `let` becomes visible after the match |
| FoldLimits.NanMustNotBeMatched | crates/ori-compiler/src/const_fold.rs:237-247 | NaN is matched by the folder and not by the interpreter |
| FoldLimits.ZerosMustAgree | crates/ori-compiler/src/const_fold.rs:237-247 | a negative zero pattern is matched by the interpreter and not by the folder |
| FoldLimits.CalleesMustBeDirect | crates/ori-compiler/src/interp_exec.rs:635-655 | a callee that only folding makes direct is refused before and called after |
| FoldLimits.LambdaBodiesAreVisible | crates/ori-compiler/src/const_fold.rs:89-92 | folding a lambda body changes the lambda value |

## Left out

- FoldMeaning.ProgramPreserved: one direction; an unsafe program may still keep its result when the changed part is never reached, which depends on arbitrary builtins. At single rules the exact conditions are TryErrExactly, LiteralsAgreeExactly, ChosenArmExactly and LambdaExactly.
- FoldMeaning.FoldPreserves: one direction, for the same reason.
- SchemaEnds.NodeEnds: one direction; `anyOf` stops at its first clean branch, so a walk may also end because a looping branch is never tried. LoopNeverEnds covers the references that are always followed.
- LifetimeSolver.Solve: completeness modulo equalities is not claimed, since the code checks requirements against uncollapsed bounds.
- PoolRuns.ScheduleIndependence: assumes fewer than 2^64 submissions, below which no counter saturates; mutex poisoning, the grace deadline with A0012, and panics while dropping a task are not modelled.
- WorkerPool.StepKeepsInv: task bodies end with a fixed outcome, a value or a panic.
- BorrowWalk.Walk: diagnostics carry target and modes only; message text, fixes and spans are left out.
- Bundler.Bundle: the file system is a map from paths to readable or unreadable contents; writing the output file and creating directories are left out, as is the `kind` echoed by the report.
- X64Programs.BytesSimulateList: registers, memory and flags are an arbitrary state with an arbitrary effect per instruction; only the instruction pointer is interpreted, and `RET` and system calls stand for that effect.
- SchemaValidator.ValidateNode: error texts and the final sort are left out; `$ref` costs fuel because unguarded reference cycles run for ever in the code; loading other documents and pattern matching are arbitrary functions, since the pattern engine works on UTF-8 bytes and strings here are characters.
- SchemaWalk numbers are reals with an integer flag, so rounding of 64-bit floats is not modelled.
- Interp values: error messages are reduced to a code, the name or type concerned, and the active functions; tuple, interpolation and operator expressions fail as they do in the code.
- Dispatcher.Dispatch: headers and bodies are strings, and CORS helpers with their thread-local state are left out.
- RouteDispatch: inferring methods and paths from symbol names (`infer_method`, `infer_path`) and the table linter are single-branch code.
- The signature lints B0010 to B0050, the move checker B0060 and the extraction of lifetimes from strings.
- The hello-world program and the JSON reports of every component.
- Expression printing and parsing.
