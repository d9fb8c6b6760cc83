# Verified model of cargo-instrument and otel-shim

cargo-instrument rewrites Rust source while Cargo builds it, so that functions open OpenTelemetry
spans. otel-shim is the small runtime the rewritten code calls. This project models the logic of
both in Dafny and proves what their documentation and comments promise. `dafny verify
dfyconfig.toml` checks everything.

## What is modelled

**The runtime shim.** `Shim` has the per-thread span stack, the re-entrancy flag and the wrapping
handle counter as class `ThreadShim`, whose methods are proved against recursive functions that
share the exporter: ending a span runs an arbitrary finite tree of instrumented calls, raw shim
calls, panics and `catch_unwind`. `ShimThreads` interleaves the atomic steps of any number of
threads, and `ShimRefinement` shows that what one thread does in the first is a run of the second.

**What emitted code means.** `Trampoline` is a small imperative language (calls, early return,
`Result`, panics, destructors, `catch_unwind`, suppressed scopes, loops) with an operational
semantics that also runs the constructs the C-ABI emitter adds; `UserCode` is what a program means
before it is rewritten, without shim or SDK. `AsyncRuntime` is a state machine
of threads polling, suspending, finishing, unwinding and dropping futures of the native emitter;
`BareRuntime` is the executor without instrumentation and what instrumentation adds to it,
`TaskPropagation` has the exact condition under which dispatch contexts propagate, and
`MovedFuture` is one concrete run that breaks it.

**The splice planner.** `Bytes` and `Unicode` (UTF-8, what it encodes, white space), `Sorting` (stable sort), `Splicer` (one-pass splicing),
`Planner` (the greedy scan, spawn wrappers, sort and validation as loops proved against
functions), `GreedyScan`, `PlanSafety`, `SecondPass` and `SpawnBrackets` (laws of whole plans),
`SpawnSites` (recognizing and wrapping spawn calls on syntax), `Emitters` (the emitted text).

**The syntax visitor.** `Visitor` has the two visitors as classes over a syntax tree,
`VisitorDecisions` says which functions become candidates and what each skip counter counts,
`TypeNames` has the normalization of printed types and `TypeSpaces` which spaces it keeps,
`VisitorLaws` the accounting and nesting laws, and the two theorems that carry them over to the
planner.

**Graph planning.** `Reachability`, `Session` (roots, breadth-first search, shim safety and the
OpenTelemetry package of each dependency), `LinkSafety` (artifact lookup, choice of emitter, shim
gate), `Linking` (when the gate means that code links) and `DependencyPolicy` (what a
dependency-only build leaves alone).

**Artifact orchestration.** `Stamps` (marker file names), `Artifacts` (reading Cargo's messages,
certification by stamps, registering libraries), `Invalidation` (cleaning by name, exact by id),
`Acquisition` (the pre-pass and its outcomes) and `KeptStamps` (what happens to packages that are
kept).

## Main results

1. An instrumented program ends exactly as the original does, which is what the program means without
   shim and SDK, and leaves the span stack as found, for every program, input and fuel, provided that no export panics while a late SDK panic is
   already unwinding; each such case breaks it (`DoublePanicBreaksPreservation`).
2. Over all interleavings, instrumented futures and calls run as they would without instrumentation,
   there is one span for each instrumented call, all work runs under its own context, and every poll
   restores the thread's. The span of every future that ended is in error exactly when its one ending
   event returned an Err, and has the one outcome that event calls for exactly when it is guarded.
3. Spans opened in a dispatched task descend from the context current at dispatch. This holds along
   a run exactly when every started future that is resumed inside a task has its span below what
   that task was dispatched under (`PropagationExactly`, an if and only if over all runs).
4. Planning and applying a plan never fail; bytes move by the inserted text, deleting the
   insertions restores the source, UTF-8 stays valid. The one failure of the whole transformation is
   the slice at byte 4096 in the line-ending detection, and the condition for it is exact.
5. A second pass over the output skips every moved candidate and changes nothing, whatever line
   ending it detects, unless the slice at byte 4096 fails: transforming twice gives the same as once
   exactly when byte 4096 of the output starts a character or the output is shorter; for every emitter
   with prefixes of at most 4093 bytes there is a source for which it does not.
6. The visitor accounts for every function: candidates plus skip counters plus functions in
   signatures of skipped functions equal the independent count plus the functions of out-of-line
   test modules. Which functions are candidates and which counter counts the others is stated by
   their place, flags and trait. Candidates never overlap and spawn wrappers always balance.
7. What a unit becomes is decided exactly by the dependency graph, the unit and the registered
   libraries: a dependency gets trampolines exactly when it may be rewritten, has no usable library,
   some target root reaches the shim and so does every root that reaches a package of its crate name;
   native code has one OpenTelemetry version on which all roots agree. That is not linking. A package with trampolines
   fails to link exactly when an artifact links it that the gate misses: a root that reaches the shim
   only over dev edges not linked into it, a shim-less root if the library is not named after its
   package, or a proc-macro or build script without the shim (`GateFailsExactly`, one input for each).
8. Invalidation by name is exact by id. After a successful acquisition every package to be rewritten
   (and no other) has been invalidated or was fresh and certified when the pre-pass ended; on the disk
   that is left it still is exactly when no invalidated name is a prefix of its crate name. These are
   the packages the wrapper looks at, up to telemetry packages spelled with a dash.

## Model

| member | source | states |
|---|---|---|
| Shim.ReentrantCodeIsInert | otel-shim/src/lib.rs:52-70 | whatever code an export runs, while the shim is active all its enters return 0, nothing changes, and it unwinds exactly when the code itself panics |
| Shim.ExitEffect | otel-shim/src/lib.rs:228-263 | an exit pops the top entry, restores its saved context and finishes its span exactly when its handle is on top; otherwise nothing happens, whatever the export does |
| Shim.EnterEffect | otel-shim/src/lib.rs:134-219 | the complete effect of an enter: declined, panicked early, panicked after attaching, or one pushed entry with a nonzero handle |
| Shim.EnterAbortsIff | otel-shim/src/lib.rs:143-219 | a swallowed enter panic aborts the process exactly when it comes after the attach and the export it triggers panics too |
| Shim.EnterExitIsNeutral | otel-shim/src/lib.rs:134-263 | entering and exiting with the handle obtained restores stack, context and flag and finishes exactly one span with the right parent |
| Shim.SetErrorEffect | otel-shim/src/lib.rs:275-302 | set_error changes only the status of the topmost entry with that handle |
| Shim.ThreadShim.constructor | otel-shim/src/lib.rs:25-40 | a fresh thread has an empty stack and a clear flag |
| Shim.ThreadShim.Acquire | otel-shim/src/lib.rs:52-64 | the guard is obtained exactly when the flag was clear, and live guards never exceed one |
| Shim.ThreadShim.Release | otel-shim/src/lib.rs:66-70 | dropping the guard clears the flag |
| Shim.ThreadShim.Enter | otel-shim/src/lib.rs:134-219 | the imperative enter computes the specified handle and state |
| Shim.ThreadShim.Exit | otel-shim/src/lib.rs:228-263 | the imperative exit, with the drop outside the borrow, computes the specified state |
| Shim.ThreadShim.SetError | otel-shim/src/lib.rs:275-302 | the reverse search and status update compute the specified state |
| Shim.ThreadShim.RunCode | otel-shim/src/lib.rs:249-262 | user code calling back through the imperative entry points has the specified result |
| ShimThreads.RunKeepsInv | otel-shim/src/lib.rs:207-216 | every run with at most 2^64 - 1 tickets keeps flags, program points, stacks and the ticket log consistent |
| ShimThreads.HandlesAreUnique | otel-shim/src/lib.rs:207-216 | over all interleavings issued handles are nonzero and globally unique, stacks are strictly increasing, a handle is live in one place |
| ShimThreads.OnlyMatchingExitsPop | otel-shim/src/lib.rs:252-260 | a stack shrinks only by its own thread's exit on a top match, by one slot |
| ShimThreads.StepsAreInPlace | otel-shim/src/lib.rs:134-302 | a thread is changed only by its own steps, each only where its program has it |
| ShimThreads.ExportsAreAlone | otel-shim/src/lib.rs:249-262 | while a thread exports a span, only the end of the export changes its state |
| ShimThreads.SetErrorIsExact | otel-shim/src/lib.rs:294-300 | set_error marks exactly the live span its handle names on the calling thread, or nothing |
| ShimThreads.ForeignHandlesAreInert | otel-shim/src/lib.rs:252-300 | handles used on another thread change nothing there or here |
| ShimRefinement.EnterShows | otel-shim/src/lib.rs:134-219 | an enter is a refused begin, a begin and a failure, or a begin, one or two ticket draws and a push |
| ShimRefinement.ExitShows | otel-shim/src/lib.rs:228-263 | an exit, whatever it exports, is the pop and the end of the export |
| ShimRefinement.MarkShows | otel-shim/src/lib.rs:275-302 | marking an error is one step on the same entry |
| ShimRefinement.CodeIsRun | otel-shim/src/lib.rs:134-302 | whatever instrumented code does on a thread is a run of the interleaved model, with the same stack, flag, counter and handles |
| Trampoline.InstrumentationPreservesMeaning | cargo-instrument/src/transform.rs:913-1077 | same value, Err, unwind, abort or divergence, same memory and output; stack, context and flag as found; exactly the spans the calls call for |
| Trampoline.DoublePanicBreaksPreservation | otel-shim/src/lib.rs:143-219 | the condition on the SDK is exact: every violation gives a program whose rewritten form aborts although the original returns |
| UserCode.UserCodeMeans | cargo-instrument/src/transform.rs:936-1071 | code that is not rewritten has the meaning given without shim and SDK, and touches neither |
| UserCode.RewrittenMeansTheSame | cargo-instrument/src/transform.rs:913-1077 | the rewritten program ends as the program means: same value, Err, unwind, abort or divergence, calls, memory and output, for every SDK without double panics |
| Trampoline.ClosureForm | cargo-instrument/src/transform.rs:977-978 | the closure form returns the body's value, marks an Err, and lets unwinds through |
| Trampoline.LeaveEffect | cargo-instrument/src/transform.rs:953-963 | dropping the guard turns the state after the body into the state predicted for the call |
| Trampoline.OneSpanPerCall | cargo-instrument/src/transform.rs:913-1077 | one finished span per call whose enter was not suppressed, SDK panics before the span starts apart |
| Trampoline.ParentsAreNearest | otel-shim/src/lib.rs:199-206 | every span's parent is the nearest enclosing span, and span ids never repeat |
| Trampoline.SpansNameCalls | cargo-instrument/src/transform.rs:1063-1073 | with a working SDK the finished spans name the calls, one per call in order of ending, and are in error exactly when a closure-wrapped body returned Err |
| AsyncRuntime.RunKeepsInv | cargo-instrument/src/transform.rs:735-861 | saved contexts, running futures, spans and outcomes stay consistent over every run |
| AsyncRuntime.NoSpanBeforeFirstPoll | docs/implementation/async-context-propagation.md:7-9 | a future that was never polled has no span |
| AsyncRuntime.ExactlyOneOutcome | docs/implementation/async-context-propagation.md:13-25 | exactly one event ends a polled future, guarded or not, and its span has ended with what that event calls for: in error exactly for a returned Err, with one outcome exactly with a guard |
| BareRuntime.InstrumentationIsInvisible | cargo-instrument/src/transform.rs:735-861 | along every run, calls, panics and the stages of futures are those of the executor without instrumentation |
| BareRuntime.StepOpensSpans | docs/implementation/async-context-propagation.md:7-9 | an event opens a span exactly when the program starts an instrumented call, below the context current on its thread |
| BareRuntime.SpansAreCalls | docs/implementation/async-context-propagation.md:7-9 | there is one span for each sync call and each first poll of an async function, over every run |
| BareRuntime.WorkRunsUnderOwn | docs/implementation/async-context-propagation.md:9-11 | a task's poll runs under the context captured at dispatch, every poll of a future under its one span, a sync call under a span of its own, and the innermost call's context is current |
| BareRuntime.RecordsFromEvents | cargo-instrument/src/transform.rs:825-861 | guard and Result are as the creating event says, the error and the outcome as the ending event says |
| AsyncRuntime.PanicDepthIsPanics | cargo-instrument/src/transform.rs:742-744 | "panicking" is read off the history: panics raised on the thread and not yet caught |
| AsyncRuntime.PollsRestoreContext | docs/implementation/async-context-propagation.md:9-11 | between two moments with the same frames a thread's current context is the same, so each poll restores it |
| AsyncRuntime.TaskSpansLeaveToDispatch | cargo-instrument/src/transform.rs:370-392 | going up from any span of a dispatched future's work, the first context outside it is the one captured at dispatch |
| AsyncRuntime.DispatchContextIsNearest | cargo-instrument/src/transform.rs:370-392 | when started futures stay in their task, the dispatch context is the first one above the spans opened there |
| TaskPropagation.DispatchContextIsAncestor | cargo-instrument/src/transform.rs:370-392 | if every resumption meets the guard, spans opened in a dispatched future have the dispatch context as a proper ancestor, however polls migrate between threads |
| TaskPropagation.BrokenGuardEscapes | cargo-instrument/src/transform.rs:370-392 | in any consistent world, after a resumption that breaks the guard the next instrumented call opens a span outside the dispatch context |
| TaskPropagation.PropagationExactly | cargo-instrument/src/transform.rs:370-392 | along every run, propagation holds after every prefix and next call exactly when all resumptions meet the guard |
| TaskPropagation.StayingHomePropagates | cargo-instrument/src/transform.rs:370-392 | runs in which started futures stay in their task meet the guard |
| MovedFuture.MovedFuturesEscape | cargo-instrument/src/transform.rs:370-392 | a concrete run in which a started future resumed inside another dispatch opens a span outside that dispatch's context |
| Splicer.Apply | cargo-instrument/src/transform.rs:420-456 | the splicing loop computes the specified output or the first error |
| Splicer.InsertionsApply | cargo-instrument/src/transform.rs:420-456 | sorted insertions at boundaries cannot fail; the output has the source and all texts |
| Splicer.BytesLandShifted | cargo-instrument/src/transform.rs:409-419 | source byte p lands at p plus the length of all insertions at or before p |
| Splicer.OutputFrom | cargo-instrument/src/transform.rs:420-456 | from source offset q on, the output is what the later insertions make of the rest |
| Splicer.EraseUndoesSplice | cargo-instrument/src/transform.rs:409-419 | deleting the insertions restores the source exactly |
| Splicer.SpliceKeepsUtf8 | cargo-instrument/src/transform.rs:433-447 | splicing well-formed text at boundaries gives well-formed text |
| Unicode.Utf8Means | cargo-instrument/src/transform.rs:433-447 | well-formed bytes are exactly the encodings of sequences of Unicode characters |
| Unicode.BoundariesSplit | cargo-instrument/src/transform.rs:250-266 | in well-formed text the character boundaries are exactly the places that leave well-formed text on both sides |
| Unicode.SpaceMeans | cargo-instrument/src/transform.rs:474-474 | the white space trimmed before the anchor is exactly the encoding of the White_Space characters |
| Unicode.WhiteMeans | cargo-instrument/src/ast.rs:769-769 | the same characters are trimmed from printed types |
| Planner.Build | cargo-instrument/src/transform.rs:201-407 | the loops, the sort and the window check compute the specified plan, and fail exactly when two sorted edits overlap |
| Planner.DecideOne | cargo-instrument/src/transform.rs:227-365 | the checks on one candidate, in order, give the specified decision |
| Planner.BodyStartsWithAnchor | cargo-instrument/src/transform.rs:468-481 | detects exactly whitespace, the anchor prefix and a later comment end |
| Planner.CandidateOrder | cargo-instrument/src/transform.rs:210-217 | the candidate key order is total and transitive |
| Sorting.SortIsStable | cargo-instrument/src/transform.rs:394-395 | equal elements keep their order |
| Sorting.SortedPermutationsAgree | cargo-instrument/src/transform.rs:210-217 | sorted permutations agree when the order separates the elements |
| GreedyScan.AcceptedIffHealthy | cargo-instrument/src/transform.rs:224-367 | a candidate is accepted exactly when it is healthy and starts after the last accepted body |
| GreedyScan.RecordsAreTrue | cargo-instrument/src/transform.rs:227-345 | every skip record's reason is true of the candidate it stands for |
| GreedyScan.AcceptedAreDisjoint | cargo-instrument/src/transform.rs:268-367 | accepted bodies are healthy, disjoint and in order, and the edits are exactly theirs |
| GreedyScan.EveryCandidateDecidedOnce | cargo-instrument/src/transform.rs:210-368 | accepted and skipped candidates partition the input, with matching records |
| GreedyScan.OverlapSkipsAreReal | cargo-instrument/src/transform.rs:268-281 | each overlap skip names an accepted body that intersects the skipped one |
| GreedyScan.DisjointBodiesNeverOverlap | cargo-instrument/src/transform.rs:268-281 | disjoint candidate bodies are never skipped for overlap |
| GreedyScan.OrderDoesNotMatter | cargo-instrument/src/transform.rs:210-217 | the whole plan is the same for every order of the candidates when the key determines the candidate |
| PlanSafety.EditsAreInsertions | cargo-instrument/src/transform.rs:317-395 | every plan is a sorted list of insertions at character boundaries |
| PlanSafety.PlanningNeverFails | cargo-instrument/src/transform.rs:394-456 | the window check never fires and applying the plan succeeds |
| PlanSafety.PlansOnlyInsert | cargo-instrument/src/transform.rs:409-419 | length, position map and exact erasure for whole plans |
| PlanSafety.PlansKeepUtf8 | cargo-instrument/src/transform.rs:420-456 | valid UTF-8 stays valid |
| PlanSafety.AnchorScanNeverPanics | cargo-instrument/src/transform.rs:468-473 | the slice after an opening brace is at a boundary; the insertion-point check can only fail for a two-byte body's suffix |
| PlanSafety.Transform | cargo-instrument/src/transform.rs:514-528 | building and applying succeeds exactly when byte 4096 starts a character or the source is short; the emitter gets the line ending most lines of the sample have |
| PlanSafety.LineEndingMeans | cargo-instrument/src/transform.rs:115-127 | the detection answers carriage return and line feed exactly when, within 4096 bytes, more line feeds follow a carriage return than do not |
| PlanSafety.UnixFilesGetLf | cargo-instrument/src/transform.rs:115-127 | a source without a carriage return gets line feeds |
| PlanSafety.WindowsFilesGetCrlf | cargo-instrument/src/transform.rs:115-127 | a source whose sampled lines all end with both gets both |
| PlanSafety.LineEndingDetectionCanPanic | cargo-instrument/src/transform.rs:115-120 | a valid source on which the detection slices inside a character |
| SecondPass.AnchoredTextAnchorsEveryBody | cargo-instrument/src/transform.rs:936-939 | every emitter with that shape opens bodies with whitespace and a closed anchor comment |
| SecondPass.AnchoredBodyIsRecognized | cargo-instrument/src/transform.rs:468-481 | whatever follows, a body that opens that way is recognized |
| SecondPass.RecognizedExactly | cargo-instrument/src/transform.rs:468-481 | a body is recognized exactly when white space, the anchor prefix and later a comment end follow its brace |
| SecondPass.PrefixComesFirst | cargo-instrument/src/transform.rs:317-395 | at its offset a prefix precedes every other insertion, spawn wrappers included |
| SecondPass.MovedEndIsBoundary | cargo-instrument/src/transform.rs:250-266 | the moved end of a body is a character boundary of the output |
| SecondPass.SecondPassIsIdentity | cargo-instrument/src/transform.rs:297-305 | planning again over moved accepted candidates, with any emitter and line ending, skips every one and changes nothing; as already instrumented, if the emitter handles async |
| SecondPass.TransformTwice | cargo-instrument/src/transform.rs:206-206 | transforming the output again succeeds exactly when it is short or its byte 4096 starts a character, and then returns it unchanged, whatever line ending it detects |
| SecondPass.SecondPassCanPanic | cargo-instrument/src/transform.rs:115-120 | for every emitter whose prefix has at most 4093 bytes: a valid source that is transformed but whose output is not |
| Emitters.DirectMeetsLaws | cargo-instrument/src/transform.rs:735-876 | an anchor line followed by any proper code meets the three laws: bodies open with the anchor, no bare spawn wrappers, well-formed text; this is the shape of the sentinel, the native emitter and the trampolines without metadata |
| Emitters.SentinelMeetsLaws | cargo-instrument/src/transform.rs:99-112 | the sentinel meets the three laws |
| Emitters.ReplaceKeepsHead | cargo-instrument/src/transform.rs:1033-1049 | a replacement leaves text alone in which its pattern cannot start |
| Emitters.ReplaceKeepsUtf8 | cargo-instrument/src/transform.rs:1033-1049 | replacing an ASCII pattern keeps text well-formed |
| Emitters.ReplacedOpens | cargo-instrument/src/transform.rs:1022-1052 | after the five metadata replacements the anchor line is still in front and its comment closed |
| Emitters.UpgradedMeetsLaws | cargo-instrument/src/transform.rs:1022-1052 | with the replacements all three laws still hold, whatever the scope, file and line put in |
| SpawnBrackets.PairsAreRanges | cargo-instrument/src/transform.rs:370-395 | matching the remaining brackets with a stack gives exactly the ranges still to close |
| SpawnBrackets.SpawnArgumentsMatch | cargo-instrument/src/transform.rs:370-404 | for nested or disjoint arguments the sorted wrappers balance and pair up to exactly the wrapped ranges, body edits included |
| SpawnSites.NothingLeftToWrap | cargo-instrument/src/ast.rs:1155-1217 | after wrapping, no call is recognized as a spawn site, however calls nest |
| SpawnSites.RecognizedMeans | cargo-instrument/src/ast.rs:1177-1195 | the recognized calls: tokio::spawn or tokio::task::spawn of one argument that is not wrapped, in a file that does not bind tokio |
| SpawnSites.CallsBecome | cargo-instrument/src/transform.rs:370-392 | a recognized call's argument runs in the context current there, other calls keep their arguments |
| SpawnSites.WrappingIsDoneOnce | cargo-instrument/src/ast.rs:1165-1217 | wrapping is idempotent and leaves files that bind tokio alone |
| TypeNames.NormalizeTypeStr | cargo-instrument/src/ast.rs:768-786 | the loop terminates and reaches the fixed point |
| TypeNames.PassShortens | cargo-instrument/src/ast.rs:773-783 | a pass that changes the string shortens it; one that does not proves that no pattern occurs |
| TypeNames.NormalForm | cargo-instrument/src/ast.rs:762-786 | no pattern is left, the non-whitespace characters are kept in order, normalizing again changes nothing |
| TypeSpaces.NormalExcludes | cargo-instrument/src/ast.rs:773-783 | no space is left at a path separator, inside an angle bracket's edge, before an opening one or before a comma |
| TypeSpaces.NormalKeepsGaps | cargo-instrument/src/ast.rs:764-767 | white space that belongs, as around `as` or after a comma, is kept, and none is added |
| Visitor.NameOf | cargo-instrument/src/ast.rs:1114-1133 | a function's span name is its identifier; a method's is in normal form, without stray spaces, and reads as its type, trait and identifier |
| Visitor.NamesTellMethodsApart | cargo-instrument/src/ast.rs:1114-1133 | within one impl, different identifiers give different span names |
| Visitor.FnCounter.Visit | cargo-instrument/src/ast.rs:661-684 | the counter adds the number of functions in the syntax |
| Visitor.CandidateFinder.Visit | cargo-instrument/src/ast.rs:892-1163 | candidates, spawn sites and skip counters grow by exactly the specified findings, and the context is restored |
| Visitor.CandidateFinder.VisitNode | cargo-instrument/src/ast.rs:901-1163 | the same for one item or expression |
| Visitor.CandidateFinder.CountTests | cargo-instrument/src/ast.rs:927-934 | a test module adds its function count to the test counter |
| Visitor.CandidateFinder.VisitSkipped | cargo-instrument/src/ast.rs:892-899 | a skipped function counts once and only its body is visited |
| Visitor.CandidateFinder.VisitCandidate | cargo-instrument/src/ast.rs:1006-1025 | a candidate is recorded first, then everything in it is visited as nested |
| VisitorDecisions.Analyze | cargo-instrument/src/ast.rs:945-1163 | candidates are exactly the functions in no function and no test module without any of the seven flags that are neither adapter methods nor `drop`, and each skip counter counts exactly the functions its reason is first for |
| VisitorDecisions.DecisionMeans | cargo-instrument/src/ast.rs:1044-1104 | the skip decision in terms of flags, trait and name, including the order of the reasons |
| VisitorLaws.BooksBalance | cargo-instrument/src/ast.rs:662-684 | the exact accounting identity between the visitor and the counter |
| VisitorLaws.EveryFunctionOnce | cargo-instrument/src/ast.rs:678-684 | candidates plus skip counters equal the function count when functions occur only as items or inside bodies and test modules are inline |
| VisitorLaws.SignaturesAreMissed | cargo-instrument/src/ast.rs:892-899 | a function in the signature of a skipped function breaks the equality |
| VisitorLaws.FindingsTidy | cargo-instrument/src/ast.rs:1020-1025 | candidate bodies are disjoint and spawn arguments nested or disjoint, for properly nested spans |
| VisitorLaws.AnalyzedFilesNeverOverlap | cargo-instrument/src/transform.rs:268-281 | the planner reports no overlap on analyzer output |
| VisitorLaws.AnalyzedSpawnsMatch | cargo-instrument/src/transform.rs:370-404 | the spawn wrappers of an analyzed file balance around exactly its spawn arguments that lie in the source, and run each in the context current there |
| Session.InternalDependencies | cargo-instrument/src/session.rs:1391-1403 | the members another member depends on over a normal edge |
| Session.TargetRoots | cargo-instrument/src/session.rs:1405-1454 | the roots, with both fallbacks and the scoping |
| Session.MembersAreCovered | cargo-instrument/src/session.rs:1405-1435 | every member not there for proc-macros only is reached from a default root |
| Session.LeftOutServesProcMacros | cargo-instrument/src/session.rs:1391-1435 | a member there for proc-macros only is needed by one, directly or through other members |
| Session.ReachableFrom | cargo-instrument/src/session.rs:1464-1487 | the search terminates on any graph and finds exactly what the root reaches over normal or dev edges to non-proc-macros |
| Session.SearchRoots | cargo-instrument/src/session.rs:1456-1510 | provider flag, shim-unsafe names and reachable packages mean what they say |
| Session.AgreedOtel | cargo-instrument/src/session.rs:1512-1549 | a dependency is mapped to o exactly when every root reaching it reaches o and no other OpenTelemetry package |
| Session.PlanSession | cargo-instrument/src/session.rs:1240-1628 | the whole plan is described exactly by reachability from the roots, with the shim and OpenTelemetry named |
| Session.TargetStepMeans | cargo-instrument/src/session.rs:1474-1483 | exactly normal and dev edges to packages that are no proc-macros are followed |
| Session.BuildEdgesAreNotFollowed | cargo-instrument/src/session.rs:1474-1478 | edges that are for build scripts alone are not |
| LinkSafety.ShimUnsafeExactly | cargo-instrument/src/session.rs:254-257 | a name is safe exactly when every root reaching a package of that name reaches the shim; both spellings agree |
| LinkSafety.TrampolinesReachShim | cargo-instrument/src/wrapper.rs:326-372 | when a non-application crate gets trampolines, some root reaches the shim, and so does every root that reaches a package of its crate name |
| LinkSafety.SkippedMeans | cargo-instrument/src/wrapper.rs:143-166 | which units are not looked at, in terms of the graph: host-only by name or by directory, excluded by the dependency-only policy, telemetry and tool crates, registry crates without opt-in |
| LinkSafety.TrampolinesExactly | cargo-instrument/src/wrapper.rs:143-372 | a dependency without native artifact gets trampolines exactly when it is not left alone, not declined, and the shim gate is open for its crate name |
| LinkSafety.NativeCodeHasOneVersion | cargo-instrument/src/session.rs:813-886 | native code uses the only registered build of the package all roots agree on, present, with tracing, matching the active extern |
| LinkSafety.FewerRootsAreSafer | cargo-instrument/src/session.rs:1456-1549 | fewer roots add no shim-unsafe name and never change or drop the mapping of a package still reached |
| LinkSafety.WrapUnit | cargo-instrument/src/wrapper.rs:118-391 | from metadata to emission: for applications and dependencies, when exactly a unit gets native code (with or without lifecycle), trampolines, the sentinel or nothing, and which library is added as extern |
| LinkSafety.FoundMeans | cargo-instrument/src/session.rs:813-886 | the lookup finds exactly the usable library: the one registered build of the agreed package, present, with tracing, and the one rustc was told about if any |
| LinkSafety.RewritableMeans | cargo-instrument/src/wrapper.rs:143-254 | left alone or declined, spelled out by graph, flags and names |
| Linking.LinkedIsReached | cargo-instrument/src/session.rs:1464-1487 | what a root links it also reaches |
| Linking.TrampolinesLinkExactly | cargo-instrument/src/wrapper.rs:346-372 | a crate of a package with trampolines fails to link exactly when the gate misses an artifact that links the package: a root that only reaches the shim, a shim-less root when the package is named otherwise, a host artifact without the shim |
| Linking.LinkedShimSuffices | cargo-instrument/src/wrapper.rs:346-372 | a crate named after its package links if every root that reaches the shim links it and every host artifact that links the package does |
| Linking.GateFailsExactly | cargo-instrument/src/wrapper.rs:143-372 | the gate lets a library through that does not link exactly when the library is looked at, the gate is open for its name, and an artifact is missed |
| Linking.DevOnlyShimIsNotLinked | cargo-instrument/src/session.rs:1474-1478 | a binary whose library uses the shim only in its tests: the library gets trampolines and does not link |
| Linking.RenamedLibraryIsMissed | cargo-instrument/src/session.rs:1498-1505 | two binaries share a package whose library has another name, one without the shim: no root only reaches the shim, yet the library gets trampolines and does not link |
| Linking.HostArtifactIsMissed | cargo-instrument/tests/graph_topology_tests.rs:341-355 | a binary with the shim shares a library with a proc-macro: the library gets trampolines and does not link into the proc-macro |
| DependencyPolicy.WrapperPolicy.SeedList | cargo-instrument/src/session.rs:172-179 | the seeds are the packages named opentelemetry..., otel-shim and tokio |
| DependencyPolicy.WrapperPolicy.Configure | cargo-instrument/src/session.rs:170-191 | excluded is exactly the workspace and everything reached over edges of any kind from a package named opentelemetry..., otel-shim or tokio |
| DependencyPolicy.ExcludedIsClosed | cargo-instrument/src/session.rs:169-191 | dependencies of packages excluded for telemetry or the executor are excluded too |
| Stamps.LibraryStampsAgree | cargo-instrument/src/main.rs:917-931 | for lib artifacts the reader derives the name the wrapper writes, for every extra file name |
| Stamps.DirectStampsAgree | cargo-instrument/src/main.rs:917-931 | without the prefix they agree exactly unless the extra file name lacks its dash and the artifact looks like a library |
| Stamps.DashlessExtraIsMisread | cargo-instrument/src/main.rs:920-925 | a concrete misread artifact |
| Stamps.StampsAreInjective | cargo-instrument/src/unit.rs:48-68 | a stamp name determines the normalized crate name and the hash |
| Stamps.MirrorsAreDistinct | cargo-instrument/src/unit.rs:37-46 | units with different rustc names or hashes have different mirror directories |
| Stamps.StampNameMeans | cargo-instrument/src/unit.rs:48-68 | the literal stamp name, and that there is one exactly for an alphanumeric hash or none |
| Stamps.RemovedMeans | cargo-instrument/src/main.rs:1124-1143 | the literal names that are swept |
| Stamps.RemovalIsByNamePrefix | cargo-instrument/src/main.rs:1124-1143 | removal hits exactly the stamps of crates whose crate name extends the package's name |
| Artifacts.FreshlyCompiled | cargo-instrument/src/main.rs:670-690 | the recompiled ids, or an error exactly on an unreadable message |
| Artifacts.IsCertified | cargo-instrument/src/main.rs:846-909 | a message is certified exactly when some file counts and all stamps vouch for all counted files |
| Artifacts.CertifiedMeans | cargo-instrument/src/main.rs:846-909 | that is: each existing file that can have a stamp has it in the deps directory, and no stamp is older than any of them by more than a second |
| Artifacts.UninstrumentedFresh | cargo-instrument/src/main.rs:820-912 | the wanted ids with a fresh message that no stamp certifies |
| Artifacts.Registry.Add | cargo-instrument/src/session.rs:269-402 | fails without change when some message spoils the reading; succeeds exactly when all libraries exist and keys stay distinct, and then holds exactly what the messages register |
| Artifacts.ReadMeans | cargo-instrument/src/session.rs:300-376 | which message registers which library, and which makes the reading fail |
| Artifacts.Registry.Push | cargo-instrument/src/session.rs:380-401 | adds libraries one by one until one is missing or its key is taken |
| Artifacts.RegisteredIsNeverAmbiguous | cargo-instrument/src/session.rs:882-886 | registered libraries never make the lookup ambiguous |
| Invalidation.CountsAreExact | cargo-instrument/src/main.rs:1084-1095 | equal counts mean that the ids with the name are precisely the requested ones |
| Invalidation.PermittedIsExact | cargo-instrument/src/main.rs:1037-1095 | a permitted clean by names hits exactly the requested ids |
| Invalidation.PermittedSparesRetained | cargo-instrument/src/main.rs:1074-1082 | nothing retained is requested, for unique ids |
| Invalidation.PermittedMeans | cargo-instrument/src/main.rs:1037-1095 | for unique ids the checks say exactly: known, no shared name with a retained package, and all packages of each name requested |
| Invalidation.Check | cargo-instrument/src/main.rs:1050-1095 | the checks pass exactly when permitted, and report a true reason |
| Invalidation.CleanAll | cargo-instrument/src/main.rs:1098-1122 | chunks of 50 cover every name, and it succeeds exactly when the commands for all chunks do |
| Invalidation.TargetDir.CargoClean | cargo-instrument/src/main.rs:1102-1122 | cleaning by names removes every package with one of them |
| Invalidation.TargetDir.RemoveStamps | cargo-instrument/src/main.rs:1124-1143 | the sweep deletes exactly the matching marker files in both profiles |
| Invalidation.Invalidate | cargo-instrument/src/main.rs:1007-1145 | success cleans exactly the requested ids; a refusal touches nothing |
| Acquisition.RetainedClosure | cargo-instrument/src/main.rs:966-1005 | exactly what the registered libraries are built from |
| Acquisition.DirtyExactly | cargo-instrument/src/main.rs:602-609 | recompiled and uncertified packages together are those needing a rebuild |
| Acquisition.LibrariesSurvive | cargo-instrument/src/main.rs:626-637 | selective invalidation leaves retained libraries in place |
| Acquisition.Orchestrator.Capture | cargo-instrument/src/main.rs:512-544 | what a complete pre-pass registers, and the shim metadata format |
| Acquisition.ShimIsV2Means | cargo-instrument/src/main.rs:512-530 | the newer entry point is used exactly when otel-shim was built and each of its builds has the feature |
| Acquisition.Orchestrator.Acquire | cargo-instrument/src/main.rs:447-667 | on success exactly packages to be rewritten were invalidated, each unless it was fresh and certified, and nothing else was cleaned; Available means no overlap, all libraries present and exactly the dirty packages, their files and the matching stamps gone; an overlap gives up all of them; Tier2Only means no native record; falling back is never caused by the invalidation |
| Acquisition.DesiredMeans | cargo-instrument/src/main.rs:933-963 | the desired packages are the reachable ones that are neither excluded nor telemetry, local or opted in |
| Acquisition.WrapperAgrees | cargo-instrument/src/wrapper.rs:143-166 | they are those whose library the wrapper looks at, except packages named opentelemetry-... and cargo_instrument |
| KeptStamps.CertificationIsKept | cargo-instrument/src/main.rs:852-909 | after an invalidation a certified artifact of another package stays certified exactly when no invalidated name is a prefix of its crate name |
| KeptStamps.SettledIsKept | cargo-instrument/src/main.rs:1124-1143 | a package that needed no rebuild is dirty afterwards exactly when one of its crate names extends an invalidated name |
| Acquisition.Orchestrator.TakeTier2 | cargo-instrument/src/main.rs:557-575 | a fallback invalidates the given packages retaining nothing |

## Where the code decides

- The Tokio records are cleared only when the pre-pass failed or its output was incomplete. After an
  overlap with the retained closure they stay, although the outcome is Tier2Only as well.
- Malformed candidates are skipped and planning goes on, as the planner's comments say, but the
  line-ending detection runs before that and can panic. `PlanSafety.Transform` has the exact condition.
- The function counter enters signatures, the visitor does not enter those of skipped functions, so
  a function inside one (for instance in an array length) is counted on one side only.
  `VisitorLaws.BooksBalance` has the exact difference.
- Marker files are removed by name prefix, so invalidating `foo` also removes the stamps of
  `foo_bar`. `KeptStamps.SettledIsKept` says when a kept package loses its certification that way; it
  is then dirty, so the next successful acquisition invalidates it.
- The shim gate follows dev edges of every package, while Cargo links them only into tests of the
  package that declares them; it compares crate names with package names, which differ for a renamed
  library target; and it looks at target roots, while host units of a shared library are compiled with
  the same decision. Module `Linking` has the exact condition per package and an input for each.
- The host-only check by directory looks at every manifest directory above a source, not the nearest.
- Transforming the output detects the line ending again. The bodies are recognized with either one,
  but the slice can panic where it did not before. `SecondPass.TransformTwice` has the exact condition.
- The orchestrator tells telemetry packages by package name, the wrapper by crate name. A package named
  `opentelemetry-...` is therefore desired, and invalidated, although its crate is never rewritten,
  unless the dependency-only policy excludes it. `Acquisition.WrapperAgrees` has the exact difference.
- A future of the application that was started elsewhere and is resumed inside a dispatched task
  keeps its own context. Module `TaskPropagation` has the exact condition.

## Left out

- Trampoline.InstrumentationPreservesMeaning: the language has no references or lifetimes, so the emitter's rule for functions that return borrowed data is the flag `wraps`; borrow checking of the emitted closure is not modelled.
- AsyncRuntime.PollsRestoreContext: executors are the interleaving itself; wakers and fairness are not modelled.
- ShimThreads.HandlesAreUnique: stops before the counter wraps; after 2^64 tickets handles can repeat.
- Shim.EnterEffect: null, empty-length and non-UTF-8 name pointers and unknown span kinds are one case, an empty name; attributes and scope are not modelled.
- SecondPass.TransformTwice: takes the second pass's candidates as accepted ones at their new offsets and no spawn sites; that the analyzer finds just these would need a Rust parser.
- Emitters.DirectMeetsLaws: the code after the anchor is a parameter; the emitters' own texts are not transcribed.
- SpawnSites.WrappingIsDoneOnce: on syntax; that the two inserted texts parse to the wrapped call is not shown.
- Visitor.CandidateFinder.Visit: self-recursion, handwritten telemetry, inline and test attributes are flags of a function, not derived from its tokens; colliding symbol detection is not modelled.
- VisitorLaws.FindingsTidy: requires spans that nest as a parser produces them.
- Session.PlanSession: plans from metadata without a resolve graph, the Tokio package map, manifest directories and fingerprints are not modelled; packages are identified directly instead of by longest manifest directory.
- LinkSafety.NativeCodeHasOneVersion: target triple and profile are one build key; deriving them from rustc arguments is not modelled.
- Artifacts.Registry.Add: package versions are only checked for presence; Tokio and OpenTelemetry registration share one model.
- Invalidation.Invalidate: a failing clean may have removed some of its packages; marker files under profiles other than debug and release are kept, as in the code.
- Acquisition.Orchestrator.Acquire: fault-injection switches and command-line flags are left out.
- Running Cargo and rustc, parsing JSON and Rust, environment variables and file contents: inputs or abstract sets of files.
- What the emitted text means to rustc beyond the constructs of `Trampoline` and `AsyncRuntime`; quoting of scope and file names is taken as given.
- Linking.TrampolinesLinkExactly: linking is the graph of normal edges and an artifact's own dev or build edges; which host artifacts a build makes is an input, optional features and target-specific dependencies are as resolved.
- LinkSafety.WrapUnit: a unit is described by what the wrapper finds out about it; failures to mirror its sources, which leave it unmodified, are not modelled.
- The nightly HIR driver, rustc argument classification, `find_best_manifest_dir`, source mirroring, dep-info remapping, command-line help, benchmarks and evidence scripts.
- The asynchronous C-ABI entry points of the shim, which are stubs in the code.
