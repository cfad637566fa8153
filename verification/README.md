# Karte compiler: verified models

A Dafny model of three parts of the Karte compiler, with proofs about what they compute.

**Escape analysis.** A variable graph with weighted edges in both directions, worklist propagation over the
four-point lattice `NoEscape < ArgEscape < ReturnEscape < GlobalEscape`, the analyzer that builds the graph statement
by statement and keeps two stores of escape state (the information map and the graph's cache), the call graph with its
bottom-up schedule, and the stack frame layout. The graph, the call graph, the analyzer, the strategy selector and the
frame layout are classes over mutable maps and sequences. Each method is tied to a function or predicate on plain
values, and the theorems are about those. `Propagation.IsPropagation` says what a least solution is,
`Spreading.Analyzed` says what the analysis of a function leaves behind, and both are proved to determine the result;
`FunctionResults.Explained` says the same in terms of the function's statements alone, and
`ProgramRuns.IsProgramRun` chains these steps through a whole program.

**The RISC-V runtime and link step.** Memory is an array of bytes; the loops of the emitted allocator, marker and
compactor are loops over it, in 64-bit arithmetic where that matters. An object starts with a header whose byte 0 holds
the mark in bit 0 and whose bytes 4 to 7 hold the total size. Instruction words are modelled as numbers made of bit
fields, and decoded as section 2.3 of the RISC-V Instruction Set Manual, Volume I (Unprivileged ISA) defines; the file
is read back as chapter 5 (Program Header, Program Loading) of the System V gABI describes. The results reach from one
encoder to where a jump lands once the finished file has been loaded (`RiscvExecutable.ExecutableJumpLands`).

**The IR text codec.** A printer that re-indents nested output and a parser that tolerates white space, over integers,
booleans, identifiers, options, vectors, pairs, triples and sorted maps nested to any depth. A printed text is related
to a flat one-line text that differs only in white space, the parser is proved not to see the difference, and the flat
text is read back by structural induction.

Three results say that the code does not do what its callers might expect, with the exact condition under which it
does and an input that shows the failure:

- The codec's own README promises the round trip for `String` and for every `Option<T>`. A string that is not an
  identifier does not survive (`CodecTypes.BlankIsLost`: `"a b"` is read as `"a"`), nor does an optional string that
  starts with `none` (`CodecTypes.NameIsLost`), nor `Some(None)`. `CodecTypes.RoundTripIff` gives exactly the values
  that survive, `CodecTypes.TypeRoundTripsIff` exactly the Rust types all of whose values do, and
  `CodecTypes.LegibleTypeRoundTripsIff` the types that do once all strings are identifiers.
- An allocation whose 64-bit size computation wraps takes the success branch and moves the bump pointer back
  (`GcRuntime.AllocateServesIff`, `GcRuntime.WrappingRequestShrinksHeap`).
- A slot's base address is aligned only if its size is a multiple of its alignment (`FrameLayouts.BaseAlignedIff`);
  the first request for 8 bytes aligned to 16 gets offset -8 (`FrameLayouts.BaseMisaligned`).

## Layout

| files | content |
|---|---|
| Wrappers, Arithmetic, Alignment | optional values and results, quotients, rounding to multiples |
| EscapeTypes, Propagation, VariableGraph | the lattice, what propagation means, the worklist |
| Mir, AnalysisState, Spreading, EscapeAnalyzer | statements and their effect, the two stores, the analyzer |
| Effects, StatementEffects | what the syntax of a statement asks for, and that exactly this is added |
| FunctionEffects, FunctionResults | the same for whole functions, and what it means for their variables |
| Digraph, CallGraph, Calls, ProgramRun | walks and cycles, the call graph, the call relation and the run of a program |
| FrameLayout, AllocationStrategy | frame slots and the choice of a place for a variable |
| Bytes, GcHeap, GcCollect, GcRuntime, GcSafety | memory, tilings, marking, compaction, allocation, runs, what the stack keeps alive |
| BitFields, RiscvEncoding, RuntimeCode | words as bit fields, encoders and decoders, the patched code buffer |
| CodeLayout, LabelAddresses, JumpPatching, Linker | function layout and labels, the two patch passes, the link step |
| ElfImage, RiscvExecutable, TargetAddresses | the ELF file, what loading it does, what its addresses are the addresses of |
| Text, Indentation, Squash | lines and trimming, re-indenting, texts up to white space |
| Numerals, CodecValues, CodecOrder, Codec | numerals, values and types, key order, printer and parser |
| CodecMaps, CodecPrinting | the entries of a parsed map, the lines of a printed list |
| CodecLayout, CodecParsing | printed against flat text, what the parser ignores |
| CodecRoundTrip, CodecTypes | the round trip, and exactly which values and types it holds for |

## Model

| member | source | states |
|---|---|---|
| EscapeTypes.EscapeState.Merge | karte-escape-analysis/src/types.rs:38-50 | Merging is the least upper bound of the lattice. |
| Propagation.TransfersMonotone | karte-escape-analysis/src/graph.rs:320-430 | Both transfer functions are monotone for every edge type and weight. |
| Propagation.TransfersExact | karte-escape-analysis/src/graph.rs:320-430 | A dereference passes nothing on; any other edge passes the state back unchanged. Forward, an address passes it unchanged, and a plain edge as the least state that is not lower and as high as the kind of edge asks for. |
| Propagation.PropagationUnique | karte-escape-analysis/src/graph.rs:243-316 | The least state assignment above the old states and the seed that is closed under all transfers of the start variable's undirected component, with new cache entries only where a state changed, is unique. |
| Propagation.PropagationIgnoresEdgeOrder | karte-escape-analysis/src/graph.rs:243-316 | The result of a propagation depends neither on the order nor on the multiplicity of inserted edges. |
| Propagation.PropagationLocal | karte-escape-analysis/src/graph.rs:243-316 | A propagation lowers no state and leaves every other component untouched. |
| VariableGraphs.IterateKeepsInvariant | karte-escape-analysis/src/graph.rs:257-313 | Every iteration keeps: delivered messages are never lost, visited variables are settled or have their messages queued, states stay below every solution, and `affected` lists exactly the changes so far. |
| VariableGraphs.IterateDescends | karte-escape-analysis/src/graph.rs:257-313 | Each iteration shrinks (unvisited variables, remaining lattice height, queue length), so propagation stops on every graph, cyclic or not. |
| VariableGraphs.DrainedIsPropagation | karte-escape-analysis/src/graph.rs:243-316 | When the queue is empty the cache holds the least solution, and the visited variables are exactly the connected component. |
| VariableGraphs.VariableGraph.AddWeightedEdge | karte-escape-analysis/src/graph.rs:144-182 | The edge enters both directions, both ends' cached states are dropped, and only the target's pointer depth changes: one more than the source's for an address, one less for a dereference. |
| VariableGraphs.VariableGraph.PropagateEscape | karte-escape-analysis/src/graph.rs:243-316 | The worklist computes the least solution, and `affected` is exactly the set of variables whose state changed. |
| AnalysisStates.JoinDominates | karte-escape-analysis/src/analyzer.rs:588-621 | The join of a component is above every mark in it. |
| AnalysisStates.JoinIsLeast | karte-escape-analysis/src/analyzer.rs:588-621 | The join of a component is below every upper bound of its marks. |
| AnalysisStates.MarkKeepsConsistent | karte-escape-analysis/src/analyzer.rs:663-679 | Marking overwrites the cache but merges the information, and keeps cache <= information <= join. |
| AnalysisStates.EdgeKeepsConsistent | karte-escape-analysis/src/graph.rs:144-159 | Inserting an edge drops cache entries and still keeps the two stores consistent. |
| AnalysisStates.StatementFollows | karte-escape-analysis/src/analyzer.rs:201-500 | Every statement keeps the two stores in step, keeps every edge carrying, marks what is stored to the heap, and forgets neither edges nor marks. |
| AnalysisStates.TerminatorFollows | karte-escape-analysis/src/analyzer.rs:502-550 | So does every terminator. |
| AnalysisStates.BlocksFollow | karte-escape-analysis/src/analyzer.rs:179-198 | Building the graph of a whole function keeps the analysis sound. |
| StatementEffects.StatementGains | karte-escape-analysis/src/analyzer.rs:201-500 | Each statement adds exactly the edges, marks, escape points and names that its syntax, the summary of its callee and the state of the assigned object ask for: kind and weight of every edge, state of every mark, and nothing else; different names never share an identifier. |
| StatementEffects.TerminatorGains | karte-escape-analysis/src/analyzer.rs:502-550 | A terminator marks exactly the returned variable, or the referent of a returned reference, as escaping by return, and adds no edge. |
| FunctionEffects.BlocksBuild | karte-escape-analysis/src/analyzer.rs:179-198 | Over a whole function exactly those variables become adjacent between which a statement lets something flow, everything a statement or return lets escape is marked, and every mark is connected to such an escape or to an earlier mark. |
| EscapeAnalyzers.EscapeAnalyzer.MarkEscape | karte-escape-analysis/src/analyzer.rs:663-679 | The information map takes the merged state and the escape point, the cache the given state. |
| EscapeAnalyzers.EscapeAnalyzer.GetOrCreateVarId | karte-escape-analysis/src/analyzer.rs:711-726 | A name keeps its identifier, a new one gets the next; other values get none. |
| EscapeAnalyzers.EscapeAnalyzer.AnalyzeStatementDependencies | karte-escape-analysis/src/analyzer.rs:201-500 | The analyzer's fields gain exactly the edges, marks, escape points and names that the statement's syntax asks for. |
| EscapeAnalyzers.EscapeAnalyzer.AnalyzeTerminatorDependencies | karte-escape-analysis/src/analyzer.rs:502-550 | Returned values escape to the caller, and so do the referents of returned references; nothing else is marked and no edge is added. |
| EscapeAnalyzers.EscapeAnalyzer.BuildVariableGraph | karte-escape-analysis/src/analyzer.rs:179-198 | Blocks, their statements and their terminators are analyzed in order. |
| Spreading.SpreadOneMore | karte-escape-analysis/src/analyzer.rs:588-621 | In any order: once one more recorded state has been propagated, its whole component is at least as high, every state propagated before still is, and nothing exceeds its component's join. |
| Spreading.SpreadUnique | karte-escape-analysis/src/analyzer.rs:588-621 | The outcome does not depend on hash map iteration order or edge order. |
| Spreading.SpreadAgrees | karte-escape-analysis/src/analyzer.rs:588-621 | Afterwards the information map, the graph's cache and the component join agree on every variable. |
| Spreading.SpreadLowersNobody | karte-escape-analysis/src/analyzer.rs:588-621 | No variable's information is lower than before the loop. |
| Spreading.OneStepCanLower | karte-escape-analysis/src/analyzer.rs:588-621 | Within the loop it can be: from a concrete sound state, one propagation drops a variable from global to argument escape. |
| EscapeAnalyzers.EscapeAnalyzer.PropagateEscapeStates | karte-escape-analysis/src/analyzer.rs:588-621 | Walking the snapshot in whatever order gives each variable the join of all marks in its connected component. |
| Spreading.AnalyzedUnique | karte-escape-analysis/src/analyzer.rs:156-176 | The analysis of a function has exactly one possible result. |
| Spreading.StackAllocIff | karte-escape-analysis/src/analyzer.rs:624-660 | A variable is suggested for the stack exactly when nothing in its component was ever marked as escaping. |
| FunctionResults.FunctionExplained | karte-escape-analysis/src/analyzer.rs:156-176 | The result of a function's analysis, told by its statements alone: variables between which something flows share a state, what escapes has at least the state it escapes with, and a variable is put on the stack exactly when no chain of such flows links it to something that escapes now or did before. |
| FunctionResults.LinkedEscapes | karte-escape-analysis/src/analyzer.rs:156-176 | Whatever a chain of assignments, field accesses, operations and summarized calls links to an escaping value escapes as far and is not put on the stack: after `b = a; return b`, neither is `a`. |
| EscapeAnalyzers.EscapeAnalyzer.GenerateAllocationSuggestions | karte-escape-analysis/src/analyzer.rs:624-660 | Every named variable gets information, every suggestion follows from its state. |
| EscapeAnalyzers.EscapeAnalyzer.AnalyzeFunction | karte-escape-analysis/src/analyzer.rs:156-176 | The function's graph is built on the accumulated one and spread; the result is the one its statements explain; every name seen so far has information; edges, marks and names only grow. |
| Digraph.SuccessorsFirstAcyclic | karte-escape-analysis/src/call_graph.rs:103-137 | What is listed after all its successors lies on no cycle and reaches only listed nodes. |
| CallGraphs.CallGraph.AddEdge | karte-escape-analysis/src/call_graph.rs:68-84 | Both edge maps and the node set gain exactly the edge and its ends. |
| CallGraphs.CallGraph.HasCycle | karte-escape-analysis/src/call_graph.rs:103-106 | True exactly when a function reachable from the start lies on a non-empty closed walk; the search stops on every finite graph. |
| CallGraphs.CallGraph.HasCycleUtil | karte-escape-analysis/src/call_graph.rs:109-137 | The depth-first search: functions that left the recursion stack are listed successors first; a function met on the stack closes a cycle. |
| CallGraphs.CallGraph.TopologicalOrder | karte-escape-analysis/src/call_graph.rs:144-156 | Every function exactly once, for every set order; a callee precedes its caller unless it can call back into it. |
| CallGraphs.CallGraph.TopologicalDfs | karte-escape-analysis/src/call_graph.rs:159-190 | One recursive visit keeps the order bottom-up and the finished and unfinished functions apart. |
| CallGraphs.AcyclicOrderIsTopological | karte-escape-analysis/src/call_graph.rs:144-190 | Without recursion every callee precedes its caller. |
| Calls.BuildFromProgram | karte-escape-analysis/src/call_graph.rs:31-60 | The graph built from a program has an edge from a function to exactly the names its call statements call, as a function or as a variable, and every function as a node. |
| Calls.CallMakesEdge | karte-escape-analysis/src/call_graph.rs:237-246 | Every call of a function or variable `n` makes the edge to `n`, the identifier under which the analyzer looks the callee's summary up. |
| Calls.EdgeIsCall | karte-escape-analysis/src/call_graph.rs:31-60 | Every edge comes from such a call in a block of the caller. |
| EscapeAnalyzers.EscapeAnalyzer.ApplySummaries | karte-escape-analysis/src/analyzer.rs:133-153 | At each call with a known summary, exactly the arguments whose parameters escape are marked with the state the summary gives. |
| StatementEffects.SummariesGain | karte-escape-analysis/src/analyzer.rs:925-957 | The marks added are exactly those of the tags: by return, through the heap or unknown (global), through a call (argument), and none for a parameter that does not escape. |
| Mir.SummaryDatabase.InsertedIsFound | karte-escape-analysis/src/function_summary.rs:310-323 | A recorded summary is the one found under its name, also where a built-in one exists; all others stay. |
| EscapeAnalyzers.EscapeAnalyzer.AnalyzeAndSummarize | karte-escape-analysis/src/analyzer.rs:86-111 | One function: the analysis with the summaries so far, a summary under its own name, and its known callees applied, in that order. |
| ProgramRuns.RunFollows | karte-escape-analysis/src/analyzer.rs:66-113 | Through every run the analysis stays sound, edges and marks only grow, and exactly the functions analyzed so far have gained a summary. |
| ProgramRuns.MissingSummaryIsRecursive | karte-escape-analysis/src/analyzer.rs:66-113 | When keys are names, a program callee without a summary can reach its caller. |
| ProgramRuns.AcyclicSummariesReady | karte-escape-analysis/src/analyzer.rs:66-113 | Without recursion every program function called by the one being analyzed has a summary. |
| ProgramRuns.AcyclicCallsFindSummaries | karte-escape-analysis/src/analyzer.rs:66-113 | So without recursion every call statement that names a program function finds its callee's summary. |
| ProgramRuns.RunKeepsFlows | karte-escape-analysis/src/analyzer.rs:66-130 | In the end result of a program, variables between which any of its functions lets something flow share a state, and what any of them lets escape has at least that state. |
| EscapeAnalyzers.EscapeAnalyzer.AnalyzeProgramInterprocedural | karte-escape-analysis/src/analyzer.rs:66-130 | The analyzer's state is led from the old one to the new one by a run of such steps over every program function once, callees first, and a last propagation; every function has left its summary, edges and marks only grew, and both stores hold the component joins. |
| Alignment.AlignDownIsGreatest | karte-escape-analysis/src/allocation_strategy.rs:426-434 | Rounding down gives the greatest multiple not above, for negative offsets too. |
| Alignment.MaskClearsLowBits | karte-escape-analysis/src/allocation_strategy.rs:421-423 | And-ing with the complement of a low mask clears exactly the low bits. |
| Alignment.AlignUpIsLeast | karte-escape-analysis/src/allocation_strategy.rs:421-423 | For powers of two the masked form is the least multiple not below. |
| FrameLayouts.LayOutIsFrame | karte-escape-analysis/src/allocation_strategy.rs:300-325 | For every sequence of requests each slot is as requested and ends at the highest aligned address below the slot before it. |
| FrameLayouts.FrameUnique | karte-escape-analysis/src/allocation_strategy.rs:300-325 | No other slots have that property. |
| FrameLayouts.SlotsDisjoint | karte-escape-analysis/src/allocation_strategy.rs:300-325 | No address belongs to two slots. |
| FrameLayouts.BaseAlignedIff | karte-escape-analysis/src/allocation_strategy.rs:300-325 | A slot's base is aligned exactly when its size is a multiple of its alignment. |
| FrameLayouts.BaseMisaligned | karte-escape-analysis/src/allocation_strategy.rs:300-325 | The first request for 8 bytes aligned to 16 is served at offset -8. |
| FrameLayouts.StackFrameLayout.Allocate | karte-escape-analysis/src/allocation_strategy.rs:300-325 | One slot is appended below the others, the frame's alignment is the maximum seen. |
| FrameLayouts.StackFrameLayout.TotalSize | karte-escape-analysis/src/allocation_strategy.rs:328-331 | The least multiple of 16 that covers all slots; all lie in `[-size, 0)`. |
| AllocationStrategies.AllocationStrategySelector.SelectAllocationStrategy | karte-escape-analysis/src/allocation_strategy.rs:124-208 | A frame slot is taken exactly for variables suggested for the stack; every other strategy leaves the frame alone. |
| AllocationStrategies.StackedIffNothingEscapes | karte-escape-analysis/src/allocation_strategy.rs:124-165 | After the analysis, a variable gets a slot exactly when nothing in its component escapes. |
| GcCollect.FindAndMark | karte-aot/src/runtime_riscv.rs:527-566 | The linear search stops, and marks exactly the object whose data contains the word. |
| GcCollect.MarkFromStack | karte-aot/src/runtime_riscv.rs:502-588 | Scanning the stack words marks exactly the objects they point into. |
| GcCollect.MarkingExact | karte-aot/src/runtime_riscv.rs:502-588 | An object is marked afterwards iff it was marked before or some stack word points into its data; sizes, data and tiling are untouched. |
| GcRuntime.CopyDown | karte-aot/src/runtime_riscv.rs:618-634 | The overlapping byte copy is exact because it copies down and upwards. |
| GcRuntime.Compact | karte-aot/src/runtime_riscv.rs:590-662 | The sliding loop leaves exactly the marked objects' bytes in address order, marks cleared, and no byte outside the heap changed. |
| GcHeap.LaidOutIsTiled | karte-aot/src/runtime_riscv.rs:590-662 | Well-formed object images laid end to end are tiled by exactly these objects. |
| GcRuntime.CollectExact | karte-aot/src/runtime_riscv.rs:482-677 | A collection keeps exactly the objects that were marked or hit from the stack, in order, with only the mark cleared, and resets the counter. |
| GcRuntime.RiscvRuntime.GcCollect | karte-aot/src/runtime_riscv.rs:482-677 | Mark and compact loops together compute that collection; a zero stack pointer skips both. |
| GcSafety.RootedSurvives | karte-aot/src/runtime_riscv.rs:482-677 | An object into whose data an 8-byte stack slot points is still there after a collection, with the same size and contents. |
| GcSafety.OnlyRootedSurvive | karte-aot/src/runtime_riscv.rs:482-677 | Every object after a collection is one of those, or one that was marked before. |
| GcSafety.PayloadSurvives | karte-aot/src/runtime_riscv.rs:365-677 | A payload just allocated keeps its bytes through the next collection if a stack slot holds an address inside it. |
| GcRuntime.AllocateExact | karte-aot/src/runtime_riscv.rs:365-418 | Without wrap-around an allocation either changes nothing or appends exactly one object of the least multiple of 16 bytes, changing only its size word and counting it. |
| GcRuntime.PayloadIsolated | karte-aot/src/runtime_riscv.rs:365-418 | The returned payload lies inside its own object and meets no other. |
| GcRuntime.AllocateServesIff | karte-aot/src/runtime_riscv.rs:365-418 | A successful allocation serves the requested bytes iff its 64-bit arithmetic does not wrap. |
| GcRuntime.WrappingRequestShrinksHeap | karte-aot/src/runtime_riscv.rs:365-418 | A request of 2^64 - 32 bytes succeeds and moves the bump pointer back. |
| GcRuntime.RiscvRuntime.GcAllocAligned | karte-aot/src/runtime_riscv.rs:365-418 | The emitted attempt computes exactly that allocation. |
| GcRuntime.RiscvRuntime.GcSafepoint | karte-aot/src/runtime_riscv.rs:742-782 | While the count is below the threshold, memory, bump pointer and count stay; from the threshold on exactly the survivors are left and the count is zero. |
| GcRuntime.SafepointExact | karte-aot/src/runtime_riscv.rs:742-782 | The same for all 64-bit counts, compared as signed numbers. |
| GcRuntime.ThresholdCollects | karte-aot/src/runtime_riscv.rs:301-782 | From the start on, after any run in which nothing has collected, the next safepoint collects when 256 allocations have succeeded, and changes nothing before. |
| GcRuntime.RunKeepsHeap | karte-aot/src/runtime_riscv.rs:365-782 | After every run of allocations, collections, safepoints and program stores the heap is exactly tiled below the limit by disjoint objects. |
| GcRuntime.RunPayloadIsolated | karte-aot/src/runtime_riscv.rs:365-782 | After every run, a fresh payload is shared with no current object. |
| RiscvEncoding.ITypeImmediate | karte-aot/src/runtime_riscv.rs:88-92 | A load immediate decodes to its offset iff it fits 12 bits. |
| RiscvEncoding.STypeImmediate | karte-aot/src/runtime_riscv.rs:99-105 | The same for the split store immediate. |
| RiscvEncoding.BTypeImmediate | karte-aot/src/runtime_riscv.rs:106-113 | A branch decodes to its offset iff it is even and fits 13 bits. |
| RiscvEncoding.UTypeFields | karte-aot/src/runtime_riscv.rs:114-117 | Upper immediate, register and opcode each come back. |
| RiscvEncoding.JTypeImmediate | karte-aot/src/runtime_riscv.rs:118-123 | A jump decodes to its offset iff it is even and fits 21 bits. |
| RiscvEncoding.PairReachesIff | karte-aot/src/runtime_riscv.rs:200-236 | A patched AUIPC and access reach the distance iff it is not in the top 2048 bytes of the 32-bit range. |
| RuntimeCode.PatchOneExact | karte-aot/src/runtime_riscv.rs:200-236 | One patched pair addresses its global with the same registers, and nothing else changes. |
| RuntimeCode.CodeBuffer.LoadGlobal | karte-aot/src/runtime_riscv.rs:182-188 | AUIPC and LD through the destination register, recorded as a pair. |
| RuntimeCode.CodeBuffer.StoreGlobal | karte-aot/src/runtime_riscv.rs:191-197 | AUIPC and SD through T6, recorded as a pair. |
| RuntimeCode.CodeBuffer.PatchGlobals | karte-aot/src/runtime_riscv.rs:200-236 | After the pass every recorded pair addresses exactly its global, and every other byte and operand is as before. |
| RuntimeCode.CodeBuffer.PatchBType | karte-aot/src/runtime_riscv.rs:436-453 | The word at the position, re-encoded in place. |
| RuntimeCode.WithBranchExact | karte-aot/src/runtime_riscv.rs:436-453 | A patched branch reaches its target iff it is near enough and even; its operands and all other bytes stay. |
| CodeLayout.PaddingEndsIff | karte-aot/src/compiler.rs:891-893 | The padding loop ends iff there is nothing to pad, which is why every function but the last has to be whole instructions; the RISC-V back end emits only 4 and 8 bytes at a time. |
| CodeLayout.FunctionAtOffset | karte-aot/src/compiler.rs:887-898 | Each function's code stands unchanged at its offset. |
| CodeLayout.LabelResolves | karte-aot/src/compiler.rs:970-978 | A label or function name no later function defines again stands for its own place in the code. |
| CodeLayout.RuntimeLabelSurvives | karte-aot/src/compiler.rs:970-978 | Runtime labels survive unless a function takes their name. |
| LabelAddresses.PatchAddressesExact | karte-aot/src/compiler.rs:980-1005 | After the pass every known target's address can be loaded from its 8 bytes; every other byte is unchanged, also at the sites of unknown targets. |
| JumpPatching.PatchJumpsExact | karte-aot/src/compiler.rs:1007-1051 | Every resolved jump or branch leads to its label iff the distance is even, keeps its operands, and all other bytes are unchanged. |
| Linker.CallMainExact | karte-aot/src/compiler.rs:1053-1070 | The start code's call decodes to the address of main iff it is an even distance away. |
| Linker.Link | karte-aot/src/compiler.rs:970-1070 | The link step: labels, label addresses, jumps and the call of main, or the range error; the rows around this one say what the image then holds. |
| Linker.LinksIff | karte-aot/src/compiler.rs:1007-1064 | Linking succeeds exactly when every jump to a known label, and the call of main, can express its distance: 21 bits, or 13 for a branch. |
| TargetAddresses.AddressMeans | karte-aot/src/compiler.rs:980-1005 | A pending address stands for the runtime's global (`__global_heap_base` for `__heap_start`, the limit and the two stack bounds likewise, any other `__global_x` for `__x`), or else for the label's place in the last function that defines it, or else for the runtime's own label; any other target is unknown. |
| TargetAddresses.LinkedTarget | karte-aot/src/compiler.rs:980-1051 | In the linked image the eight bytes of every pending address hold what its target stands for; the jump patches leave them alone. |
| Linker.JumpReachesIff | karte-aot/src/compiler.rs:1007-1051 | In the linked image the word of a jump to a known label is JAL x0 or the compiled branch with its funct3 and registers, and leads to the label iff the distance is even. |
| Linker.JumpLands | karte-aot/src/compiler.rs:1007-1051 | A jump to a label or the name of a function is the compiled jump or branch and lands where that function has it. |
| Linker.RuntimeJumpLands | karte-aot/src/compiler.rs:1007-1051 | A jump to a label of the runtime is the compiled jump or branch and lands there. |
| Linker.MainCalled | karte-aot/src/compiler.rs:1053-1070 | The image's start-up code holds JAL ra to the first byte of main. |
| Linker.LinkedElsewhere | karte-aot/src/compiler.rs:980-1079 | Every byte of the image outside the call word, the known addresses and the resolved jumps is the byte of runtime and compiled functions. |
| ElfImage.NumberOfLittleEndian | karte-aot/src/elf.rs:151-278 | Numbers written little-endian are read back. |
| ElfImage.RoundUpMasks | karte-aot/src/elf.rs:281-283 | Rounding up to pages by division is the writer's masking. |
| ElfImage.CodeHeaderFields | karte-aot/src/elf.rs:151-278 | Entry point and first program header hold what a loader reads: type, permissions, file offset, both addresses, file size, memory size and alignment. |
| ElfImage.FileKind | karte-aot/src/elf.rs:151-278 | The file is identified as 64-bit little-endian ELF, an executable, for machine 62, 183 or 243 by architecture, with headers of 64 and 56 bytes and no sections. |
| ElfImage.CodeLoads | karte-aot/src/elf.rs:151-278 | Every byte of the code segment is loaded at its address. |
| ElfImage.CodeSegmentCongruent | karte-aot/src/elf.rs:151-278 | File offset and address agree modulo the page size. |
| ElfImage.ElfWriter.AppendCode | karte-aot/src/elf.rs:103-107 | Code is appended and its start reported. |
| ElfImage.ElfWriter.Generate | karte-aot/src/elf.rs:151-278 | The padded writing produces exactly that file. |
| RiscvExecutable.CompileRiscv64 | karte-aot/src/compiler.rs:1053-1079 | The executable is the ELF file of the linked image. |
| RiscvExecutable.LoadedImage | karte-aot/src/compiler.rs:1072-1079 | Byte k of runtime and functions is loaded at the code base plus k, and execution starts at byte 0. |
| RiscvExecutable.ExecutableJumpLands | karte-aot/src/compiler.rs:1007-1079 | The four bytes the loader puts at a jump's address are the compiled jump or branch, with its operands, to where the named function has the label. |
| RiscvExecutable.ExecutableCallsMain | karte-aot/src/compiler.rs:1053-1079 | The four bytes loaded at the start-up call are JAL ra to the first byte of main. |
| TargetAddresses.ExecutableTarget | karte-aot/src/compiler.rs:980-1079 | The eight bytes loaded at the place of a pending address hold what its target stands for. |
| RiscvExecutable.ExecutableElsewhere | karte-aot/src/compiler.rs:887-1079 | Every byte no patch writes is loaded as the runtime or the function compiler delivered it. |
| Indentation.NormalizeIndentation | karte-ir-codec/src/display.rs:40-94 | The loops compute the normalized text. |
| Indentation.NormalizeKeepsText | karte-ir-codec/src/display.rs:40-94 | Every line keeps its visible text, and all line breaks stay except those after the last visible line, unbalanced brackets included. |
| Indentation.NormalizeIdempotent | karte-ir-codec/src/display.rs:40-94 | Normalizing twice is normalizing once. |
| Indentation.IndentIsDepth | karte-ir-codec/src/display.rs:40-94 | Unless something is closed that was not opened, a line is indented by four blanks per bracket open around it. |
| Indentation.IndentIsOpen | karte-ir-codec/src/display.rs:40-94 | Whatever the brackets, a line is indented by four blanks for each bracket still open before it, the most that any ending of the text before it opens on balance. |
| Indentation.WriteMultilineSuffix | karte-ir-codec/src/display.rs:23-36 | Each normalized line goes on a line of its own behind the indentation. |
| Squash.MultilineSuffixSquashes | karte-ir-codec/src/display.rs:23-36 | Re-indenting a printed text changes nothing but the amount of white space. |
| Codec.WriteVec | karte-ir-codec/src/display.rs:148-167 | The vector loop writes the vector's text. |
| Codec.WriteMap | karte-ir-codec/src/collections.rs:22-42 | The map loop writes the map's text. |
| CodecPrinting.PrintedLines | karte-ir-codec/src/display.rs:23-167 | The exact lines of a printed list or map: the bracket, per item four blanks and its key, then its normalized lines behind eight blanks with a comma between items, and the closing bracket behind four blanks. |
| Codec.Identifier | karte-ir-codec/src/parse.rs:57-94 | The index loop reads the longest identifier. |
| CodecOrder.CollectAscends | karte-ir-codec/src/collections.rs:75-78 | Whatever entries were parsed, the collected map is strictly ascending and well typed. |
| CodecMaps.SameKey | karte-ir-codec/src/collections.rs:75-78 | Within a type, values compare equal only to themselves, so a map's keys are those of the text. |
| CodecMaps.KeysAscend | karte-ir-codec/src/collections.rs:75-78 | Keys ascend: integers by size, names alphabetically. |
| CodecMaps.CollectSurvivors | karte-ir-codec/src/collections.rs:75-78 | A collected map has exactly the parsed entries that no later entry under the same key replaces: no key is lost, each has its last value. |
| CodecMaps.ParsedMapHolds | karte-ir-codec/src/collections.rs:45-78 | Whatever text was accepted as a map, the map holds the entries between its brackets in that sense. |
| CodecMaps.MapTextReads | karte-ir-codec/src/collections.rs:45-78 | A map written with its entries in any order, keys repeated or not, is read with every key and its last value. |
| CodecOrder.CollectKeepsAscending | karte-ir-codec/src/collections.rs:75-78 | Entries already in order are collected as they stand. |
| CodecLayout.PrintLaysOut | karte-ir-codec/src/display.rs:97-167 | At any depth of nesting a printed value is its flat text up to white space, starting and ending visibly. |
| CodecParsing.ParseAlike | karte-ir-codec/src/parse.rs:46-263 | Texts that differ in the amount of white space only are read as the same value, with rests that differ in white space only. |
| CodecParsing.ParseCuts | karte-ir-codec/src/parse.rs:46-263 | Every parser leaves a suffix of its input and never cuts inside white space. |
| CodecRoundTrip.ParseSound | karte-ir-codec/src/parse.rs:177-263 | Everything the parser returns is well typed and representable. |
| CodecRoundTrip.FlatRoundTrip | karte-ir-codec/src/parse.rs:97-263 | Every representable value is read back from its flat text, whatever follows that cannot extend its last token. |
| CodecRoundTrip.CanonicalRoundTrip | karte-ir-codec/src/collections.rs:17-78 | A representable value, printed, is read back exactly, and only its own text (and white space after a closing bracket) is consumed. |
| CodecRoundTrip.ParsedComesBack | karte-ir-codec/src/parse.rs:177-263 | Whatever text was accepted, the value read from it survives printing and reading. |
| CodecTypes.TypedIffLegible | karte-ir-codec/src/parse.rs:57-94 | The values the round trip covers are exactly the values of the Rust type all of whose strings are identifiers. |
| CodecTypes.RoundTripIff | karte-ir-codec/src/parse.rs:177-241 | Printing and parsing undo each other iff the value belongs to the type, all its strings are identifiers, and no option in it holds a payload whose text starts with `none`; any other value is never returned for any text. |
| CodecTypes.TypeRoundTripsIff | karte-ir-codec/src/parse.rs:177-263 | All values of a Rust type survive iff no string occurs in it and no option in it holds an option. |
| CodecTypes.LegibleTypeRoundTripsIff | karte-ir-codec/src/parse.rs:177-263 | Among values whose strings are identifiers, all of a type survive iff no option in it holds an option or a string. |
| CodecTypes.BlankIsLost | karte-ir-codec/src/parse.rs:177-186 | The string `a b` is read as `a`, with a blank and `b` left over. |
| CodecTypes.NameIsLost | karte-ir-codec/src/parse.rs:232-241 | The optional name `nonempty` is read as nothing, followed by `mpty`. |

## Left out

- EscapeAnalyzers.EscapeAnalyzer.GenerateFunctionSummary: which summary is generated is not modelled; every claim
  holds for any summary that is recorded under the function's own name.
- EscapeAnalyzers.EscapeAnalyzer.AnalyzeStatementDependencies: the hash that distinguishes field names is a parameter;
  the closure arm, which the assignment arm above it shadows, is not modelled.
- GcRuntime.RiscvRuntime.GcAllocAligned: one attempt of the allocator; the overflow branch passes a zero stack pointer
  to the collector, which then returns at once, and no claim is made that the retry ends. That the size word keeps
  earlier mark bits in byte 0 is kept, so the marking result speaks of objects that were marked before.
- CodeLayout.LayoutFunctions: requires all functions but the last to be a whole number of instructions, because the
  padding loop does not stop otherwise; the back end never delivers anything else.
- FrameLayouts.StackFrameLayout.Allocate: requires a positive alignment and an offset that fits a signed 64-bit word;
  the source panics on the first and overflows on the second.
- Or-ing the fields of an instruction word is modelled as adding them, since they do not overlap.
- Roots are not rewritten after compaction and objects are not traced through, so nothing is claimed about pointers
  that the program keeps.
- The variable graph's own cycle search is the same algorithm as the call graph's.
- Sorting the function names before layout, the aliases under which the runtime offers its functions, and the absolute
  call of the collector are not part of the link model; functions arrive in the order in which they are laid out, and
  the runtime with its offsets and labels.
- The RISC-V `li` sequences, the unused `patch_jtype`, and the x86 and AArch64 runtimes and link paths.
- Loading the data segment; the RISC-V path writes none.
- Hash map printing order, `u8`, `Box`, the derive macros, error positions, and the trace logging of the parser.
  Characters are single code points and the classification of letters and digits is a parameter that agrees with ASCII.
- Source spans, lifetime constraints, statistics, and the shorthand edge constructors of the variable graph.
- `ParameterTag::merge`, HIR unification, and the escape point transformer.
