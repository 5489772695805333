# Alkali: a verified model of the compiler's hard parts

Alkali compiles event handlers for SmartNICs. This project models, in Dafny, the algorithms of the
compiler and of its generated code whose correctness is not evident from reading them, and proves
what they keep, preserve or compute. `dafny verify dfyconfig.toml` checks everything; no file
assumes anything.

## What is modelled

**Cutting a handler into pipeline stages** (`FlowNetwork`, `BalancedCut`, `HandlerGraph`,
`StageSearch`). A handler becomes a flow network of operations, values and block entries and exits,
with infinite back edges for dependencies. The cutter runs max-flow, takes the residual-reachable
vertices as the source stage, and pins vertices until the weights are balanced. The max-flow solver
is any function that returns a flow whose residual graph does not reach the sink (such a solver is
proved to exist), the balance test is any three-way decision, and both may change from round to
round, so every result holds for every flow, shuffle and balance outcome.

**Transformations that keep the meaning of programs.** `SsaGen` and `SsaGenerator`: generation of
SSA from assignments, field updates and nested `if`/`else`. `FieldSegments`, `DeadField`,
`FieldUsage`, `DeadFieldPass` and `SymbolicBits`: splitting extracted structs into their used
fields. `BufferReuse`: cursor buffers turned into fixed offsets in one shared buffer. `Predicates` and `Guards`: branches turned into
predicates, and the guards of operations lifted into the entry block, down to the comparison in the
emitted circuit.

**The generated transport.** `ReceiveWindow`: the receive-window handler over unbounded runs in
32-bit arithmetic (sections 3.4 and 3.10.7.4 of RFC 9293). `Dispatch`: packets dispatched by key to
replicas with private tables, under every interleaving.

**Graphs and parsing.** `Components`, `Revisits` and `HandlerOrder`: connected components, how often
the search visits a handler, and the order of the handlers in them. `ExprParser`: the
precedence-climbing parser. `Memcpy`: the decomposition of copies.

Code that updates state step by step is modelled by methods with loops and by classes, each proved
against a function or a direct specification; the theorems are about those.

## Where the code does not do what one would expect

The model follows the code. These properties fail, and the named members state exactly when they
hold, or show the failure.

- `=` decides between a field update and a plain assignment by what defines the left-hand value. A
  variable that holds a bare field access is updated as if it were that struct
  (`SsaGen.AssignPreservesIff`, `SsaGen.ReassignedFieldCopyIsLost`). The translation is right after
  every statement exactly when the program text has no such assignment (`SsaGen.FaithfulIff`).
- Dead-field elimination drops every emit whose bits are not already in the target buffer and not
  in a written piece (`DeadField.PatchIsWrite`, `DeadField.RewriteAgrees`); a copy to another
  buffer is lost (`DeadFieldPass.CopyIsLost`). Which blocks it is right for, whatever the buffers
  hold and whatever is computed, a run on symbols decides (`SymbolicBits.AgreesIffBlockKept`).
- A block other than the entry without predecessors gets predicate one
  (`Predicates.ConversionIsRightIff`).
- The walk that folds predicates does not end on some unreachable blocks
  (`Guards.UnreachableLoopIsEndless`): exactly on those from which it comes back to a block
  (`Guards.EndlessIff`). From reachable blocks it ends (`Guards.ReachedWalkEnds`).
- A block that the entry reaches without any condition gets a guard without conditions, for which
  no circuit exists (`Guards.PlainBranchHasNoCircuit`); a guard works exactly when the walk passes
  between 1 and 31 conditional branches (`Guards.GuardFor`).
- A handler may be collected twice as a start of the order (`Components.DiamondCollectsTwice`), and
  then the order repeats it (`HandlerOrder.SortComponent`). The search visits every handler once
  exactly when the component is a tree (`Revisits.VisitedOnceIffTree`), and collects every start
  once exactly when each is offered to the queue by one turn only (`Revisits.CollectedOnceIff`).
- The pipeliner stops on an assertion when a handler has dead code, a value that only sink markers
  take, a table that is not local, or a cycle, and on no others (`HandlerGraph.PipelineHandler`).
- The replicated transport's handler has no order check and takes bytes that are not in the segment
  when there is a gap and room (`ReceiveWindow.UncheckedStaysInSegmentIff`).
- In-place buffers clobber headers that are extracted after too many emits
  (`BufferReuse.InplaceIsSafeIff`).
- The packet cursor advances by the size of a copy only when the copy starts at offset zero
  (`Memcpy.AdvanceIff`), and the slow path may stop short, or stop the compiler on a context read
  (`Memcpy.SlowPathTruncates`). A loop runs to its end exactly when a member starts at every stop
  (`Memcpy.EndingIff`), which decides from the layouts, the size and the offset when the whole copy
  is made (`Memcpy.DecomposeMemcpy`).
- Asked for fewer than two stages, the stage search does not end while cuts succeed
  (`StageSearch.SingleStageNeverEnds`, `StageSearch.EndsIff`).
- Positions in the cutter count from the end of the topological order, so the vertex pinned to the
  source is the last eligible one, where the comment speaks of the first (lines 450-453 of
  `lib/ep2/PipelineHandlerPass.cpp`; `BalancedCut.PinIsExtreme`).

## Model

| member | source | states |
|---|---|---|
| `FlowNetwork.WeakDuality` | lib/ep2/PipelineHandlerPass.cpp:341-343 | no flow carries more than the capacity of any source/sink cut |
| `FlowNetwork.MaxFlowMinCut` | lib/ep2/PipelineHandlerPass.cpp:341-375 | the residual-reachable set of any flow the solver may return is a cut whose capacity equals the flow, and no cut is cheaper, whatever circulates through back edges |
| `FlowNetwork.AugmentOrClose` | lib/ep2/PipelineHandlerPass.cpp:341-375 | searching a flow's residual graph either closes without the sink or yields a flow with one unit more |
| `FlowNetwork.MaxFlowExists` | lib/ep2/PipelineHandlerPass.cpp:341-341 | every valid network has a flow that meets the solver's contract, with a cut at whose edges it is full |
| `BalancedCut.DepthFirstVisit` | lib/ep2/PipelineHandlerPass.cpp:370-375 | the visited set is the least one with the start that is closed under the arcs |
| `BalancedCut.ResidualArcs` | lib/ep2/PipelineHandlerPass.cpp:359-361 | closure under the kept arcs is closure in the residual graph |
| `BalancedCut.SourceStage` | lib/ep2/PipelineHandlerPass.cpp:363-375 | the weighted vertices are exactly the residual-reachable ones, and form a cheapest cut |
| `BalancedCut.InfinitePaths` | lib/ep2/PipelineHandlerPass.cpp:421-443 | both path marks are exactly what unsaturated infinite edges reach: closed under them, and least |
| `BalancedCut.TopologicalSort` | lib/ep2/PipelineHandlerPass.cpp:334-339 | positions are distinct and decrease along every edge, or no ranking of the base graph exists |
| `BalancedCut.ChoosePin` | lib/ep2/PipelineHandlerPass.cpp:454-505 | the chosen vertex is an eligible end of a cut edge with extreme position, and nothing is chosen only when no edge is eligible |
| `BalancedCut.EligibleIff` | lib/ep2/PipelineHandlerPass.cpp:454-505 | a cut edge may be used for a pin iff the end that would move is not the terminal, is not barred by an infinite path, and has exactly one edge out |
| `BalancedCut.PinIsExtreme` | lib/ep2/PipelineHandlerPass.cpp:450-505 | base edges lead from the head pinned to the source to no other eligible head, and from no other eligible tail to the tail pinned to the sink |
| `BalancedCut.Collapse` | lib/ep2/PipelineHandlerPass.cpp:474-486 | exactly the edges inside the part and the pinned edge become infinite, nothing is lowered |
| `BalancedCut.ViolatesConstraint` | lib/ep2/PipelineHandlerPass.cpp:398-412 | the scan finds a violated constraint iff there is one, and then some constraint has no infinite false edge behind it |
| `BalancedCut.RaisedCut` | lib/ep2/PipelineHandlerPass.cpp:474-519 | pinning never makes a cut cheaper and keeps the price of cuts that cross nothing infinite |
| `BalancedCut.PinningShrinks` | lib/ep2/PipelineHandlerPass.cpp:486-519 | a new pin lowers the number of unpinned vertices |
| `BalancedCut.CrossingIsUnpinned` | lib/ep2/PipelineHandlerPass.cpp:454-505 | an edge across a finite cut was not pinned before |
| `BalancedCut.SourcePinStaysFinite` | lib/ep2/PipelineHandlerPass.cpp:454-486 | pinning to the source a vertex without infinite path to the sink leaves a cut that no infinite edge crosses |
| `BalancedCut.SinkPinStaysFinite` | lib/ep2/PipelineHandlerPass.cpp:487-519 | the same for pinning to the sink a vertex that no infinite path from the source reaches |
| `BalancedCut.SolverExists` | lib/ep2/PipelineHandlerPass.cpp:341-341 | one solver meets both the contract and the demand that a finite flow fills no infinite edge |
| `BalancedCut.CutRound` | lib/ep2/PipelineHandlerPass.cpp:238-531 | the round judges the stage that its flow leaves reachable by the weights in it; a balanced stage is the result, one that is too small is pinned to the source at the extreme eligible head, one that is too large to the sink at the extreme eligible tail, and the side of the cut is collapsed; every other end has its reason (for the two path errors: no edge of the cut may be used); with a solver that fills no infinite edge, the pin leaves a cut that no infinite edge crosses |
| `BalancedCut.RunBalancedMinCut` | lib/ep2/PipelineHandlerPass.cpp:213-533 | the whole run: every round starts from the network that the one before left and pins as its verdict asks, and the last has the reason for the outcome, so a success was judged balanced; it ends within 2n+1 rounds for n vertices; a success is a finite cut, cheapest in the pinned network; pinning never makes the flow infinite, so that error comes in the first round only (for a solver that fills no infinite edge, with finite capacities that add up below infinity); a cycle is reported iff the base graph has one; the not-pipelineable exit is dead when infinite false edges back the constraints |
| `BalancedCut.CheapestAmongPinned` | lib/ep2/PipelineHandlerPass.cpp:520-530 | a successful cut costs no more, in the original network, than any cut that respects the pins |
| `HandlerGraph.AddBlocks` | lib/ep2/PipelineHandlerPass.cpp:565-586 | block entries and exits become vertices, tied to the source and the sink where control enters and leaves, and the source feeds every handler argument |
| `HandlerGraph.AddPredecessors` | lib/ep2/PipelineHandlerPass.cpp:588-599 | the terminator of each predecessor feeds every argument of the block at infinite weight, and the block's entry depends on the predecessor's exit |
| `HandlerGraph.AddOp` | lib/ep2/PipelineHandlerPass.cpp:601-671 | an operation gets all its edges, false edges and constraints; it fails iff a table is not a local result |
| `HandlerGraph.BuildGraph` | lib/ep2/PipelineHandlerPass.cpp:543-722 | a finished graph holds, for every operation, block and argument, all the edges its dependencies ask for, and only edges of the allowed shapes; it is finished iff all tables are local, every operation is live and every value that travels reaches a user other than a sink marker |
| `HandlerGraph.ClosedIffNoDeadCode` | lib/ep2/PipelineHandlerPass.cpp:673-722 | once all operations are added, every edge ends in a vertex iff the handler has no dead code |
| `HandlerGraph.EdgesAreExact` | lib/ep2/PipelineHandlerPass.cpp:565-671 | once all operations are added, the graph has an edge exactly where arguments, results, operands, terminators and returns of the handler ask for one |
| `HandlerGraph.NeededIsInSourceStage` | lib/ep2/PipelineHandlerPass.cpp:601-667 | across a finite cut, what a source-stage operation needs is in the source stage |
| `HandlerGraph.StagesAreOrdered` | lib/ep2/PipelineHandlerPass.cpp:588-667 | the same through any chain of data and control dependencies |
| `HandlerGraph.TablesAreNotSplit` | lib/ep2/PipelineHandlerPass.cpp:603-620 | a table import and every access to it are in one stage |
| `HandlerGraph.ReturnsAreInSinkStage` | lib/ep2/PipelineHandlerPass.cpp:632-634 | operations that emit events are in the last stage |
| `HandlerGraph.CrossingsArePaid` | lib/ep2/PipelineHandlerPass.cpp:579-628 | an edge across the cut is a used result or a handler argument at its type's transmit cost, or a unit edge to an operation without operands |
| `HandlerGraph.CutIsPriced` | lib/ep2/PipelineHandlerPass.cpp:579-628 | the capacity of a finite cut, in any order of the edges, is the sum of the weights of the separated pairs, and false edges add nothing |
| `HandlerGraph.CostOfLeaves` | lib/ep2/PipelineHandlerPass.cpp:831-856 | sending a value costs one and the bits of its leaves, however its structs are nested: 128 for each buffer, 64 for each table and context, 32 for each atom, and the widths of the integers |
| `HandlerGraph.StageWeighs` | lib/ep2/PipelineHandlerPass.cpp:822-829 | the weights given to the balance test add up to the number of vertices in the stage and 99 more for every table import in it |
| `HandlerGraph.ReadIsSent` | lib/ep2/PipelineHandlerPass.cpp:794-810 | a result that a sink-stage operation takes is defined in the sink stage or sent to it |
| `HandlerGraph.OrderedIsAcyclic` | lib/ep2/PipelineHandlerPass.cpp:334-339 | a handler whose definitions and predecessors come earlier asks for no cycle of edges |
| `HandlerGraph.CutHandler` | lib/ep2/PipelineHandlerPass.cpp:724-734 | attempts follow each other, each a whole run of the cutter on the handler's graph and weights, until one succeeds or finds a cycle, a hundred at most; the last gives the result; a success is a finite cut that crosses only priced pairs, with the lowest price of all cuts that respect the pins; the result is never "not pipelineable", and "not a DAG" iff the handler's edges have a cycle |
| `HandlerGraph.CodeTellsReason` | lib/ep2/PipelineHandlerPass.cpp:68-76 | of a failed attempt, code 1 says that no cut of its last network is finite, 2 that its last stage was too small and no vertex could be pinned, 3 that it was too large and none could, and the reverse |
| `HandlerGraph.PipelineHandler` | lib/ep2/PipelineHandlerPass.cpp:535-812 | a split is sound (ordered stages, whole tables, returns last), its parts are exactly those outside the balanced best cut of the last attempt; it fails only after all hundred attempts did, and the code tells why the last one did; it aborts iff the handler cannot be built or its edges have a cycle |
| `HandlerGraph.WalkStages` | lib/ep2/PipelineHandlerPass.cpp:794-810 | the sink operations and values are exactly those outside the source set |
| `StageSearch.StepSearch` | lib/ep2/PipelineHandlerPass.cpp:881-930 | a step expands every stage that is not done, and changes nothing iff all are |
| `StageSearch.StepFacts` | lib/ep2/PipelineHandlerPass.cpp:859-930 | a step keeps the stages that can still be reached, exactly when no cut fails, and uses up work |
| `StageSearch.OneHalfStays` | lib/ep2/PipelineHandlerPass.cpp:859-873 | a cut settles the source half when it is light, otherwise the sink half: that half is a stage of every later state; the other has one cut less to make and is finished only when that leaves one stage |
| `StageSearch.FailedCutStays` | lib/ep2/PipelineHandlerPass.cpp:881-930 | a stage that could not be cut is a stage of every later state |
| `StageSearch.KCut` | lib/ep2/PipelineHandlerPass.cpp:954-959 | the search ends, whichever cuts succeed, in the state after some number of steps, with all stages done and no more than the cut counts allow |
| `StageSearch.KCutHandler` | lib/ep2/PipelineHandlerPass.cpp:941-959 | for k >= 2 there are at most k stages, and exactly k when no cut fails |
| `StageSearch.SingleStageNeverEnds` | lib/ep2/PipelineHandlerPass.cpp:859-873 | for k < 2, n successful steps leave n + 1 stages and one of them unfinished |
| `StageSearch.EndsIff` | lib/ep2/PipelineHandlerPass.cpp:859-930 | the search ends, whatever the cuts do, iff k >= 2 |
| `SsaGen.TryCastOk` | ep2c/MLIRGen.cpp:205-213 | a cast computes the value at the new width, and nothing else changes |
| `SsaGen.CastConstantOk` | ep2c/MLIRGen.cpp:422-426 | exactly one constant operand takes the type of the other |
| `SsaGen.GenAccessOk` | ep2c/MLIRGen.cpp:710-754 | a one-level path computes the field |
| `SsaGen.GenExprOk` | ep2c/MLIRGen.cpp:396-447 | generated operations compute the expression's value, at its type, for every environment that agrees with the store |
| `SsaGen.MergedTables` | ep2c/MLIRGen.cpp:894-905 | after the merges both tables list what either branch changed, with its value at the end of that branch |
| `SsaGen.AssignOk` | ep2c/MLIRGen.cpp:448-467 | a plain assignment is simulated, recorded, and tracks which variables hold a bare access |
| `SsaGen.AssignFieldOk` | ep2c/MLIRGen.cpp:456-462 | a field update is simulated |
| `SsaGen.GenIfSimulates` | ep2c/MLIRGen.cpp:868-937 | an `if` with or without else, with branches that assign different variables, yields the store of the branch taken |
| `SsaGen.GenIfRecords` | ep2c/MLIRGen.cpp:930-933 | the enclosing tables record exactly what either branch assigned |
| `SsaGen.GenOk` | ep2c/MLIRGen.cpp:868-972 | for every well-typed nesting without the risky reassignment, running the generated code leads to the final store of the program |
| `SsaGen.AssignPreservesIff` | ep2c/MLIRGen.cpp:452-467 | an assignment is translated correctly iff no field access defines the variable's current value |
| `SsaGen.FaithfulIff` | ep2c/MLIRGen.cpp:448-467 | agreement after every statement, in both branches of every `if`, iff no plain assignment goes to a variable that holds a bare field access |
| `SsaGen.ReassignedFieldCopyIsLost` | ep2c/MLIRGen.cpp:456-462 | `y = s.f; y = n` is never translated correctly |
| `SsaGenerator.MlirGen.SetVariable` | ep2c/MLIRGen.cpp:215-225 | the symbol table and the innermost update table take the new value |
| `SsaGenerator.MlirGen.Store` | ep2c/MLIRGen.cpp:448-467 | the assignment case does what its specification does |
| `SsaGenerator.MlirGen.IfElse` | ep2c/MLIRGen.cpp:868-937 | scopes, update tables and insertion point are restored and the `if` is generated as specified |
| `SsaGenerator.MlirGen.Statements` | ep2c/MLIRGen.cpp:940-972 | the loop generates the whole list as specified |
| `SsaGenerator.Translate` | ep2c/MLIRGen.cpp:868-972 | from every agreeing environment, the generated code ends in agreement with the program's final store |
| `FieldSegments.RealOffset` | lib/ep2/Passes/DeadFieldEliminatePass.cpp:177-180 | the backward subtraction finds the offset of the piece |
| `FieldSegments.Close` | lib/ep2/Passes/DeadFieldEliminatePass.cpp:169-186 | closing a run keeps all pieces maximal runs and all fields located |
| `FieldSegments.Segment` | lib/ep2/Passes/DeadFieldEliminatePass.cpp:163-200 | pieces are exactly the maximal runs of used fields, with offsets and write marks, and the maps locate each used field |
| `FieldSegments.FieldsKeepTheirPlace` | lib/ep2/Passes/DeadFieldEliminatePass.cpp:188-196 | a field keeps its size, and piece offset plus inner offset is its offset |
| `FieldSegments.PositionsAreFields` | lib/ep2/Passes/DeadFieldEliminatePass.cpp:188-196 | every position in a piece is the place of exactly one field |
| `DeadField.LoadedReads` | lib/ep2/Passes/DeadFieldEliminatePass.cpp:203-219 | the replacement extracts read, piece by piece, what the extract reads |
| `DeadField.FieldInPiece` | lib/ep2/Passes/DeadFieldEliminatePass.cpp:263-275 | a field read from its piece is the field of the struct |
| `DeadField.UpdateInPiece` | lib/ep2/Passes/DeadFieldEliminatePass.cpp:278-291 | updating the piece is updating that part of the struct |
| `DeadField.UpdateOutsidePiece` | lib/ep2/Passes/DeadFieldEliminatePass.cpp:278-291 | the other pieces are not affected |
| `DeadField.SubEmitsWrite` | lib/ep2/Passes/DeadFieldEliminatePass.cpp:293-305 | emitting the written pieces changes exactly the bits they cover |
| `DeadField.PatchIsWrite` | lib/ep2/Passes/DeadFieldEliminatePass.cpp:293-305 | that equals emitting the whole struct iff the other bits are in the buffer already |
| `DeadField.OneStep` | lib/ep2/Passes/DeadFieldEliminatePass.cpp:260-307 | every kind of operation keeps the two blocks in step, emits exactly when they are kept |
| `DeadField.RewriteAgrees` | lib/ep2/Passes/DeadFieldEliminatePass.cpp:230-307 | the buffers agree after every operation iff every emit is kept; then all values agree too |
| `DeadField.InPlaceBlocksAreKept` | lib/ep2/Passes/DeadFieldEliminatePass.cpp:293-306 | structs emitted where they were extracted, at places that do not overlap, are kept |
| `DeadFieldPass.AllVisited` | include/ep2/dialect/Analysis/Passes.h:51-74 | the analysis marks every accessed field used and every updated field written, for the extract it comes from |
| `FieldUsage.UsageIsExact` | include/ep2/dialect/Analysis/Passes.h:51-74 | the analysis of a block says what the block says: a value has a root iff it is the extracted struct or an update of it, and a field of an extract is used, or written, iff some operation names it so |
| `DeadFieldPass.Analyze` | include/ep2/dialect/Analysis/Passes.h:51-74 | the loop computes that analysis |
| `DeadFieldPass.SplitAll` | lib/ep2/Passes/DeadFieldEliminatePass.cpp:157-202 | every extract gets the split into the maximal runs of its used fields, which fits its struct |
| `DeadFieldPass.RewriteBlock` | lib/ep2/Passes/DeadFieldEliminatePass.cpp:258-307 | the loop rewrites the block as specified |
| `DeadFieldPass.NewExtractIsNarrow` | lib/ep2/Passes/DeadFieldEliminatePass.cpp:203-219 | a replacement extract reads from the place of the extract it replaces, and only bits of fields that the block names |
| `DeadFieldPass.NewEmitIsNeeded` | lib/ep2/Passes/DeadFieldEliminatePass.cpp:293-305 | a replacement emit writes to the place of the emit it replaces, in a piece with a field that the block updates |
| `DeadFieldPass.Eliminate` | lib/ep2/Passes/DeadFieldEliminatePass.cpp:151-307 | the splits are the runs of exactly the fields that the block names, no new extract covers a bit of another field, and every new emit is there for a field that the block writes; same buffers throughout iff every emit is kept, for all buffer contents |
| `DeadFieldPass.InPlaceIsSafe` | lib/ep2/Passes/DeadFieldEliminatePass.cpp:151-307 | a block that writes its structs back where they came from ends with the same buffers |
| `DeadFieldPass.CopyIsLost` | lib/ep2/Passes/DeadFieldEliminatePass.cpp:293-306 | a struct copied to another buffer never arrives, with the plan that analysis and segmentation make |
| `SymbolicBits.StepsAgree` | lib/ep2/Passes/DeadFieldEliminatePass.cpp:151-307 | an operation on symbols is the operation on the bits that they stand for |
| `SymbolicBits.AgreesIffBlockKept` | lib/ep2/Passes/DeadFieldEliminatePass.cpp:230-307 | the rewriting is right for all buffer contents and all computed functions iff, for all lengths, each emit of the run on symbols finds the symbols it would write where no written piece covers them |
| `BufferReuse.HistoryTable.Emit` | lib/ep2/BufferAnalysis.cpp:45-54 | returns the running offset and advances it; an unknown buffer is at zero and stays unknown |
| `BufferReuse.AssignOffsets` | lib/ep2/BufferAnalysis.cpp:103-128 | static offsets equal the running cursors |
| `BufferReuse.ToInplace` | lib/ep2/Passes/BufferReusePass.cpp:35-73 | exactly the uses of the buffer are rewritten, to their offsets |
| `BufferReuse.Reuse` | lib/ep2/Passes/BufferReusePass.cpp:105-112 | both rewritings give the in-place program |
| `BufferReuse.NoClobberInStep` | lib/ep2/Passes/BufferReusePass.cpp:35-73 | without clobbering, the same values are extracted and the buffer is the emitted part over the packet |
| `BufferReuse.AgreesIffBalanced` | lib/ep2/Passes/BufferReusePass.cpp:35-73 | then the packet is the same iff as much is emitted as extracted |
| `BufferReuse.InplaceIsSafeIff` | lib/ep2/Passes/BufferReusePass.cpp:35-73 | safe for all packets and values iff no extract follows too many emits and the totals are equal |
| `BufferReuse.ExtractsFirst` | lib/ep2/Passes/BufferReusePass.cpp:35-73 | extracting all headers before the first emit never clobbers |
| `Predicates.InsertPredicates` | lib/ep2/CFToPredPass.cpp:19-63 | every block is converted as specified |
| `Predicates.BringsIffTaken` | lib/ep2/CFToPredPass.cpp:38-55 | an edge carries one iff its block is active and control leaves along it |
| `Predicates.ActiveIffReached` | lib/ep2/CFToPredPass.cpp:19-63 | in an acyclic graph a block's predicate is one iff the branching program reaches it, whatever the conditions of unreached blocks |
| `Predicates.ConversionIsRightIff` | lib/ep2/CFToPredPass.cpp:24-28 | that holds for all conditions iff every block but the entry has a predecessor |
| `Predicates.OneIncomingEdge` | lib/ep2/CFToPredPass.cpp:19-63 | no two incoming edges of a block are one together |
| `Predicates.OneExit` | lib/ep2/CFToPredPass.cpp:57-61 | exactly one exit block is active; only its sink is fed a one, and it has a sink unless it is the entry |
| `Predicates.SingleIffOne` | lib/ep2/EP2LinearizePass.cpp:30-50 | the count of incoming edges is one iff exactly one arm of one block goes there |
| `Guards.FoldPredicates` | lib/ep2/EP2LinearizePass.cpp:28-54 | wherever the walk ends, it accepts iff it gets to the entry over clear steps; then the conditions are as many as the conditional branches passed, and the block runs iff all match their polarity |
| `Guards.EndlessIff` | lib/ep2/EP2LinearizePass.cpp:30-50 | in any graph the walk never ends iff its first turns, as many as there are blocks, all go on, and iff it comes back to a block |
| `Guards.ReachedWalkEnds` | lib/ep2/EP2LinearizePass.cpp:30-50 | from a block that some path reaches the walk ends |
| `Guards.VisitedThroughSingle` | lib/ep2/EP2LinearizePass.cpp:30-50 | a block with one predecessor runs iff that runs and the branch goes there, in any graph |
| `Guards.UnreachableLoopIsEndless` | lib/ep2/EP2LinearizePass.cpp:30-30 | on a block whose only predecessor is itself the walk goes on at every turn |
| `Guards.GroundTruth` | lib/ep2/EmitFPGA.cpp:926-932 | the shifted word is the polarities, first most significant, and fits |
| `Guards.PackIsInjective` | lib/ep2/EmitFPGAHelper.cpp:316-329 | words of one width are equal iff their bits are |
| `Guards.GuardWordIsExact` | runtime_lib/fpga_runtime/rtl_lib/ep2/guard_pred.sv:76-76 | there is a circuit iff there are conditions, and it fires iff every condition has its polarity |
| `Guards.GuardFor` | lib/ep2/EP2LinearizePass.cpp:91-123 | from block to circuit: emission stops iff the walk passes 32 conditional branches or more, and there is a circuit that fires in exactly the runs that reach the block iff it passes 1 to 31; a block that is guarded without a circuit is in every run |
| `Guards.PlainBranchHasNoCircuit` | lib/ep2/EmitFPGAHelper.cpp:316-329 | a block that the entry branches to without condition is in every run and has no circuit |
| `ReceiveWindow.PayloadIsTheSmaller` | example_outputs/outs-netronome/out-netronome-transport_rx/OoO_detection_1.c:88-107 | however the arithmetic wraps, the smaller of the rest and the free space is taken |
| `ReceiveWindow.AcceptedIsInSegment` | example_outputs/outs-netronome/out-netronome-transport_rx/OoO_detection_1.c:108-126 | with the order check, accepted bytes lie in the arriving segment |
| `ReceiveWindow.UncheckedStaysInSegmentIff` | example_outputs/outs-netronome/out-netronome-transport_rx.all/OoO_detection_1.c:87-115 | without it, iff the segment reaches the next byte or there is no room |
| `ReceiveWindow.GapIsAccepted` | example_outputs/outs-netronome/out-netronome-transport_rx.all/OoO_detection_1.c:87-115 | a segment one byte late is taken, and beyond its end |
| `ReceiveWindow.TrimsToTheWindowIff` | example_outputs/outs-netronome/out-netronome-transport_rx/OoO_detection_1.c:88-107 | the accepted bytes are exactly those of the segment in the window iff the window does not wrap onto received bytes |
| `ReceiveWindow.DuplicateIsIgnored` | example_outputs/outs-netronome/out-netronome-transport_rx/OoO_detection_1.c:88-157 | a segment delivered twice is taken once |
| `ReceiveWindow.RunConserves` | example_outputs/outs-netronome/out-netronome-transport_rx/OoO_detection_1.c:114-157 | over every run, space plus bytes written is constant, sequence number and position advance together, writes are contiguous and acknowledgements exact |
| `ReceiveWindow.EachIsAcknowledged` | example_outputs/outs-netronome/out-netronome-transport_rx/OoO_detection_1.c:143-157 | in every run, each segment that the handler does not drop adds one acknowledgement, which carries the total written by then; a dropped one leaves no event and no change |
| `ReceiveWindow.AllAreAcknowledged` | example_outputs/outs-netronome/out-netronome-transport_rx/OoO_detection_1.c:143-157 | over every run there are as many acknowledgements as segments handled, all of them without the check; the last equals the entry, and nothing is written without one |
| `ReceiveWindow.AnsweredIff` | example_outputs/outs-netronome/out-netronome-transport_rx/OoO_detection_1.c:88-157 | with the check, a near segment is answered iff it does not start after the next expected byte and reaches it |
| `ReceiveWindow.WritesTile` | example_outputs/outs-netronome/out-netronome-transport_rx/OoO_detection_1.c:122-140 | DMA writes of a run cover their stretch of the ring, no position twice |
| `ReceiveWindow.AcceptsTheStreamIff` | example_outputs/outs-netronome/out-netronome-transport_rx/OoO_detection_1.c:88-126 | what is accepted is the next part of the sender's stream iff the segment is near enough for 32 bits |
| `ReceiveWindow.NoByteIsInvented` | example_outputs/outs-netronome/out-netronome-transport_rx/OoO_detection_1.c:88-157 | over every run of near segments, each byte counted as received was in some segment |
| `ReceiveWindow.FlowEntry.Detect` | example_outputs/outs-netronome/out-netronome-transport_rx/OoO_detection_1.c:84-159 | the handler updates its entry and queues in place as specified |
| `ReceiveWindow.FlowEntry.Serve` | example_outputs/outs-netronome/out-netronome-transport_rx/OoO_detection_1.c:163-170 | so does its loop, over any segments |
| `Dispatch.Nic.ProcessPacket` | example_outputs/outs-netronome/out-netronome-transport_rx.all/process_packet_1.c:24-37 | a packet is queued by its port; the round-robin counter has no say |
| `Dispatch.Nic.Detect` | example_outputs/outs-netronome/out-netronome-transport_rx.all/OoO_detection_1.c:75-84 | a replica handles its oldest event with its own table |
| `Dispatch.SequentialIsPerKey` | example_outputs/outs-netronome/out-netronome-transport_rx.all/OoO_detection_1.c:81-136 | with one table, each key has the history of its own events |
| `Dispatch.RunKeeps` | example_outputs/outs-netronome/out-netronome-transport_rx.all/process_packet_1.c:24-37 | under every interleaving, served then queued events of a key are its arrived ones in order, and entry and outputs are those of the served ones |
| `Dispatch.EveryMomentIsAPrefix` | example_outputs/outs-netronome/out-netronome-transport_rx.all/process_packet_1.c:109-136 | at any moment a key's outputs are a first part of those of one shared table |
| `Dispatch.DrainedRefinesSequential` | example_outputs/outs-netronome/out-netronome-transport_rx.all/process_packet_1.c:109-136 | once its queue has drained, a key's entry and outputs equal sequential processing in dispatch order |
| `Dispatch.TablesAreDisjoint` | example_outputs/outs-netronome/out-netronome-transport_rx.all/OoO_detection_1.c:79-84 | no key is ever in two tables |
| `Components.BuildUndirected` | lib/ep2/HandlerDependencyAnalysis.cpp:18-32 | edges go both ways, and in-degrees count every edge |
| `Components.TurnProgress` | lib/ep2/HandlerDependencyAnalysis.cpp:48-62 | a turn colours a handler or brings the next uncoloured one nearer, so the search ends |
| `Components.Explore` | lib/ep2/HandlerDependencyAnalysis.cpp:42-64 | exactly the component of the start gets the colour |
| `Components.FindComponents` | lib/ep2/HandlerDependencyAnalysis.cpp:34-64 | every handler is coloured, two alike iff connected, and starts are the members without incoming edge |
| `Components.TreeVisitsOnce` | lib/ep2/HandlerDependencyAnalysis.cpp:48-62 | in a tree no handler is visited or collected twice, after any number of turns |
| `Revisits.VisitsAreCounted` | lib/ep2/HandlerDependencyAnalysis.cpp:48-62 | a handler is visited once for every time a turn offers it, the start once more, and collected as often if no edge enters it |
| `Revisits.VisitedOnceIffTree` | lib/ep2/HandlerDependencyAnalysis.cpp:48-62 | no handler is visited twice iff the component is a tree, whatever the order of the edges |
| `Revisits.CollectedOnceIff` | lib/ep2/HandlerDependencyAnalysis.cpp:48-62 | no start is collected twice iff each is offered exactly once |
| `Components.DiamondCollectsTwice` | lib/ep2/HandlerDependencyAnalysis.cpp:48-62 | on a diamond, with its real in-degrees and undirected edges, the search ends with a start collected twice |
| `HandlerOrder.RelaxBalance` | lib/ep2/HandlerDependencyAnalysis.cpp:75-78 | every push uses up a handler with edges to count, so the loop ends for every graph |
| `HandlerOrder.TurnKeeps` | lib/ep2/HandlerDependencyAnalysis.cpp:71-79 | counts are the edges from handlers not yet taken, and those taken have their predecessors before them |
| `HandlerOrder.SortComponent` | lib/ep2/HandlerDependencyAnalysis.cpp:67-80 | the order lists the component once, predecessors first, iff it is acyclic and no start was queued twice |
| `HandlerOrder.ConnectedComponents` | lib/ep2/HandlerDependencyAnalysis.cpp:18-82 | the whole analysis: every component gets a topological order iff it has no cycle and its search offered each start exactly once, as it does in a tree |
| `ExprParser.ExpressionSound` | include/ep2/lang/Parser.h:516-559 | the tree reads back to the consumed tokens and respects precedence and left association |
| `ExprParser.ExpressionComplete` | include/ep2/lang/Parser.h:516-559 | every such tree is what the parser makes of its tokens |
| `ExprParser.TreeIsUnique` | include/ep2/lang/Parser.h:830-854 | tokens determine the tree |
| `ExprParser.RespectsIsGrouped` | include/ep2/lang/Parser.h:830-854 | the table of precedences groups products tighter than sums, these tighter than comparisons, these tighter than `=`, and equally tight operators from the left |
| `ExprParser.ParsesGrouped` | include/ep2/lang/Parser.h:516-559 | a parsed tree reads back to the consumed tokens and is grouped so |
| `ExprParser.TwoOperators` | include/ep2/lang/Parser.h:516-559 | `a o b p c` is read as `a o (b p c)` iff p is tighter than o, otherwise as `(a o b) p c` |
| `ExprParser.FailsIffNoExpression` | include/ep2/lang/Parser.h:487-559 | the parser fails iff the tokens start with no expression |
| `ExprParser.Parser.GetTokPrecedence` | include/ep2/lang/Parser.h:830-854 | the pending token's precedence |
| `ExprParser.Parser.ParsePrimary` | include/ep2/lang/Parser.h:487-510 | consumes a primary as specified |
| `ExprParser.Parser.ParseBinOpRHS` | include/ep2/lang/Parser.h:516-550 | the loop over operators consumes as specified |
| `ExprParser.Parser.ParseExpression` | include/ep2/lang/Parser.h:553-559 | consumes an expression as specified |
| `Memcpy.TranslateStructOffset` | lib/ep2/LowerMemcpyPass.cpp:86-105 | the loops over the matching structs and their members compute the specified scan |
| `Memcpy.FindsTheMember` | lib/ep2/LowerMemcpyPass.cpp:86-105 | it finds a member iff one starts at the offset, the first such, and none iff all start before |
| `Memcpy.FindsTheStruct` | lib/ep2/LowerMemcpyPass.cpp:86-105 | among all structs whose name matches, the first whose members do not all start before the offset decides |
| `Memcpy.MembersAreFirst` | lib/ep2/LowerMemcpyPass.cpp:86-105 | on the slow path to context memory, the i-th write goes to the first member that starts at the i-th stop, and the writes end where no member starts |
| `Memcpy.RoundedIsLeast` | lib/ep2/LowerMemcpyPass.cpp:183-187 | a size is rounded up to the next whole word unless the copy is exact |
| `Memcpy.DoEmission` | lib/ep2/LowerMemcpyPass.cpp:195-214 | the emission loop |
| `Memcpy.EmissionTiles` | lib/ep2/LowerMemcpyPass.cpp:195-214 | chunks tile the copy in order, on member boundaries, at most 128 bytes each, and cover it iff the loop ran to its end |
| `Memcpy.EndingIff` | lib/ep2/LowerMemcpyPass.cpp:195-214 | the loop runs to its end iff a member starts at every stop, and the compiler stops iff some stop is inside a member |
| `Memcpy.DecomposeMemcpy` | lib/ep2/LowerMemcpyPass.cpp:126-229 | decided by layouts, size, offset and direction: the compiler stops iff it must, also on a narrow context read; the whole copy is emitted iff it can be; wide transfers are used whenever every wide stop is on a member; a narrow context write becomes the writes of the members at its stops |
| `Memcpy.AdvanceIff` | lib/ep2/LowerMemcpyPass.cpp:203-207 | when all is copied the cursor advances by the size iff the copy starts at zero or is empty, on the wide path and for an exact copy on the slow one |
| `Memcpy.SlowPathTruncates` | lib/ep2/LowerMemcpyPass.cpp:198-213 | 200 bytes for a one-word struct are cut to 32, because the whole copy cannot be made; from context memory the compiler stops |

## Left out

- The balance fractions and tolerances of the cutter, the max-flow algorithm itself, and overflow of sums of infinite capacities in 64 bits; positive weights are proved for the policy that is used.
- The loop of `kcutPolicy` over tolerances, and `functionSplitter`.
- The ordering of the results of an `if`: results are named by variable instead of numbered.
- Variables declared inside a branch, multi-level struct paths, context references, and assignment to handler parameters that nothing defines.
- The analysis of fields across blocks and functions, and event operands: the rewriting is proved for straight-line blocks.
- Merging of buffer histories at block joins: straight-line handlers only.
- What the arithmetic and comparison operators compute: a source operator and the generated operation share it, so nothing depends on it.
- Lifting of pure operations, and the order among lifted side effects.
- FIFO handshakes and replication in the guard circuit.
- CAM capacity and eviction, threads of one replica that interleave within a handler, DMA transfers themselves, and how the window reopens.
- Construction of the handler graph from events, and atom matching.
- Identifiers, calls, literals and atoms as primaries: each is one opaque token.
- Copies between packets, copies of context to context, and the text that is emitted.
- Dispatch.Nic.Detect: the handler is any function of entry and packet, and the queue is not empty, because the original waits for work.
- SsaGen.GenOk: for the final store alone the condition on reassigned field copies is sufficient, because a wrong value may still be overwritten before the end; it is exact for agreement after every statement, in SsaGen.FaithfulIff.
- SsaGen.TryCastOk: does not model that the original asks the defining operation of the value for its location, which a block argument does not have (lines 211-212 of `ep2c/MLIRGen.cpp`).
- DeadField.InPlaceBlocksAreKept: a simple condition that is sufficient; the exact ones are in DeadField.RewriteAgrees, for given buffers, and SymbolicBits.AgreesIffBlockKept, for all.
- Guards.FoldPredicates: for blocks from which the walk ends, as Guards.EndlessIff decides, because elsewhere the original does not end.
