# Verified model of the tensor compiler's core algorithms

A Dafny 4.11 model of the algorithms a tensor graph passes through on its way to a CPU run, with proofs of what each
of them promises. `dafny verify dfyconfig.toml` checks the whole project.

* **Memory planner** (`Lowered`, `Aliases`, `Liveness`, `Packing`, `Placement`, `WorkingSegments`, `Layout`,
  `ReuseEdges`, `Planner`, `BestFit`, `Execution`, `EmptyValues`, `EmptyValuePlan`). Alias chains are flattened, live
  intervals computed, and values packed into segments by a best-fit free-list allocator. `WorkingSegment` is a class
  whose methods retire, cut and grow its free list in place; each is tied to a function on the segment's contents, and
  the invariants are proved about those functions. The results are lifted to one statement over whole runs: a program
  executed over packed, reused memory behaves like one with a private buffer per value
  (`Execution.PackedRefinesPrivate`). `BestFit` says which place the allocator takes, in terms of the free ranges and
  ends of the segments. A run is a sequence of loads and stores that each instruction makes through the values it
  declares; what it stores may depend on everything loaded before.
* **Elementwise fusion** (`KernelExprs`, `ExprRewriting`, `FusionProgram`, `Strides`, `Reduction`, `FusionRun`,
  `FoldMeaning`, `GeluMeaning`, `HalfRounding`). Expression trees are compiled by an explicit worklist to a postorder
  stack program and run over an exactly measured scratch array, with broadcast strides and fused reductions. The
  scalar type and its operations are parameters; `FoldMeaning` and `GeluMeaning` say what reductions and the fused
  GELU steps compute when arithmetic is exact, with constants read from their bit patterns. Rounding of an f64 bit
  pattern to a half format is modelled on natural numbers and proved correctly rounded for every 16-bit format of that
  form, binary16 and bfloat16 among them (`HalfRounding.KnownFormats`).
* **Graph walks** (`Dag`, `GraphIndexes`, `Tensors`, `TensorGraph`, `RotaryDecomposition`, `AttentionDecomposition`,
  `MaskMeaning`, `Decomposition`, `SemanticPreparation`). A node holds its children by value and its id stands for the
  identity of the shared allocation; a graph is coherent when equal ids mean equal nodes. No numbering of the nodes is
  given in advance. Explicit-stack walks are proved equal to recursive depth-first postorder. The rewrite that lowers
  configured operations preserves meaning and identity: rotary embedding at explicit positions and attention rounded
  step by step have their own element formulas (`TensorGraph.RotaryElement`, `TensorGraph.StepwiseAttention`), and the
  graphs of plain operations that replace them are proved to compute these for operands of every shape and for every
  arithmetic. `MaskMeaning` shows that the constant added to a hidden score is the least finite value of its type, and
  so that hidden keys score below visible ones.
* **Reverse-mode differentiation** (`ScalarGraph`, `InnerProduct`, `AdjointRules`, `Cotangents`, `Checkpoints`,
  `Exposure`, `Autodiff`, `CheckpointRemoval`, `Calculus`, `Derivatives`, `Broadcasting`). Zero-dimensional graphs
  over the reals; elementary functions are uninterpreted symbols with their usual derivatives. The walk is proved by a
  conservation law: the sum, over nodes not yet walked, of cotangent times forward-mode tangent never changes.
  Checkpoint regions are copied under fresh ids and differentiated by a recursive walk. A target is *exposed* when,
  wherever a walk meets a checkpoint whose region contains it, it is also reached without that checkpoint, and again
  so inside the region; leaves always are. Every exposed target's gradient equals its forward-mode derivative.
  `Calculus` develops limits of difference quotients, and `Derivatives` proves that the forward-mode tangent is such a
  limit: away from kinks, with elementary functions assumed to have their textbook derivatives, a leaf's gradient
  evaluates to the derivative of the loss. `Broadcasting` adds the tensor side: summing a cotangent down to an
  operand's shape is the transpose of broadcasting, expanding it after a reduction the transpose of summing.
* **Decode specialization** (`SemanticGraph`, `DecodeSteps`, `CursorPositions`, `DecodedGraph`, `OutputRows`,
  `HeadOperations`, `DecodeSpecialization`, `DecodedVisibility`). An inference graph becomes a stateful one:
  attention, recurrence and convolution nodes are numbered, positions become relative to the runtime's cursor, and the
  last rows of roots are selected, below the output head where that is possible. Success is characterized in terms of
  the source graph, for every graph and request; layers are numbered without gaps and each attention node reads the
  layer of its own key operand; the slot table of the result is valid exactly when the source's is and one cursor
  suffices. `DecodedVisibility` adds the runtime's side: whatever has been evicted, a query of a rewritten node reads
  exactly the keys that its source node sees and that a separately configured retention keeps.
* **Expert projection** (`ExpertLinear`, `GroupedExperts`). The row-by-row form and the form that packs rows by
  expert, multiplies group by group and scatters the results compute the same array. The element product of the matrix
  kernel is a parameter; for the multiply-add chain of the row-by-row form the two operations have the same result.

`DTypes`, `NodeInfo`, `Wrappers`, `Arithmetic`, `Sequences` and `Sorting` hold what several parts share.

Two statements the source suggests are false as they stand, and are given their condition instead. The planner's
conflict test can fail on a program it should accept: planning succeeds exactly on acceptable programs whose packing
lays no live value around one of no bytes (`Planner.PlanMemory`, `ReuseEdges.ConflictIsSurrounding`, with a concrete
program in `EmptyValuePlan`), and so on all acceptable programs without zero-byte values. Row selection for a single
lane takes the lane from the slice it selects from, so the run fails for a lane out of range when what it selects
from, which is the input of the output head or else the root, is a slice that starts past zero
(`OutputRows.PushedPicks`, with a concrete root in `OutputRows.ShiftedSliceIsRefused`).

## Model

| member | source | states |
|---|---|---|
| Aliases.ValidateDenseValues | crates/compiler/src/planner.rs:268-283 | accepts exactly the tables whose ids equal their positions; otherwise names the first mismatch |
| Aliases.NormalizeAliases | crates/compiler/src/planner.rs:345-439 | succeeds exactly when ids are dense, every source exists, every hop stays in bounds and no chain is cyclic; each result is the non-alias root with the sum of hop offsets, and the view fits in the root, so accumulating offsets cannot overflow; every reported error is a real defect |
| Aliases.ResolvingIsAcyclic | crates/compiler/src/planner.rs:364-384 | a value that resolves to a root is on no cycle |
| Aliases.FlattenedOnce | crates/compiler/src/planner.rs:345-439 | the normalized form of a value is unique |
| Liveness.ValidateLoweredProgram | crates/compiler/src/planner.rs:286-330 | accepts exactly the programs with dense ids, known references and known uses |
| Liveness.RecordInstruction | crates/compiler/src/planner.rs:458-488 | one instruction extends the tables of first reads, first writes and last accesses, by root, exactly |
| Liveness.IntervalOf | crates/compiler/src/planner.rs:506-549 | the interval of one value, or the error when a planned value is read before, or never, defined |
| Liveness.AnalyzeLiveness | crates/compiler/src/planner.rs:446-558 | succeeds exactly for valid programs with sound aliases whose planned roots are defined before they are read; intervals then run from the first write (or first access) to past the last access, outputs to the end |
| Liveness.TouchesAreLive | crates/compiler/src/planner.rs:446-558 | every access to a root, direct or through an alias, falls inside its live interval |
| Packing.CoalescedMeaning | crates/compiler/src/planner.rs:627-639 | coalescing covers the same bytes with sorted, disjoint, non-touching ranges |
| Packing.CanonicalOnce | crates/compiler/src/planner.rs:627-639 | that form is unique for the bytes it covers |
| Packing.RetiredTiled | crates/compiler/src/planner.rs:583-600 | retiring keeps the tiling of [0, used_end) by free and active ranges and keeps exactly the allocations still live |
| Packing.ConsumedTiled | crates/compiler/src/planner.rs:641-656 | placing an allocation inside a free range keeps the tiling |
| Packing.GrownTiled | crates/compiler/src/planner.rs:928-940 | growing the tail, with its alignment gap, keeps the tiling |
| Packing.FirstTiled | crates/compiler/src/planner.rs:941-964 | a new segment is tiled by its first allocation |
| Placement.BestGapIsLeast | crates/compiler/src/planner.rs:869-890 | the chosen gap is a fitting gap, least in waste, segment and range among all fitting gaps |
| Placement.BestTailIsLeast | crates/compiler/src/planner.rs:902-926 | the chosen tail is a fitting tail, least among all segments |
| Placement.RetireAllKeeps | crates/compiler/src/planner.rs:865-867 | retiring every segment up to a later start keeps the packing invariant |
| Placement.PackOneKeeps | crates/compiler/src/planner.rs:838-974 | one allocation keeps the packing invariant: tiled canonical segments, every live assignment tracked, aligned and in bounds, and live assignments byte-disjoint |
| Placement.PackAllKeeps | crates/compiler/src/planner.rs:838-974 | the packing invariant holds after every run of allocations |
| Placement.PackAllSucceeds | crates/compiler/src/planner.rs:838-974 | packing succeeds exactly when every request fits some segment of its space |
| WorkingSegments.Coalesce | crates/compiler/src/planner.rs:627-639 | the in-place merge loop computes the coalesced ranges |
| WorkingSegments.WorkingSegment.Retire | crates/compiler/src/planner.rs:587-600 | the new segment state is the retired one |
| WorkingSegments.WorkingSegment.ConsumeFreeRange | crates/compiler/src/planner.rs:641-656 | the new free list is the old one with the placed bytes cut out |
| WorkingSegments.WorkingSegment.GrowTail | crates/compiler/src/planner.rs:928-940 | the tail moves up and an alignment gap becomes free |
| WorkingSegments.FindGap | crates/compiler/src/planner.rs:869-890 | the search loops find the least gap |
| WorkingSegments.FindTail | crates/compiler/src/planner.rs:902-926 | the search loop finds the least tail |
| WorkingSegments.Place | crates/compiler/src/planner.rs:865-964 | reuse a gap, else grow a tail, else open a segment |
| WorkingSegments.PackStep | crates/compiler/src/planner.rs:838-974 | one iteration of the allocation loop, errors included, on the segment objects |
| Planner.ValidateConfig | crates/compiler/src/planner.rs:803-819 | accepts exactly configurations with positive sizes, power-of-two alignments and one entry per space |
| Planner.RequestsFit | crates/compiler/src/planner.rs:850-863 | a program packs exactly when every planned value fits its space |
| Planner.PackRequests | crates/compiler/src/planner.rs:821-974 | the allocation loop over all requests computes the packing |
| Planner.PackedLayoutIsSound | crates/compiler/src/planner.rs:838-986 | values live at a common instruction never share a byte; every value lies aligned inside a segment of its space |
| Planner.PlanMemoryWithLiveness | crates/compiler/src/planner.rs:794-1084 | succeeds exactly for a valid configuration that every planned value fits and a packing without a live value around one of no bytes; each failure names its cause |
| Planner.PlanMemory | crates/compiler/src/planner.rs:780-792 | succeeds exactly on acceptable programs whose packing lays no live value around one of no bytes; with positive sizes exactly on acceptable programs, so the conflict exit is unreachable |
| Planner.PositiveSizesPack | crates/compiler/src/planner.rs:1005-1013 | without zero-byte planned values no packing trips the conflict test |
| ReuseEdges.ConflictIsSurrounding | crates/compiler/src/planner.rs:1005-1013 | the conflict test fails exactly when a zero-byte value stands strictly inside another that is live at the same time |
| Planner.PlanValidates | crates/runtime/src/memory.rs:240-291 | the finished plan passes its own validation |
| Planner.LivenessOnce | crates/compiler/src/planner.rs:446-558 | the liveness tables of a program are unique |
| Planner.PlanOnce | crates/compiler/src/planner.rs:794-1084 | planning is deterministic: program and configuration determine the plan |
| Planner.SharedStorageIsOrdered | crates/compiler/src/planner.rs:988-1033 | two values that share an address are handed over along a reuse edge |
| Planner.EdgesAreOrdered | crates/compiler/src/planner.rs:988-1033 | every reuse edge of a plan points forward: after < before |
| Planner.SegmentsAreConfigured | crates/compiler/src/planner.rs:942-986 | every segment is sized and aligned by its space and its members |
| ReuseEdges.CollectReuseEdges | crates/compiler/src/planner.rs:988-1033 | succeeds exactly when no address-sharing pair overlaps in time; the edges are sorted, distinct and exactly the address-sharing pairs; an error names a real conflict |
| ReuseEdges.ReuseIsOrdered | crates/compiler/src/planner.rs:988-1033 | an edge leads from an earlier last use to a later first use |
| ReuseEdges.ConflictNeedsEmptyValue | crates/compiler/src/planner.rs:1005-1013 | when live values are byte-disjoint a conflict is a zero-byte value strictly inside another |
| EmptyValues.EmptyValueConflicts | crates/compiler/src/planner.rs:1005-1013 | four requests, one of no bytes, that pack successfully, stay byte-disjoint while live, and still trip the conflict test |
| EmptyValuePlan.ProgramIsAcceptable | crates/compiler/src/planner.rs:780-792 | a lowered program with a zero-byte value that meets everything planning asks for |
| EmptyValuePlan.AcceptableWithoutPlan | crates/compiler/src/planner.rs:794-1056 | its requests are those four: its packing trips the conflict test, and no plan of it exists |
| EmptyValuePlan.PlanningConflicts | crates/compiler/src/planner.rs:780-792 | planning it from the public entry ends in the conflict error |
| Layout.SweepStep | crates/compiler/src/planner.rs:736-759 | the sweep moves by what starts and ends at an instruction and never subtracts more than it holds |
| Layout.PeakLiveBytes | crates/compiler/src/planner.rs:736-759 | the sweep finds the maximum over instructions of the live planned bytes |
| Layout.LiveBytesFit | crates/compiler/src/planner.rs:976-986 | live bytes never exceed the segments together |
| Layout.PeakFits | crates/compiler/src/planner.rs:760-767 | the peak never exceeds the segments together |
| Layout.BuildReport | crates/compiler/src/planner.rs:736-767 | peak and overhead add up to the segment bytes, so the subtraction cannot fail |
| Execution.RunSimulates | crates/compiler/src/planner.rs:794-1084 | step by step a run over packed storage agrees with a run over private buffers on every byte of every unexpired value |
| Execution.PackedRefinesPrivate | crates/compiler/src/planner.rs:794-1084 | whatever the kernels do within their declared uses, the packed run loads the same bytes and ends with the same outputs as the run with one private buffer per root |
| Execution.SurvivingValue | crates/compiler/src/planner.rs:446-558 | bytes written through a value or an alias are read back unchanged while the root is live |
| KernelExprs.FlattenInto | crates/compiler/src/ir.rs:742-826 | the iterative worklist appends exactly the recursive postorder |
| KernelExprs.PostorderUnique | crates/compiler/src/ir.rs:466-488 | postorder with fixed arities decodes uniquely, even inside longer lists |
| KernelExprs.Equal | crates/compiler/src/ir.rs:474-480 | equality by flattened plans is structural equality |
| ExprRewriting.Transform | crates/compiler/src/ir.rs:399-420 | the iterative rebuild is the recursive replacement of leaves |
| ExprRewriting.CloneIsIdentity | crates/compiler/src/ir.rs:466-472 | rebuilding without replacements is the identity |
| ExprRewriting.MergeLane | crates/compiler/src/ir.rs:452-463 | one pass inlines a lane and renames the others |
| ExprRewriting.MergeMeans | crates/compiler/src/ir.rs:452-463 | merging means simultaneous substitution and renaming, even when a renamed lane equals the inlined one |
| ExprRewriting.ApplyExecution | crates/compiler/src/ir.rs:131-184 | the legalizing worklist is the recursive fold, errors included |
| ExprRewriting.LegalizationMeans | crates/compiler/src/ir.rs:131-184 | legalization succeeds exactly when every marker resolves; the result is marker-free and rounds exactly at the declared boundaries |
| FusionProgram.LevelsPostorder | crates/compiler/src/ir.rs:853-925 | a postorder plan never underflows, leaves one value more, and peaks at the recursive stack need |
| FusionProgram.ExecPostorder | crates/compiler/src/ir.rs:996-1067 | running a postorder plan pushes exactly the meaning of its expression |
| FusionProgram.EvalOp | crates/compiler/src/ir.rs:996-1067 | one instruction on the value array does what it does on a stack, and touches nothing else |
| FusionProgram.EvalPlan | crates/compiler/src/ir.rs:977-1067 | evaluating a plan returns the meaning of its expression for any scratch of the required length, never out of range |
| FusionProgram.Measure | crates/compiler/src/ir.rs:861-920 | one plan updates the lane counts and the depth to exact maxima |
| FusionProgram.Prepare | crates/compiler/src/ir.rs:853-928 | succeeds exactly for marker-free expressions; plans are the postorders and value_scratch_len is exactly the deepest stack |
| Strides.CoordinatesInvert | crates/compiler/src/ir.rs:1069-1078 | coordinates of a flat index lie in the shape and lead back to it |
| Strides.RowMajorInverts | crates/compiler/src/ir.rs:1069-1078 | coordinates are those of their row-major index |
| Strides.ContiguousStrides | crates/compiler/src/ir.rs:14-22 | stride of a dimension is the product of the later widths |
| Strides.LaneStrides | crates/compiler/src/ir.rs:25-43 | strides exist exactly when the lane broadcasts to the output, and are the unit-clamped row-major ones |
| Strides.StridedOffset | crates/compiler/src/ir.rs:1069-1078 | the loop computes the sum of coordinate times stride |
| Strides.LaneOffset | crates/compiler/src/ir.rs:1069-1078 | with lane strides the offset is the row-major index of the right-aligned, unit-clamped coordinates |
| Strides.LaneReadsInBounds | crates/compiler/src/ir.rs:1069-1121 | every such offset falls inside the lane |
| Strides.ContiguousIsIdentity | crates/compiler/src/ir.rs:1069-1078 | with contiguous strides the offset is the index |
| Reduction.OutputIndexIsRowMajor | crates/compiler/src/ir.rs:1151-1176 | the output cell is the row-major index of the kept coordinates, with and without keepdims, and in bounds |
| Reduction.ReduceOutputOffset | crates/compiler/src/ir.rs:1151-1176 | the loop computes that cell |
| Reduction.FibreIsReducedExtent | crates/compiler/src/ir.rs:1185-1227 | every output cell receives as many inputs as the product of the reduced dimensions |
| Reduction.CellsTimesFibre | crates/compiler/src/ir.rs:1185-1227 | cells times fibre size is the input size, with and without kept dimensions |
| Reduction.FibresPartition | crates/compiler/src/ir.rs:1151-1227 | the sizes of the fibres add up to the input size: every element lies in the fibre of exactly one output cell |
| FusionRun.InterpretCoreInto | crates/compiler/src/ir.rs:1085-1121 | every output element is the meaning of its expression over the element read from each lane |
| FusionRun.BroadcastReads | crates/compiler/src/ir.rs:13-48 | with the strides computed for broadcasting lanes every read falls inside its lane |
| FusionRun.BroadcastMeaning | crates/compiler/src/ir.rs:1069-1121 | an output element is the meaning of its expression over the lane elements at right-aligned, unit-clamped coordinates |
| FusionRun.StridesAreOptional | crates/compiler/src/ir.rs:1080-1121 | strided interpretation with contiguous strides agrees with unstrided interpretation |
| FusionRun.ExtentIsReduced | crates/compiler/src/ir.rs:1219-1226 | the Mean divisor is the fibre size |
| FusionRun.InterpretReduceCoreInto | crates/compiler/src/ir.rs:1185-1227 | every output cell is the fold, in increasing input order, over exactly its fibre, divided for Mean |
| HalfRounding.CorrectlyRounded | crates/compiler/src/ir.rs:524-563 | for every f64 bit pattern and every 16-bit format given by mantissa width and bias (binary16 and bfloat16 among them) the result is the nearest representable code, ties to even, with gradual underflow, carry into the next binade and overflow to infinity (section 4.3.1 of IEEE 754-2019, roundTiesToEven) |
| HalfRounding.KnownFormats | crates/compiler/src/ir.rs:572-578 | binary16 and bfloat16 are such formats |
| HalfRounding.SpecialsKept | crates/compiler/src/ir.rs:527-540 | sign, infinities and NaNs are kept |
| Dag.VisitOrders | crates/compiler/src/schedule.rs:43-74 | recursive depth-first postorder appends what is missing, each node once, children first |
| Dag.PostorderIsReachable | crates/compiler/src/schedule.rs:43-74 | the postorder of the roots is topological and holds exactly the reachable nodes |
| Dag.TraversalExpands | crates/compiler/src/schedule.rs:57-68 | expanding a node on the stack keeps the outcome of the walk and shrinks the unvisited ids |
| Dag.VisitedIsEmitted | crates/compiler/src/schedule.rs:60-62 | a node found visited again has been emitted: no node is its own ancestor |
| GraphIndexes.Discover | crates/compiler/src/schedule.rs:43-74 | the explicit-stack walk equals recursive left-to-right postorder, terminates, lists every child and counts every edge |
| GraphIndexes.BuildTables | crates/compiler/src/schedule.rs:384-408 | dense children stand before their parents and name the right nodes; consumers are the exact transpose with edge multiplicity, parents ascending |
| GraphIndexes.Connect | crates/compiler/src/schedule.rs:404-406 | adding one parent extends the transpose |
| GraphIndexes.CollectSlots | crates/compiler/src/schedule.rs:117-188 | succeeds exactly when equal slots agree and no slot number is skipped; the table then lists every declared signature and nothing else |
| GraphIndexes.NewIndex | crates/compiler/src/schedule.rs:366-470 | succeeds exactly when the slots of the leaves are valid, and yields the index of exactly the graph below the roots with every slot as its leaves declare it |
| SemanticPreparation.PrepareNode | crates/compiler/src/semantic.rs:31-42 | one node: rebuilt only if a child changed, replaced if configured; means what it meant, has nothing configured below, and is itself when there was nothing to do |
| SemanticPreparation.PreparationExpands | crates/compiler/src/semantic.rs:18-30 | no node is expanded twice, so the walk ends |
| SemanticPreparation.ReadyMeans | crates/compiler/src/semantic.rs:31-33 | when a node is ready every child is in the table: no lookup fails |
| SemanticPreparation.PrepareSemantics | crates/compiler/src/semantic.rs:10-45 | in every run every root keeps its meaning, no configured operation is left, untouched nodes keep identity, and new nodes get unused ids; it succeeds whenever node construction looks at operation and operand metadata |
| SemanticPreparation.ConfiguredIsLowered | crates/compiler/src/semantic.rs:31-42 | a configured node over operands without any is replaced by a different graph of the same meaning |
| SemanticPreparation.SomeNodeIsLowered | crates/compiler/src/semantic.rs:10-45 | there is such a node: a rotation of two tokens of width two |
| TensorGraph.MeaningsAgree | crates/compiler/src/semantic.rs:31-40 | a node rebuilt over operands of equal value has equal value |
| RotaryDecomposition.DoubledMeans | crates/graph/src/semantic.rs:158-174 | in either layout both elements of a pair get the angle of their pair |
| RotaryDecomposition.TableMeans | crates/graph/src/semantic.rs:175-187 | the reshaped tables hold the rounded cosine and sine of the angle of the element that broadcasting pairs them with |
| RotaryDecomposition.TurnedMeans | crates/graph/src/semantic.rs:188-220 | slices, negation and concatenation put at every element its partner, negated at the first of a pair |
| RotaryDecomposition.RotaryGraphMeans | crates/graph/src/semantic.rs:143-233 | element by element the graph is the rotation of pairs by position times frequency, with the stated rounding, for every rank, batch broadcast and layout |
| AttentionDecomposition.RepeatedMeans | crates/graph/src/semantic.rs:27-43 | after repeating heads a query head reads the key and value head of its group |
| AttentionDecomposition.AllowedMeans | crates/graph/src/semantic.rs:78-110 | the mask is one exactly where the key is no later than the query and within the window |
| AttentionDecomposition.ScoreMeans | crates/graph/src/semantic.rs:58-123 | scores are rounded after product, scaling and mask |
| AttentionDecomposition.SoftmaxMeans | crates/graph/src/semantic.rs:123-136 | the line of a query is the F32 softmax of its scores, rounded |
| AttentionDecomposition.AttentionGraphMeans | crates/graph/src/semantic.rs:45-141 | element by element the graph is attention rounded step by step, with grouped heads |
| Decomposition.DecomposeMeans | crates/graph/src/semantic.rs:238-271 | whatever the run, the replacement of a configured node means what the node means |
| Decomposition.DecomposeGrows | crates/graph/src/semantic.rs:238-271 | it retains the operand nodes and adds only plain nodes under consecutive new ids |
| ScalarGraph.TangentIsLocal | crates/autodiff/src/lib.rs:771-796 | a node does not vary with what is not below it |
| AdjointRules.Propagate | crates/autodiff/src/lib.rs:835-1010 | for every operation the contributions, each times the tangent of its operand, sum to the cotangent times the tangent of the node; only operations without an adjoint are refused |
| AdjointRules.MulRule | crates/autodiff/src/lib.rs:843-846 | product rule |
| AdjointRules.DivRule | crates/autodiff/src/lib.rs:847-851 | quotient rule, zero divisors included |
| AdjointRules.ExtremumRule | crates/autodiff/src/lib.rs:855-889 | maximum and minimum, ties to the left operand |
| AdjointRules.CastRule | crates/autodiff/src/lib.rs:1118-1122 | a cast carries the cotangent unless its operand is an integer |
| Cotangents.AccumulateAll | crates/autodiff/src/lib.rs:786-796 | accumulation adds to what is pending exactly what the contributions carry |
| Checkpoints.Topo | crates/autodiff/src/lib.rs:317-337 | postorder of everything below the loss, the loss last |
| Checkpoints.OutsideSet | crates/autodiff/src/lib.rs:746-763 | the ids reachable from the last node without passing through the checkpoint |
| Checkpoints.CopyRegion | crates/autodiff/src/lib.rs:1784-1799 | nodes seen from outside and nodes without operands stay shared, so no leaf is duplicated; every other node is copied once under a new id over the images of its operands |
| Checkpoints.ImageAgrees | crates/autodiff/src/lib.rs:1778-1799 | a copy agrees with its original in value and in every tangent whose target was not copied |
| Checkpoints.CopyIsTopological | crates/autodiff/src/lib.rs:1800-1804 | shared nodes followed by copies are a topological order |
| Exposure.ImageExposed | crates/autodiff/src/lib.rs:746-763 | a target exposed to the walk over a region is exposed to the walk over its copy |
| Exposure.LeavesAreExposed | crates/autodiff/src/lib.rs:1784-1792 | leaves are always exposed |
| Autodiff.DeliverConserves | crates/autodiff/src/lib.rs:771-796 | delivering one node conserves what is owed to every target |
| Autodiff.Backward | crates/autodiff/src/lib.rs:771-1845 | conservation over a whole walk: settled gradient plus what is pending on shared inputs is what was pending at the start |
| Autodiff.DifferentiateRegion | crates/autodiff/src/lib.rs:1778-1820 | a checkpoint hands on exactly the cotangent times its tangent, through the copy or directly |
| Autodiff.Collect | crates/autodiff/src/lib.rs:1807-1814 | in any order, exactly the cotangents of shared nodes are handed on |
| Autodiff.Grad | crates/autodiff/src/lib.rs:679-742 | the gradient of every exposed target evaluates to the forward-mode derivative, zero when there is no path; integer losses or targets and barred operations are refused |
| CheckpointRemoval.UnwrapAgrees | crates/autodiff/src/lib.rs:1778-1820 | taking checkpoints out changes neither value nor derivative |
| CheckpointRemoval.CheckpointsDoNotMatter | crates/autodiff/src/lib.rs:1778-1820 | gradients of a leaf with and without any set of checkpoints are equal |
| CheckpointRemoval.UnwrapIsLossGraph | crates/autodiff/src/lib.rs:1778-1820 | with checkpoints taken out the loss still meets what differentiation asks for |
| CheckpointRemoval.GradBothWays | crates/autodiff/src/lib.rs:679-742 | differentiating with and without the checkpoints succeeds alike and gives leaves equal gradients |
| ExpertLinear.DotElement | crates/runtime-cpu/src/expert_linear.rs:72-83 | one element is the multiply-add chain in increasing order |
| ExpertLinear.ExpertLinearRowsInto | crates/runtime-cpu/src/expert_linear.rs:13-87 | succeeds exactly for matching shapes, routes in range and the right destination; every row is its activations through the expert of its route; on failure nothing is written |
| GroupedExperts.PackingPermutes | crates/runtime-cpu/src/grouped_expert_linear.rs:244-252 | packing rows by expert is a permutation: every row has exactly one place |
| GroupedExperts.Gather | crates/runtime-cpu/src/grouped_expert_linear.rs:272-285 | packed activations are the rows in packed order |
| GroupedExperts.GroupProducts | crates/runtime-cpu/src/grouped_expert_linear.rs:287-308 | each group times the transposed view of its expert gives the products its rows need |
| GroupedExperts.MultiplyGroups | crates/runtime-cpu/src/grouped_expert_linear.rs:286-308 | the packed result holds the product of every packed row |
| GroupedExperts.Scatter | crates/runtime-cpu/src/grouped_expert_linear.rs:305-312 | every packed row lands on its own row; no row is overwritten |
| GroupedExperts.ScatterInvertsPacking | crates/runtime-cpu/src/grouped_expert_linear.rs:271-312 | the scattered result is the routed result, row by row |
| GroupedExperts.ExecuteInto | crates/runtime-cpu/src/grouped_expert_linear.rs:217-260 | the grouped projection computes what the row-by-row projection computes; an out-of-range route fails before the destination is written |
| DecodeSteps.StepRewrites | crates/compiler/src/decode.rs:410-666 | one loop step enters the image its node must have, with the layer number that is its own identity or its turn |
| DecodeSteps.StepKeeps | crates/compiler/src/decode.rs:410-666 | the step keeps layer identities distinct, counts equal to the nodes seen, geometries those of the first node, and all earlier images |
| DecodeSteps.AttentionFails | crates/compiler/src/decode.rs:412-489 | a refused attention node means a shape that cannot be cached, mixed identities or a repeated identity in the source |
| DecodeSteps.StepFails | crates/compiler/src/decode.rs:410-666 | a refusal means the source graph misses a condition on attention, recurrence or convolution layers |
| DecodeSteps.RewritingFits | crates/compiler/src/decode.rs:410-666 | a completed loop shows that the source meets all of them |
| DecodeSteps.StepTracksWindows | crates/compiler/src/decode.rs:463-478 | eviction is allowed exactly when every layer has a retention; the maximum is the widest window of a legacy layer |
| CursorPositions.ScalarPositionsRead | crates/compiler/src/decode.rs:635-663 | with one graph row, token t reads the row of the weight at the cursor plus t |
| CursorPositions.TensorPositionsRead | crates/compiler/src/decode.rs:588-634 | with several rows, token t of row r reads the row of the weight at the cursor of r plus t |
| DecodedGraph.StepMints | crates/compiler/src/decode.rs:400-667 | the nodes made so far have new distinct ids, are closed under children, and their leaves are source leaves or the cursor |
| DecodedGraph.ImageReaches | crates/compiler/src/decode.rs:400-667 | what is below a node stays below its image |
| DecodedGraph.SlotsStayValid | crates/compiler/src/decode.rs:344-365 | the slot table of the result is valid exactly when the source table is and all position embeddings share one device |
| GraphIndexes.SlotsValidInOrder | crates/compiler/src/schedule.rs:117-188 | valid slots are what the collection over any listing of the nodes accepts |
| DecodeSpecialization.CursorSlot | crates/compiler/src/decode.rs:344-365 | refuses exactly graphs with a runtime scalar below the roots; the slot is one past the highest used, zero without any |
| DecodeSpecialization.EncounterOrder | crates/compiler/src/decode.rs:367-385 | the explicit-stack walk is depth-first postorder with roots and children taken from last to first |
| DecodeSpecialization.EncounterIsReachable | crates/compiler/src/decode.rs:367-385 | that order holds every reachable node once, operands first |
| DecodeSpecialization.RewriteAll | crates/compiler/src/decode.rs:387-667 | the loop succeeds exactly for sources that meet the layer conditions, and maps every node to its image |
| DecodeSpecialization.SortedIsZeroBased | crates/compiler/src/decode.rs:669-677 | distinct identities sort to 0, 1, 2, … exactly when each is below their number |
| DecodeSpecialization.DescribeLayers | crates/compiler/src/decode.rs:669-712 | succeeds exactly when explicit identities leave no gap and the global window retains what legacy layers need |
| DecodeSpecialization.RewritingIsSound | crates/compiler/src/decode.rs:669-688 | after sorting, each attention node reads the layer that describes its own key operand, and no two read the same layer |
| DecodeSpecialization.ResultSlots | crates/compiler/src/decode.rs:713-721 | the rewritten roots are a coherent graph of new nodes with a valid slot table exactly when the source has one and one cursor device |
| GraphIndexes.IndexAccepts | crates/compiler/src/schedule.rs:374-408 | valid slots below coherent roots are exactly what building the graph index asks for |
| DecodeSpecialization.SelectOutputs | crates/compiler/src/decode.rs:732-790 | refuses exactly selected roots without a lane for each sequence; outputs come root by root |
| DecodeSpecialization.OutputsKeepSlots | crates/compiler/src/decode.rs:732-790 | selecting rows leaves the validity of the slot table as it was |
| DecodeSpecialization.SpecializeDecode | crates/compiler/src/decode.rs:311-804 | succeeds exactly for requests and graphs that meet the stated conditions, and then yields sound layers, a new cursor slot, the selected outputs, and valid slots exactly when the source has them and one cursor device |
| OutputRows.DescendSelects | crates/compiler/src/decode.rs:216-277 | a head rebuilt over one selected row computes that row of the head |
| OutputRows.PushedPicks | crates/compiler/src/decode.rs:212-290 | with one lane the pushed selection is the last row of the root exactly when the head does not read a slice that starts past zero |
| OutputRows.SelectRows | crates/compiler/src/decode.rs:736-787 | the loops build the selectors of all lanes, or their stack |
| OutputRows.SplitSelects | crates/compiler/src/decode.rs:736-774 | split outputs are the last rows of the lanes one by one, zeros for lanes without a sequence, exactly under that condition |
| OutputRows.BatchedSelects | crates/compiler/src/decode.rs:775-787 | the batched output is those rows in lane order, exactly under that condition |
| OutputRows.ShiftedSliceIsRefused | crates/runtime-cpu/src/executable.rs:2461-2466 | a root that is itself the second row of a table: the lane is taken from the slice, and a lane out of range fails the run |
| OutputRows.SelectionKeepsLeaves | crates/compiler/src/decode.rs:212-290 | outputs reach the leaves of their root and no others |
| Broadcasting.SumsTranspose | crates/autodiff/src/lib.rs:266-294 | adding entries up at places is the transpose of copying from those places |
| Broadcasting.SamePlace | crates/autodiff/src/lib.rs:278-285 | reading a right-aligned broadcast operand and reducing the repeated dimensions address the same element |
| Broadcasting.SumToShape | crates/autodiff/src/lib.rs:267-294 | a cotangent of higher or equal rank that the target broadcasts to is always reduced, and the result pairs with every tensor of the target shape as the cotangent does with its broadcast; a higher-rank target is refused |
| Broadcasting.ExpandingTransposesSum | crates/autodiff/src/lib.rs:298-316 | the adjoint of a sum, with and without kept dimensions: expanding is the transpose of summing |
| Broadcasting.ProductPullsBack | crates/autodiff/src/lib.rs:843-846 | the adjoint of an elementwise product of broadcast operands |
| BestFit.GapIsBest | crates/compiler/src/planner.rs:869-890 | a free range is found exactly when the request fits one; the one taken is of least length, ties going to the earlier segment, the lower offset and the earlier range, and the offset is the lowest aligned one |
| BestFit.TailIsBest | crates/compiler/src/planner.rs:902-926 | a tail is found exactly when some segment has room behind what is used; the one taken grows least in rounded capacity, ties going to the earlier segment |
| BestFit.PackOneChooses | crates/compiler/src/planner.rs:838-974 | a free range is preferred to any tail and a tail to a new segment, each the best of its kind once everything expired is retired |
| BestFit.EveryStepChooses | crates/compiler/src/planner.rs:838-974 | so every step of every packing run chooses the best place |
| Planner.AllocationsInOrder | crates/compiler/src/planner.rs:821-832 | exactly the planned values are allocated, by start and then by id |
| ReuseEdges.SharingMeans | crates/compiler/src/planner.rs:990-1006 | two allocations conflict in address when they have a byte in common, or one without bytes stands strictly inside the other |
| Planner.SharedBytesAreOrdered | crates/compiler/src/planner.rs:988-1033 | values with a byte in common are joined by an edge from the last instruction of one to the first of the other |
| ReuseEdges.OrderedEdges | crates/compiler/src/planner.rs:1025-1033 | edges are listed by the waiting instruction, the one waited for, and the two values, each once |
| FoldMeaning.StartsEncode | crates/compiler/src/ir.rs:284-291 | the bit patterns a fold starts from stand for zero, one and the two infinities |
| FoldMeaning.ReducedCell | crates/compiler/src/ir.rs:1204-1227 | in exact arithmetic a finished cell is the sum, product or mean of its fibre, or its greatest or least element and one of them |
| GeluMeaning.GeluComputes | crates/compiler/src/ir.rs:1048-1054 | in exact arithmetic the steps compute x/2 (1 + erf(c x)), where c is the number nearest to the inverse square root of two |
| GeluMeaning.GeluTanhComputes | crates/compiler/src/ir.rs:1055-1062 | and x/2 (1 + tanh(q (x + k x^3))), where k and q are the numbers nearest to the published constants |
| MaskMeaning.MinimumIsLeastFinite | crates/graph/src/semantic.rs:111-115 | the mask constant is minus the largest finite code of the format, read with its scale |
| MaskMeaning.HiddenKeysScoreBelow | crates/graph/src/semantic.rs:111-123 | where rounding keeps the order, a hidden key scores below every visible one of moderate size, and visible scores are not changed |
| Derivatives.TangentIsDerivative | crates/autodiff/src/lib.rs:835-1010 | away from kinks the tangent of the loss is the limit of its difference quotients as a leaf varies, and the only one |
| Derivatives.GradientIsDerivative | crates/autodiff/src/lib.rs:679-742 | what differentiation returns for an exposed leaf evaluates to the derivative of the loss |
| GraphIndexes.SlotsValidMeans | crates/compiler/src/schedule.rs:117-188 | valid slots by the fields of the leaves: inputs of one slot agree in shape, type, storage and device, scalars in type and device, and no lower slot is unused |
| GraphIndexes.IndexDescribesSlots | crates/compiler/src/schedule.rs:117-188 | the table holds every input and runtime scalar as it is, and nothing else |
| DecodedVisibility.NothingNeededIsDropped | crates/runtime-cpu/src/napi/attention_state.rs:366-375 | evicting never reaches a key that the layer still has to keep, at this and any later call |
| DecodedVisibility.ReadsAreSeen | crates/runtime-cpu/src/napi/attention_state.rs:298-309 | the range of keys a query reads is the set its source window admits and its configured retention keeps |
| DecodedVisibility.NodeReads | crates/compiler/src/decode.rs:437-487 | after any evictions the rewritten node reads exactly the keys its source node sees; layer, rounding, heads, type and retention are those of the source fields |
| DecodedVisibility.NodeIsNumbered | crates/compiler/src/decode.rs:452-453 | attention nodes without an identity are numbered in encounter order |
| DecodedVisibility.WindowFitsMeans | crates/compiler/src/decode.rs:704-712 | when every layer may forget, a global window is accepted exactly when it covers each layer that follows its window |
| DecodedVisibility.FamiliesAreDescribed | crates/compiler/src/decode.rs:512-590 | recurrence and convolution geometries are the dimensions of the operands of every such node |
| DecodedVisibility.RequestMeans | crates/compiler/src/decode.rs:311-343 | which layouts, selections, policies and root shapes are accepted, by their fields |
| DecodedVisibility.SpecializationReads | crates/compiler/src/decode.rs:311-804 | for every specialization all attention nodes read what they see, and eviction is allowed exactly when every layer may forget |
| HeadOperations.HeadsAreRowWise | crates/compiler/src/decode.rs:216-277 | an element of a head operation depends only on the row it stands in and on the other operands, which is why selecting first is right |
| ExpertLinear.ShapesMatch | crates/runtime-cpu/src/expert_linear.rs:14-22 | shapes are accepted exactly when they are rows by width, experts by columns by width, and rows |

## Left out

- The `u32` limits on ids and table sizes, and `usize` overflow outside alias normalization: ids and sizes are natural numbers.
- The planner report's split by category, its list of largest allocations and the fixed-storage totals; only peak and overhead are modelled.
- Placement.PackAllSucceeds: failures of offset arithmetic by overflow are not modelled.
- Autodiff.Grad: tensor shapes are not modelled; loss, targets and all nodes are zero-dimensional, so shape checks and broadcasting do not appear there; `Broadcasting` treats them apart, on tensors of reals.
- Autodiff.Grad: failures of node construction are not modelled; every node built from well-typed scalar operands is accepted.
- Autodiff.Grad: nothing is claimed for a target inside a checkpoint's region that is not exposed; there only its copy receives cotangents.
- AdjointRules.Propagate: `Erf`, `Gelu` and `Pow`, whose adjoints contain rounded constants, and the shape-changing, indexing, matrix, convolution, attention, normalization and optimizer operations are not modelled; operations without an adjoint appear as `Opaque` or `Barred`.
- ScalarGraph.TangentIsLocal: rounding is not modelled; a cast between floating-point types is the identity, and a quotient by zero is taken to be zero.
- Gradients through `SdpaConfigured` and `RotaryEmbeddingExplicit`, which differentiate a decomposition between its operand boundaries.
- SemanticPreparation.PrepareSemantics: failures of node construction inside a decomposition are not modelled.
- TensorGraph.MeaningsAgree: arithmetic, its rounding, and dot products and reductions of a line are parameters; fused attention is an operation of its own, which the fused configuration is defined to mean.
- GraphIndexes.NewIndex: generated-leaf bindings and random-source tables, which are filters of the postorder, are not modelled, nor is saturation of the edge counter.
- GroupedExperts.MultiplyGroup: the tiled matrix kernel is not part of this model; each element is taken to be a function of its row and column.
- ExpertLinear.ExpertLinearRowsInto: the choice between F32 and BF16 storage is a type parameter, so the mismatch error between storages is not modelled.
- KernelExprs.FlattenInto: the unary and binary operations are grouped into one constructor each with an operation tag.
- HalfRounding.CorrectlyRounded: NaN payloads are not modelled beyond the NaN class.
- The optimizer expression builders, `pow_expr`, iterative destruction of expressions, and the owning wrappers around the interpreters.
- DecodeSpecialization.SpecializeDecode: failures of node construction, attention scales and rotary parameters are not modelled; they are carried over unchanged.
- OutputRows.SplitSelects: every run has at least one sequence, as the runtime requires; so with one lane that lane is active.
- DecodeSteps.StepRewrites: metadata of a rebuilt node is inferred from the operation it had before it became stateful, which has the same shape, type and device; metadata inference itself is a parameter.
- CursorPositions.TensorPositionsRead: the bounds of the gather and the width of the cursor are not modelled.
- Legalization tables, capabilities, requests, drivers and diagnostics, and `vmap`.
- The slice adjoint with a stride other than one, whose padding does not restore the input length in general.
- Derivatives.TangentIsDerivative: nothing is claimed at kinks, for a leaf that reaches the loss through a stopped gradient, or through operations that are refused.
- FoldMeaning.ReducedCell: rounding in a fold, and sums and products with infinite elements, are not described; what the method does for every arithmetic is in `FusionRun.InterpretReduceCoreInto`.
- MaskMeaning.HiddenKeysScoreBelow: scores of a quarter of the largest finite value or more may overflow when the mask is added.
- DecodedVisibility.ReadsAreSeen: the values read, lanes of one call, blocks of the cache and its capacity are not modelled; a layer with a retention of its own is described for pools that have a descriptor for each layer.
- HeadOperations.HeadsAreRowWise: a linear map is a function of one input row for each column.
