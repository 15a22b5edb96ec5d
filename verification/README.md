# A verified model of Triton's layout, memory and kernel algorithms

This project models, in Dafny, the compiler analyses and the tutorial and FlagGems kernels of this
repository whose correctness is not visible from the code alone, and proves what they are for. The
files fall into seven groups.

**Linear layouts** (`F2Matrix`, `Words`, `Rref`, `Rank`, `MatrixRank`, `Pigeonhole`, `Layout`,
`LayoutMatrix`, `LayoutRank`, `FreeVariables`, `Reshape`, `ComposeSpec`, `InvertMatrix`,
`ComposeChoice`, `InvertAndCompose`, `Product`, `Quotient`, `DiagonalDims`, `Composition`,
`CompositionExact`, `ConvertLayout`, `LayoutExamples`). A layout is a xor-linear map given by basis
vectors. `apply` is shown to be multiplication by the layout's bit matrix; everything the class
decides goes through Gaussian elimination in place on that matrix, and is proved back as a statement
about `apply`. Findings, with exact conditions:

* `invertAndCompose` dies on its identity check exactly when the leading bases of `outer` (as many as
  the padded elimination looks at) are linearly dependent. That includes layouts the header explicitly
  allows, where two offsets hold the same index (`LayoutExamples.NonInjectiveOuterFails`). Linearly
  independent non-zero bases are enough to rule it out.
* The assertions of `invertAndCompose` let `outer` have larger out-dimensions than `this`, but the
  rows of the two matrices then do not line up. The answer is right at every coordinate exactly if
  every basis of `this` flattens to the same bits under both sizes and, where `outer` has more out
  bits, none is zero; equal sizes guarantee it (`ComposeSpec.CorrectIffAligned`,
  `LayoutExamples.WiderOuterIsMisaligned`).
* The documented "surjective if and only if" of `compose` holds for every inner layout exactly if
  `outer` is one-to-one or not surjective (`CompositionExact.PromiseIff`).
* Of all answers that `outer` allows, `invertAndCompose` picks the one that sends the zero bases of
  `this` to those of `outer` one by one, and no other basis to one of these
  (`ComposeChoice.AnswersChoose`).
* `cvtReordersRegisters` answers yes exactly when the conversion keeps lane, warp and block, the new
  register depends on the register alone, and lane, warp and block have equal sizes on both sides.

**Shared-memory allocation** (`Intervals`, `Placement`, `Coloring`, `Sharing`, `AllocationAnalysis`,
`SharingOverlap`). The placement phase never runs out of triples; the loop that colours and moves
buffers ends, by a weight that every pass but the last lowers, and leaves no two conflicting buffers
in overlapping memory. The live ranges of the other members of a sharing group are not considered by
the code (its FIXME at `lib/Analysis/Allocation.cpp:532`). Sharing is safe against every other buffer
exactly if the member always fits into the representative's memory, for every offset that the
representative's alignment allows, and the representative is live whenever the member is and in the
same regions, or live all the time, or in more than one region (`Sharing.MemberSafeIff`). Otherwise
there are buffers for which `computeOffsets` itself leaves the member in conflict with another one
(`SharingOverlap.ShareUnsafely`): for a representative live in [0, 1) and a member live in [5, 6), of
four bytes each and in one region, a buffer of four bytes live in [5, 6) is placed at offset 0 like
the representative, and the member follows.

**Barrier insertion** (`MembarSpec`, `Membar`, `MembarResolve`, `MembarBounds`, `MembarDrains`,
`MembarLoop`, `MembarHeaded`, `MembarQuiet`, `MembarHazards`, `MembarSafety`, `MembarAnalysis`,
`Acyclic`). When the worklist drains, on no path of any length through the rewritten function do two
operations touch common memory, one of them writing it, without a barrier or a scratch operation
between them, and the function is unchanged exactly if that, and a barrier behind every async wait,
held before. The worklist need not drain. It does if every cycle that can be reached has a block with
a barrier, an operation with a scratch buffer or an async wait, or a block none of whose operations
conflicts with anything the function accesses (`MembarDrains.SteadyCyclesDrain`); a block without
accesses, like the header of a lowered `scf.for`, is one (`MembarDrains.SilentCyclesDrain`). It also
does on every function that needs no barrier (`MembarQuiet.NeedsNothingDrains`), and for a loop of a
header and a body block whatever they access (`MembarHeaded.HeadedLoopDrains`). For a loop of one
block that branches back to itself, between any blocks before and after it, `MembarLoop.LoopDrainsIff`
says exactly when it does, in terms of the loop's operations: the loop synchronizes or gets a barrier
at its first visit, or no operation of it conflicts with what one round leaves pending, or all that is
accessed again from the first such operation on. Such a loop that reads one buffer and then writes
another is none of these and keeps the analysis going for ever
(`MembarLoop.ReadThenWriteLoopNeverDrains`); with a header in front it ends.

**Topological sort, reshapes** (`TopoSortSpec`, `TopoSort`, `ReshapeDecomposition`). One search closes
the set of numbered operations under operands, ancestors, users and region contents, so the reversed
order in which roots are recorded does no harm. `getReshapeDecomposition` takes an empty source only
with an empty destination, but accepts the reverse.

**Kernels** (`LayerNormLock`, `LayerNormGradient`, `LayerNormWeights`, `LayerNorm`, `Softmax`,
`Attention`, `CausalAttention`, `Matmul`): a lock protocol under every interleaving, the gradients of
layer norm for inputs, weights and biases against the change of its forward pass, online softmax
against plain attention, and a grouped tiling that is a bijection. The causal mask of the attention
kernel is a finite bias, so a key after the query keeps the fraction exp2(-1e6) of its weight; the
model keeps the bias as it is and bounds what it does to the output (`CausalAttention.CausalOutput`).

**Copies** (`Strided`, `CopyKernel`, `BroadcastCopy`, `Concatenate`): strided views, broadcasting and
concatenation. `copy_` returns early when both tensors start at the same address, before it checks
their shapes. That is right exactly when the shapes broadcast and every element already is where it
should go (`BroadcastCopy.EarlyReturnIff`).

**Alignment** (`Divisibility`, `AxisInfo`, `HintsTight`, `SignedDivision`): the constancy, contiguity
and divisibility hints for division, remainder, comparison and multiplication. The visitors treat
signed and unsigned operations alike; for signed ones, which truncate toward zero, the hints of
division and remainder hold exactly if no group starts at a negative multiple of the divisor
(`SignedDivision.DivIsConstantIff`). Where a contiguous operand meets a constant one, the hints are
the largest that follow; for the remainder of a dividend that is contiguous in shorter groups 1 is
reported, although more is true (`HintsTight.RemCouldSayMore`). `Arith` holds facts about products and
quotients, `Wrappers` the option type and facts about sequences.

Words that hold matrix rows are sequences of bits, lowest bit first. Dimension sizes are powers of two
and kept as their logarithm. Arithmetic is exact: integers where the source has machine integers, and
reals where it has floating point; `exp2` and `log2` are any two functions with the laws of powers and
logarithms. Classes and arrays stand where the source updates objects and buffers in place; such a
method is proved against a function of the old state, and the lemmas are about that function. Fatal
errors, assertions and `TORCH_CHECK`s that callers can meet are results of the model's methods.

## Model

| member | source | states |
|---|---|---|
| Rref.InplaceRrefSmall | third_party/f2reduce/f2reduce.cpp:430-465 | In-place elimination ends in reduced row echelon form (leading columns strictly increasing and alone in their column, zero rows last), reached by row operations only. |
| Rref.InplaceRref | third_party/f2reduce/f2reduce.cpp:471-489 | The same for the entry point, which leaves matrices of at most one row alone. |
| Rank.RankDecidesOnto | lib/Tools/LinearLayout.cpp:142-160 | The non-zero rows left after elimination number as many as all rows iff every vector of row values is produced by some input. |
| MatrixRank.InOutputs | lib/Tools/LinearLayout.cpp:142-160 | The outputs that are counted are exactly the vectors that some input produces. |
| MatrixRank.RankCountsOutputs | lib/Tools/LinearLayout.cpp:142-160 | A matrix whose elimination leaves r non-zero rows produces exactly 2^r different vectors. |
| MatrixRank.RankIsUnique | lib/Tools/LinearLayout.cpp:142-160 | Any two eliminations of one matrix leave the same number of non-zero rows. |
| Rank.UniquePreimage | lib/Tools/LinearLayout.cpp:957-990 | Each value that the matrix produces has exactly one preimage whose free bits are all 0. |
| LayoutMatrix.ApplyIsMatVec | lib/Tools/LinearLayout.cpp:795-811 | Applying a layout is multiplying its matrix with the flattened coordinate. |
| LayoutRank.GetMatrix | lib/Tools/LinearLayout.cpp:70-113 | The array that is filled bit by bit is the matrix whose columns are the flattened bases. |
| LayoutRank.GetMatrixRank | lib/Tools/LinearLayout.cpp:142-160 | The rank counted after in-place elimination is the number of rows iff the matrix is onto, and 2^rank is the number of its outputs. |
| LayoutRank.SurjectiveIffOnto | lib/Tools/LinearLayout.cpp:356-369 | Every out coordinate is reached by an in coordinate iff the matrix is onto. |
| LayoutRank.ShapeAcceptedIff | lib/Tools/LinearLayout.cpp:306-353 | The checks on shape pass iff the input spells out a layout: non-negative bases of one width, below out sizes that are powers of two. |
| LayoutRank.CheckInvariants | lib/Tools/LinearLayout.cpp:306-377 | Reports the first violated condition, otherwise marks the layout surjective iff every out coordinate is reached, and fails iff surjectivity is required and absent. |
| FreeVariables.MasksSelect | lib/Tools/LinearLayout.cpp:957-990 | Masking the free columns leaves rank-many bits and exactly one unmasked preimage per output. |
| FreeVariables.BasicVariables | lib/Tools/LinearLayout.cpp:968-976 | The set collected from the rows holds exactly the leading columns. |
| FreeVariables.BuildMasks | lib/Tools/LinearLayout.cpp:978-989 | The masks per dimension, flattened, have a 1 exactly at the columns outside the given set. |
| FreeVariables.GetFreeVariableMasks | lib/Tools/LinearLayout.cpp:957-990 | Every output has one and only one preimage with all masked bits 0; 2^(unmasked bits) is the number of outputs. |
| Reshape.TransposeOutsKeeps | lib/Tools/LinearLayout.cpp:497-523 | Reordering out-dimensions changes no value. |
| Reshape.ReshapeInsKeeps | lib/Tools/LinearLayout.cpp:525-555 | Regrouping in-dimensions keeps the flattened function. |
| Reshape.ReshapeOutsKeeps | lib/Tools/LinearLayout.cpp:557-601 | Regrouping out-dimensions keeps the flattened function. |
| InvertAndCompose.GetInjectiveMat | lib/Tools/LinearLayout.cpp:115-137 | The padded matrix is the layout's matrix followed by one unit row per zero column, in column order. |
| InvertAndCompose.CombineMatrices | lib/Tools/LinearLayout.cpp:891-903 | The two padded matrices stand side by side, missing rows filled with zeros. |
| InvertMatrix.IndependentColumnsSuffice | lib/Tools/LinearLayout.cpp:115-137 | If the non-zero columns are linearly independent, the leading columns of the padded matrix are. |
| InvertMatrix.Run.AnswerIsPreimage | lib/Tools/LinearLayout.cpp:914-940 | When the identity check passes, each column read off is mapped by `outer` to the corresponding column of `this`. |
| InvertMatrix.Run.AnswerAtZero | lib/Tools/LinearLayout.cpp:862-888 | Column c read off has a 1 at the k-th zero column of `outer` iff c is the k-th zero column of `this`. |
| ComposeChoice.AnswersChoose | lib/Tools/LinearLayout.cpp:862-888 | So the image of a basis of `this` has a 1 at the k-th zero basis of `outer` iff it is the k-th zero basis of `this` itself (counted after those taken by out bits that `this` lacks), and no image but that of a zero basis past the last one ends there. |
| ComposeChoice.ChoiceIsUnique | lib/Tools/LinearLayout.cpp:862-888 | No other answer is right and makes that choice: two that do agree at every coordinate. |
| ComposeChoice.ChosenIsOneToOne | lib/Tools/LinearLayout.cpp:862-888 | For equal out sizes the result is one-to-one if the non-zero bases of `this` are independent and it has no more zero bases than `outer`. |
| InvertMatrix.Run.PassedIffIndependent | lib/Tools/LinearLayout.cpp:915-923 | The identity check passes iff the leading columns of the padded outer matrix are linearly independent. |
| ComposeSpec.EqualSizesAligned | lib/Tools/LinearLayout.cpp:887-903 | Equal out-dimension sizes put the rows of both matrices in line. |
| ComposeSpec.CorrectIffAligned | include/triton/Tools/LinearLayout.h:639-672 | outer(composed(x)) == this(x) for every x iff the two layouts are aligned. |
| InvertAndCompose.InvertAndCompose | lib/Tools/LinearLayout.cpp:843-955 | Fatal iff the leading bases of `outer` are dependent; otherwise the result has the dimensions asked for, satisfies outer(C(x)) == this(x) for all x iff the layouts are aligned, and sends exactly the k-th zero basis of `this` to the k-th of `outer`. |
| LayoutExamples.NonInjectiveOuterFails | include/triton/Tools/LinearLayout.h:668-671 | A surjective outer layout in which two offsets hold one index passes every assertion and fails the identity check. |
| LayoutExamples.WiderOuterIsMisaligned | lib/Tools/LinearLayout.cpp:843-903 | A pair of layouts that the assertions accept and whose rows do not line up. |
| LayoutExamples.SurjectiveWithoutSurjective | include/triton/Tools/LinearLayout.h:633-635 | A surjective composition whose first layout is not surjective. |
| Composition.ComposeApplies | lib/Tools/LinearLayout.cpp:813-841 | The composition's value at x is outer's value at this layout's value at x. |
| Composition.ComposeSurjective | lib/Tools/LinearLayout.cpp:834-840 | Surjectivity required of the result when both layouts have it and sizes match never fails; a surjective composition has a surjective outer layout. |
| Composition.ComposeSurjectiveIff | include/triton/Tools/LinearLayout.h:633-635 | For a one-to-one outer layout, the composition is surjective iff both are and the sizes match. |
| CompositionExact.PromiseIff | include/triton/Tools/LinearLayout.h:633-635 | The documented equivalence holds for every inner layout iff outer is one-to-one or not surjective. |
| Product.MergedDims | lib/Tools/LinearLayout.cpp:610-620 | The product's dimensions are the union of the names, each with the sum of the bits. |
| Product.TimesIsDirectSum | lib/Tools/LinearLayout.cpp:603-658 | The product's value is inner's value of the low bits plus outer's value of the high bits shifted by inner's out bits, whatever names overlap. |
| Product.TimesSurjective | lib/Tools/LinearLayout.cpp:652-658 | A product is surjective iff both factors are. |
| Quotient.TrivialSplits | lib/Tools/LinearLayout.cpp:660-692 | A layout that is trivial over some dimensions is the direct sum of its two diagonal blocks. |
| Quotient.TrivialOverOne | lib/Tools/LinearLayout.cpp:694-793 | A dimension that can be divided off is copied by the layout, and the quotient computes all other out-dimensions. |
| DiagonalDims.DiagonalIsTrivial | lib/Tools/LinearLayout.cpp:660-793 | A dimension that the bases copy and no others touch can be divided off iff it has one size on both sides. |
| DiagonalDims.TrivialIff | lib/Tools/LinearLayout.cpp:694-793 | Dividing a dimension off succeeds iff its bases and no others touch its out-dimension, each its own bit, and it has one size on both sides. |
| ConvertLayout.DropSucceeds | lib/Analysis/Utility.cpp:660-668 | If a conversion only moves registers and sizes agree, dividing off lane, warp and block succeeds. |
| ConvertLayout.DropIff | lib/Analysis/Utility.cpp:660-668 | After some dimensions have been divided off, another one can be iff the whole conversion already copied it and its sizes agree. |
| ConvertLayout.MinimalCvtLayout | lib/Analysis/Utility.cpp:649-670 | Block is divided off iff the conversion copies it at equal sizes; warp iff that holds of block and warp, lane iff of block, warp and lane, register iff of all four; dropped dimensions are copied, what is left keeps its order and computes the others. |
| ConvertLayout.CvtReordersRegisters | lib/Analysis/Utility.cpp:672-681 | Yes iff at every position the conversion keeps lane, warp and block, positions with one register get one register whatever their lane, warp and block are, and the sizes of lane, warp and block agree; the source element there is the destination's iff the layouts are aligned. |
| ConvertLayout.CvtNeedsWarpShuffle | lib/Analysis/Utility.cpp:683-692 | Yes iff block and warp can be divided off, lane cannot, and register is listed before lane. |
| Placement.Buffer.SetOffsetAligned | include/triton/Analysis/Allocation.h:201-203 | The offset becomes the next multiple of the alignment. |
| Placement.SplitKeepsMet | lib/Analysis/Allocation.cpp:623-633 | After a buffer is placed, whoever intersected a triple still intersects one: the three parts cover the popped range. |
| Placement.DropKeepsMet | lib/Analysis/Allocation.cpp:603-616 | After a triple that no buffer fits is dropped, every unplaced buffer that intersected a triple still intersects one. |
| Placement.CalculateStarts | lib/Analysis/Allocation.cpp:580-637 | Terminates with every buffer given an aligned offset exactly once, never takes the first of an empty map, and the offsets are those of the specification function. |
| Coloring.BuildInterferenceGraph | lib/Analysis/Allocation.cpp:641-681 | x and y are joined iff their memory overlaps and their live ranges do or they are in different regions; buffers without neighbours are absent. |
| Coloring.InterferesIff | lib/Analysis/Allocation.cpp:641-681 | Two buffers do not interfere iff the bytes of one end before those of the other start, or its live range does and both are in one and the same region or in none. |
| Coloring.ColourBuffers | lib/Analysis/Allocation.cpp:693-708 | On a symmetric graph buffers that are joined get different colours; a colour is not 0 iff an earlier neighbour has colour 0. |
| Coloring.BumpLowersWeight | lib/Analysis/Allocation.cpp:552-564 | A pass that moves some buffer lowers the weight built from the number of earlier buffers whose end is past each offset. |
| AllocationAnalysis.RecolourAndMove | lib/Analysis/Allocation.cpp:684-725 | A buffer moves iff it is joined to an earlier one that stays, and then to the first aligned offset at or past the ends of all buffers it is joined to, earlier ones at their new offsets; nothing moves iff the graph is empty; the largest end is computed. |
| AllocationAnalysis.AllocationAnalysis.Allocate | lib/Analysis/Allocation.cpp:684-725 | The same, with sharedMemorySize the largest end of all buffers. |
| AllocationAnalysis.AllocationAnalysis.Settle | lib/Analysis/Allocation.cpp:559-564 | The repeated passes end, and then any two buffers have disjoint bytes, or disjoint live ranges in one and the same region or none; sharedMemorySize is the largest end; buffers that were apart at the start stay where they were. |
| Sharing.CoveredMemberIsSafe | lib/Analysis/Allocation.cpp:532-575 | A covered member of a sharing group conflicts with nothing that its representative does not conflict with. |
| Sharing.MemberSafeIff | lib/Analysis/Allocation.cpp:532-575 | Sharing is safe against every other buffer at every aligned offset iff the member's size plus its alignment, less the common divisor of both alignments, is at most the representative's size, and the representative has the member's regions and is live whenever the member is, or is live all the time, or has more than one region. |
| SharingOverlap.StartsTogether | lib/Analysis/Allocation.cpp:580-637 | Placement starts two buffers that are live at different times both at offset 0. |
| SharingOverlap.StartsOfTwo | lib/Analysis/Allocation.cpp:580-637 | Two buffers start together iff they are live at different times; otherwise the second starts at the first aligned offset past the first. |
| SharingOverlap.StartsOfThree | lib/Analysis/Allocation.cpp:580-637 | Three buffers of one size, of which the last is live with the first but not with the second, start at 0, size and size: free memory above a buffer is only known while both are live. |
| SharingOverlap.StartsStacked | lib/Analysis/Allocation.cpp:580-637 | Placement puts buffers that are live at the same time on top of each other. |
| SharingOverlap.ShareAtOtherTimes | lib/Analysis/Allocation.cpp:511-577 | If times and regions are not covered, there is one more buffer that `computeOffsets` leaves in the member's memory, and both are live at one time if the group is in one region. |
| SharingOverlap.ShareUnsafely | lib/Analysis/Allocation.cpp:511-577 | For every representative and member for which sharing is not safe there are further buffers, and where `computeOffsets` leaves them (placed buffers at their starts if these are apart, members at their representative) the member is in conflict with one of them. |
| AllocationAnalysis.AllocationAnalysis.ComputeOffsets | lib/Analysis/Allocation.cpp:511-577 | Placed buffers are aligned and within sharedMemorySize, any two have disjoint bytes or disjoint live ranges in the same region, and they stay where placement put them if they are apart there; group members sit at their representative's offset; if groups are covered, the same holds of all buffers of different groups and all fit. |
| MembarSpec.CleanIffSeparated | include/triton/Analysis/Membar.h:26-75 | Stepping through a run with sets of pending accesses finds no conflict iff every conflicting pair of accesses in the run has a barrier between its two ends. |
| MembarHazards.ConflictsIffHazard | include/triton/Analysis/Membar.h:26-75 | Two operations conflict iff they touch common memory and the later one reads what the earlier wrote, or writes what it read or wrote, where a scratch buffer is written first and has been written and read at the end, unless the filter excludes the pair. |
| MembarHazards.SeparatedIffGuarded | lib/Analysis/Membar.cpp:101-185 | Conflicts along a run are separated iff between any two operations with such a hazard there is a barrier or an operation with a scratch buffer. |
| MembarHazards.PendingIff | lib/Analysis/Membar.cpp:101-185 | What is pending after a run are exactly the accesses that no barrier or scratch operation follows. |
| Membar.RewriteIsClean | lib/Analysis/Membar.cpp:101-185 | A visited block starts no conflicting access from the given pending set. |
| Membar.UnchangedIff | lib/Analysis/Membar.cpp:101-185 | A visit changes nothing iff nothing conflicted and a barrier follows every async wait. |
| Membar.RewriteExtends | lib/Analysis/Membar.cpp:101-185 | A visit only inserts barriers: the operations stay, in their order. |
| MembarResolve.StepKeepsInvariant | lib/Analysis/Membar.cpp:44-71 | Each worklist turn keeps: settled blocks are clean from their input and flow into their output, and outputs are part of successors' inputs or those are queued. |
| MembarResolve.PathsAreClean | lib/Analysis/Membar.cpp:21-71 | With the worklist empty, nothing conflicts along any path of any length, and what is pending at its end is part of the last block's output. |
| MembarResolve.DrainedIsSeparated | lib/Analysis/Membar.cpp:21-71 | With the worklist empty, every two accesses on any path that conflict by the pending sets have a barrier between them. |
| MembarSafety.DrainedIsSafe | lib/Analysis/Membar.cpp:21-71 | With the worklist empty, on any path operations i < j of which one writes memory that both touch, unless filtered, have a barrier or a scratch operation strictly between them, and a barrier follows every async wait that can be reached. |
| MembarDrains.SyncFixes | lib/Analysis/Membar.cpp:58-63 | A block with a sync leaves the same accesses pending at every later visit, whatever is pending before it. |
| MembarDrains.SteadyCyclesDrain | lib/Analysis/Membar.cpp:44-71 | The worklist drains if every cycle that can be reached has a block that synchronizes or none of whose operations conflicts with anything the function accesses. |
| MembarDrains.SilentCyclesDrain | lib/Analysis/Membar.cpp:44-71 | In particular if every such cycle has a block without shared memory accesses, as loops lowered from scf.for do. |
| MembarHeaded.HeadedLoopDrains | lib/Analysis/Membar.cpp:44-71 | For a loop of a header and a body block the worklist drains, whatever the two and the blocks around them access. |
| MembarDrains.SyncedCyclesDrain | lib/Analysis/Membar.cpp:44-71 | The worklist drains if every cycle that can be reached has a block with a barrier, a scratch operation or an async wait. |
| MembarDrains.AcyclicDrains | lib/Analysis/Membar.cpp:44-71 | On an acyclic graph the worklist drains. |
| MembarLoop.SecondVisit | lib/Analysis/Membar.cpp:58-66 | Visited with all its accesses pending, a block without a sync leaves all of them, or those from the first conflicting operation on. |
| MembarLoop.LoopDrainsIff | lib/Analysis/Membar.cpp:44-71 | For a loop of one block, which branches back to itself, between any other blocks the worklist drains iff the loop synchronizes or gets a barrier at its first visit, or no operation conflicts with what a round leaves pending, or all of that is accessed again from the first such operation on. |
| MembarLoop.LoopSettlesIff | lib/Analysis/Membar.cpp:44-71 | As accesses are known by their operation: a loop that gets no sync at its first visit settles iff no operation conflicts, or nothing is pending on entry and the first conflicting operation is the first to access shared memory. |
| MembarLoop.ReadThenWriteLoopNeverDrains | lib/Analysis/Membar.cpp:58-70 | For a one-block loop behind an entry block without predecessors that reads one buffer and writes a disjoint one, the worklist never drains. |
| MembarQuiet.UnchangedIffNeedsNothing | lib/Analysis/Membar.cpp:21-71 | Whenever the worklist is empty, the function is unchanged iff all conflicting accesses were separated on every path and every async wait that can be reached was fenced. |
| MembarSafety.UnchangedIffSafe | lib/Analysis/Membar.cpp:21-71 | The function is unchanged iff it was safe in that sense before, so no function gets a barrier that needed none. |
| MembarQuiet.NeedsNothingDrains | lib/Analysis/Membar.cpp:44-71 | On such a function the worklist drains, loops or not. |
| MembarAnalysis.ResolveEnds | lib/Analysis/Membar.cpp:44-71 | The run that `Resolve` describes ends on every function whose cycles each have such a block, and on every one that needs nothing. |
| MembarAnalysis.MembarAnalysis.Update | lib/Analysis/Membar.cpp:101-185 | One operation is replaced in the block by itself with the barriers it needs: one is inserted iff it is an async wait without a barrier behind it or a pending access endangers it; the pending set is what flows out; false only for a scratch operation with other accesses. |
| MembarAnalysis.MembarAnalysis.VisitBlock | lib/Analysis/Membar.cpp:50-56 | Editing the block operation by operation gives exactly the rewritten block and its flow, and fails iff some operation is not supported. |
| MembarAnalysis.MembarAnalysis.Turn | lib/Analysis/Membar.cpp:44-71 | One turn of the loop is one step of the specified state machine. |
| MembarAnalysis.MembarAnalysis.Resolve | lib/Analysis/Membar.cpp:21-80 | On every function on which the run ends: only barriers were added, none iff the function was safe; on every path any read after write, write after read and write after write of common memory has a barrier or a scratch operation in between; what any path to a return accesses after its last barrier is reported; fatal only for an operation that is not supported. |
| MembarAnalysis.MembarAnalysis.ResolveWithin | lib/Analysis/Membar.cpp:21-80 | The same on every function for a bounded number of turns, given up iff the worklist has not drained by then. |
| TopoSortSpec.TouchedIsSeen | lib/Analysis/Utility.cpp:802-827 | When both queues are empty, every operation that was examined has been numbered. |
| TopoSortSpec.FinishedIsClosed | lib/Analysis/Utility.cpp:802-827 | A finished search has closed `seen` under operands, ancestors, users and region contents. |
| TopoSortSpec.NewIsIndependent | lib/Analysis/Utility.cpp:843-857 | What one search numbers depends on nothing that an earlier search numbered. |
| TopoSortSpec.OrderSorts | lib/Analysis/Utility.cpp:829-857 | Picking the wanted operations from an order with dependencies first gives a permutation of them in which all, even indirect, dependencies come first. |
| TopoSort.DFSSubgraphState.PushBack | lib/Analysis/Utility.cpp:746-752 | The queue grows by the operation iff it was not queued. |
| TopoSort.DFSSubgraphState.PopFront | lib/Analysis/Utility.cpp:754-759 | The first operation leaves the queue and its set. |
| TopoSort.DFSState.AddToReadyQueue | lib/Analysis/Utility.cpp:779-799 | Queues exactly the unseen operands and ancestors, and the operation itself iff there are none. |
| TopoSort.DfsPostorder | lib/Analysis/Utility.cpp:802-833 | Terminates on any acyclic graph, numbers the root, closes `seen`, numbers new operations after what they depend on, and records those to be sorted, last first. |
| TopoSort.MultiRootTopologicalSort | lib/Analysis/Utility.cpp:837-858 | If no operation needs itself through operands and enclosing operations, returns a permutation of the argument in which every operation comes after all it needs in that way, through operations to be sorted or others. |
| ReshapeDecomposition.GetReshapeDecomposition | lib/Analysis/Utility.cpp:324-360 | For positive shapes of equal product an assertion fails iff only the source is empty; otherwise groups list 0..n-1 and 0..m-1 in order, the sides of each group have equal products, and no group splits further. |
| LayerNormLock.StepKeepsInvariant | python/tutorials/05-layer-norm.py:150-187 | Any step of any program keeps: one holder per taken lock, count 0 iff nobody has passed the count test, each buffer the sum of the stored partials of its group. |
| LayerNormLock.RunKeepsInvariant | python/tutorials/05-layer-norm.py:150-187 | The same at the end of every interleaving. |
| LayerNorm.StepsRunOut | python/tutorials/05-layer-norm.py:175-187 | Every step that is not a failed attempt on a lock lowers the work left. |
| LayerNorm.SomeoneMoves | python/tutorials/05-layer-norm.py:175-187 | No deadlock: until all programs have finished, some program can make a step that is not a failed attempt. |
| LayerNorm.RunsEnd | python/tutorials/05-layer-norm.py:175-187 | In every run, steps other than failed attempts are bounded by the work at the start. |
| LayerNorm.FinishedBuffer | python/tutorials/05-layer-norm.py:150-187 | When all have finished, each used buffer holds the sum of the partials of the rows r with r % groups equal to its number. |
| LayerNorm.GroupsCoverRows | python/tutorials/05-layer-norm.py:283-286 | The sums of the first min(groups, rows) groups add up to the sum over all rows. |
| LayerNorm.DwDb | python/tutorials/05-layer-norm.py:190-214 | A program sums its columns over exactly the first m rows and leaves other columns alone. |
| LayerNormGradient.FormulaIsGradient | python/tutorials/05-layer-norm.py:162-169 | For every direction, the inner product of dx with it is the change of the row's loss by the derivatives of mean, variance, 1/std and normalized row. |
| LayerNormGradient.GradientIsUnique | python/tutorials/05-layer-norm.py:162-169 | Only one vector is the gradient of a row with statistics as the forward pass stores them. |
| LayerNormGradient.RowGradient | python/tutorials/05-layer-norm.py:144-171 | What a row's program stores to DX is the gradient of its row, with masked lanes adding nothing. |
| LayerNormGradient.GradientOfLoss | python/tutorials/05-layer-norm.py:46-92 | dx is the change of the row loss, with the forward output (x - mean) * rstd * w + b written out, along every direction of the input. |
| LayerNormWeights.SumsAreGradients | python/tutorials/05-layer-norm.py:144-214 | From any weights and biases and along every direction, the loss of the forward pass (x - mean) * rstd * w + b changes by the inner products with the column sums of dy * xhat and of dy. |
| LayerNormWeights.WeightGradientsAreUnique | python/tutorials/05-layer-norm.py:190-214 | No other vectors have that property. |
| LayerNormWeights.NormalizedRow | python/tutorials/05-layer-norm.py:46-92 | The normalized row sums to 0, and its square times variance + eps sums to n times the variance. |
| LayerNorm.Backward | python/tutorials/05-layer-norm.py:255-287 | dx is the gradient of every row; after any run of the row programs to the end, dw and db are the gradients of the loss by weights and biases. |
| Softmax.AbsorbTracks | python/tutorials/06-fused-attention.py:57-74 | Taking in a block rescales sums and weighted sums so that they stand for all columns so far, whatever new reference is chosen. |
| Softmax.AbsorbKeepsMax | python/tutorials/06-fused-attention.py:54-74 | If the reference is the maximum of the old one and the block's, it is the largest score of all columns so far. |
| Softmax.OutputIsAttention | python/tutorials/06-fused-attention.py:184-189 | acc / l is plain softmax attention over the columns visited, and m + log2(l) the logarithm of their total weight. |
| Attention.AttnFwdInner | python/tutorials/06-fused-attention.py:28-77 | One stage extends every row's columns by exactly the columns of its range, in whole blocks. |
| Attention.AttnFwd | python/tutorials/06-fused-attention.py:100-189 | With scores scaled by sm_scale * 1.44269504, every row stores plain attention over the columns visited by its stages and the logarithm of their total weight; the initial l = 1, m = -inf leave no trace. |
| Attention.CausalColumns | python/tutorials/06-fused-attention.py:35-39 | If BLOCK_N divides BLOCK_M, the two causal stages visit each column up to the end of the tile once, biased exactly where the query comes before the key. |
| Attention.FullColumns | python/tutorials/06-fused-attention.py:40-46 | Without causal mask each key is visited once, if BLOCK_N divides their number. |
| Attention.MaskedWeight | python/tutorials/06-fused-attention.py:51-53 | The score of a key after the query is lowered by 1000000, so it keeps exactly the fraction exp2(-1000000) of its weight, which is not 0. |
| CausalAttention.MaskedMass | python/tutorials/06-fused-attention.py:50-55 | If the scores of a row differ by at most b, its masked keys weigh at most (their number) * exp2(b - 1000000) times what the keys up to the query weigh. |
| CausalAttention.CausalOutput | python/tutorials/06-fused-attention.py:158-189 | So the stored row is attention over the keys up to the query with an error of at most 2 * v * BLOCK_M * exp2(b - 1000000), where no value exceeds v. |
| CausalAttention.FullOutput | python/tutorials/06-fused-attention.py:158-189 | Without the mask, if BLOCK_N divides N_CTX, the stored row is attention over all keys, and the logarithm that of their total weight. |
| Attention.LoadsInContext | python/tutorials/06-fused-attention.py:121-146 | No key at or past N_CTX is loaded without a causal mask iff BLOCK_N divides N_CTX; no program's tile ends past N_CTX iff BLOCK_M divides it. |
| Attention.ReachIsRange | python/tutorials/06-fused-attention.py:46 | The block loop stops exactly at the end of the range iff the block size divides the range. |
| Matmul.TileInRange | python/tutorials/03-matrix-multiplication.py:265-273 | The group a program falls into is never empty and the tile lies in the grid, also in a short last group. |
| Matmul.PidOfTile | python/tutorials/03-matrix-multiplication.py:265-273 | pid to tile is one-to-one: an inverse recovers the pid. |
| Matmul.TileOfPid | python/tutorials/03-matrix-multiplication.py:265-273 | ... and onto: each tile has a pid in the grid. |
| Matmul.TilesInOrder | python/tutorials/03-matrix-multiplication.py:265-273 | Programs take the tiles group after group of GROUP_SIZE_M rows of tiles, and in a group column by column: p < q iff p's tile comes first in that order. |
| Matmul.OneOwner | python/tutorials/03-matrix-multiplication.py:310-316 | Every element of C is stored by exactly one program. |
| Matmul.DotBlock | python/tutorials/03-matrix-multiplication.py:294-303 | A masked block of K extends the partial product from the first base terms to the first min(base + block, K). |
| Matmul.Program | python/tutorials/03-matrix-multiplication.py:242-316 | A program stores the finished elements of its own tile and leaves the rest of C alone; all loads are in bounds. |
| Matmul.Launch | python/tutorials/03-matrix-multiplication.py:330-348 | After all programs, in any order, C at m * N + n is the sum over K, and a hundredth of it where that is negative and leaky_relu is asked for. |
| Strided.DecodeLinear | FlagGems/triton_src/cat_copy.py:17-37 | Decoding the number of an index gives the index back. |
| Strided.LinearDecode | FlagGems/triton_src/cat_copy.py:17-37 | Every number below the element count is the number of the index it decodes to. |
| Strided.LinearInOrder | FlagGems/triton_src/cat_copy.py:17-37 | Numbers follow the indexes in row-major order: the first dimension in which two indexes differ decides which has the smaller one. |
| Strided.DotStep | FlagGems/triton_src/cat_copy.py:22-37 | One step along a dimension moves the offset by that dimension's stride. |
| Strided.DotContiguous | FlagGems/triton_src/copy.py:14-43 | With row-major strides an index's offset is its number. |
| Strided.Offsets | FlagGems/triton_src/cat_copy.py:22-37 | The loop over dimensions, padded to the maximal rank, computes both offsets of the decoded index. |
| CopyKernel.StridedCopy | FlagGems/triton_src/cat_copy.py:5-40 | The grid copies every element of one view to the same index of the other and writes nothing else. |
| CopyKernel.LinearCopy | FlagGems/triton_src/copy.py:5-11 | The linear kernel copies the first n elements and writes nothing else. |
| CopyKernel.ContiguousIsFine | FlagGems/lib/copy.cpp:191-198 | A contiguous view with room for its elements is in bounds and names no cell twice. |
| CopyKernel.LinearIsCopy | FlagGems/triton_src/copy.py:5-43 | On contiguous views of one shape the linear kernel does what the strided one does. |
| BroadcastCopy.BroadcastedStride | FlagGems/lib/copy.cpp:12-37 | Succeeds iff the shapes broadcast; the new strides send each target index to the source element that broadcasting assigns. |
| BroadcastCopy.CopyInto | FlagGems/lib/copy.cpp:175-230 | Behind the early return, for views that do not overlap, in one storage or two: succeeds iff the shapes broadcast, then dst[idx] is the broadcast source element for every idx and nothing else changes; on refusal nothing changes. |
| BroadcastCopy.Copy | FlagGems/lib/copy.cpp:173-230 | The same for `copy_` as a whole, unless both views start at one address: then it reports success and changes nothing, whatever the shapes are. |
| BroadcastCopy.EarlyReturnIff | FlagGems/lib/copy.cpp:173-173 | Returning early is right for every content of the storage iff the shapes broadcast and each destination element is at its source's position already. |
| BroadcastCopy.EarlyReturnFails | FlagGems/lib/copy.cpp:173-173 | Valid views that start at one address: a matrix and its first row, whose elements are not in place, and a matrix and three elements, which do not broadcast to it. |
| Concatenate.ViewPosition | FlagGems/lib/cat.cpp:51-71 | The view of the output made for a tensor places its element at the output index shifted along the dimension. |
| Concatenate.OutViewFine | FlagGems/lib/cat.cpp:67-71 | Each such view stays in the output and maps different indexes to different places. |
| Concatenate.SlabsApart | FlagGems/lib/cat.cpp:51-58 | Elements of two tensors never share an output index. |
| Concatenate.OutIndexHasSource | FlagGems/lib/cat.cpp:43-58 | Every output index comes from an element of some tensor. |
| Concatenate.Cat | FlagGems/lib/cat.cpp:9-109 | Each error iff its check is the first to fail, one tensor returned as it is, otherwise a fresh tensor of the summed size whose elements are exactly those of the tensors, one after the other along the dimension. |
| Divisibility.GcdIsGreatest | lib/Analysis/AxisInfo.cpp:17-40 | `gcd` divides both numbers, and whatever divides both divides it. |
| AxisInfo.BetweenMultiples | lib/Analysis/AxisInfo.cpp:419-427 | Within k values from a multiple of k, dividing by a multiple of k gives one quotient and consecutive remainders. |
| AxisInfo.DivIsConstant | lib/Analysis/AxisInfo.cpp:411-435 | For operands that are not negative, as unsigned ones are, quotients are constant on every aligned group of the reported constancy. |
| AxisInfo.RemIsContiguous | lib/Analysis/AxisInfo.cpp:466-489 | For operands that are not negative, remainders are contiguous on every aligned group of the reported contiguity. |
| SignedDivision.TruncSplits | lib/Analysis/AxisInfo.cpp:396-489 | Signed quotient and remainder recompose the dividend; the remainder is smaller than the divisor in size and has the sign of the dividend, so the quotient truncates toward zero. |
| SignedDivision.DivIsConstantIff | lib/Analysis/AxisInfo.cpp:411-435 | Signed quotients are constant on the reported groups iff these are those of constant operands or none starts at a negative multiple of the divisor. |
| SignedDivision.RemIsContiguousIff | lib/Analysis/AxisInfo.cpp:466-489 | Signed remainders are contiguous on the reported groups iff these are single elements or none starts at a negative multiple of the divisor. |
| SignedDivision.NegativeRunFails | lib/Analysis/AxisInfo.cpp:419-433 | -4, -3, -2, -1 divided by 4: one constant group is reported and the quotients differ. |
| AxisInfo.CmpIsConstant | lib/Analysis/AxisInfo.cpp:661-711 | Comparison results are constant on every aligned group of the reported constancy. |
| AxisInfo.DivisorOfProduct | lib/Analysis/AxisInfo.cpp:46-52 | The saturating product of two power-of-two divisors divides the product. |
| AxisInfo.MulIsDivisible | lib/Analysis/AxisInfo.cpp:350-385 | The reported divisor divides the product at the start of every group of the reported contiguity. |
| HintsTight.DivRemHintsAreBest | lib/Analysis/AxisInfo.cpp:411-489 | For a contiguous dividend and a constant divisor no larger group is right: there are operands with these hints whose quotients are not constant and whose remainders are not contiguous on it. |
| HintsTight.RemCouldSayMore | lib/Analysis/AxisInfo.cpp:466-489 | For a dividend contiguous in groups shorter than the whole the visitor reports 1, where the common divisor of the hints would be right. |
| HintsTight.CmpHintIsBest | lib/Analysis/AxisInfo.cpp:661-711 | For a contiguous operand against a constant one no larger group is right: there are operands with these hints and a group on which the order comparison changes. |
| HintsTight.MulHintIsBest | lib/Analysis/AxisInfo.cpp:350-385 | As long as it can be represented, no larger number than the reported divisor divides all products with these hints. |

## Left out

- Machine words: matrix rows are bit sequences; a matrix that is padded has at most 31 in bits, where the source shifts a 32-bit 1, and layouts that are inverted at most 30, where their total size is an int32; overflow of sizes and offsets is not modelled. `getFreeVariableMasks` on a layout without in bits, where the elimination shifts by a negative count, is given the answer of an empty matrix.
- Elimination of matrices over 64 rows or columns takes another path in third_party/f2reduce, which layouts do not reach.
- Layout text output, comparison, the size-inferring constructor and the removal of empty dimensions.
- `toLinearLayout`: the layouts of encodings are given; the conversion classification starts from two layouts.
- Liveness, aliases and buffer sizes (lib/Analysis/Allocation.cpp:195-489): buffers come with size, alignment, live range, regions and sharing group.
- Placement.CalculateStarts: asks for non-empty live ranges, because the source takes the first element of an empty map for an empty one.
- AllocationAnalysis.AllocationAnalysis.ComputeOffsets: asks that every sharing group has a buffer of non-zero size, because the source otherwise has no representative and dereferences it; apartness of group members is stated under the condition that the representative covers them, which Sharing.MemberSafeIff and ShareUnsafely show to be needed.
- Barrier insertion across calls, and regions nested in operations: one flat control flow graph.
- MembarAnalysis.MembarAnalysis.Resolve: is about runs that end, since the source has no result otherwise; ResolveWithin covers all functions with a bound on the turns. For general graphs, draining is proved for cycles with a block that synchronizes or conflicts with nothing, and for functions that need nothing; the exact condition is proved for loops of one block, and loops of a header and a body always drain.
- Topological sort of graphs with cycles, on which the search need not end; the order among operations that do not depend on each other.
- ReshapeDecomposition.GetReshapeDecomposition: products are unbounded, where the source keeps them in 32 bits; shapes of different product are not considered.
- LayerNorm.Backward: the row programs' steps on the lock and the buffers are interleaved; a row's own dx, which no other program touches, is computed apart from them. Weak memory order, fairness of the lock and casts are left out.
- Attention.AttnFwd: block pointers are row and column numbers of one head, and keys and values are given for every number, also past N_CTX (LoadsInContext says when none of those is loaded); casts to fp16 and fp8 and rounding are left out, and so is the backward pass.
- Matmul.Launch: C is not rounded to fp16; programs run one after the other in any order.
- BroadcastCopy.Copy: views that overlap and start at different addresses are not covered, since the lanes of the kernel then race; tensors without storage, all at the null address, are taken to differ in address; devices, types and the dispatch to other operators are left out. Strides are not negative.
- HintsTight.DivRemHintsAreBest: is about a contiguous dividend and a constant divisor, HintsTight.CmpHintIsBest about a contiguous operand against a constant one; the common divisor of two constancies, reported otherwise, is proved right and not shown to be the best.
- Alignment hints of other operations, scalars, overflow of the most negative value divided by -1, and the propagation of hints through the program.
- Thin wrappers over MLIR, LLVM, PyTorch and the GPU back ends, pass registration, benchmarks and tests.
