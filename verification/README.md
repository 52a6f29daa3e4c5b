# A model of numba-dpex in Dafny

numba-dpex compiles array programs to kernels that many work-items execute
between group barriers, and it looks after the memory and the kernel handles
those kernels use.  This project models the parts of it whose correctness is
not visible in any single function, and proves what they promise.  Verify it
with `dafny verify dfyconfig.toml`.

**Kernels.** `WorkGroup.dfy` is a machine for nd-range launches: groups of items
run straight-line code between barriers, one memory access at a time, in any
interleaving.  For race-free launches it has an invariant of every reachable state,
and from it `EveryInterleavingIsInOrder`: every complete run ends in the memory of
running groups and items in order.  The kernels of the work-group tree reduction
(`TreeSum.dfy`, `TreeKernel.dfy`), of the two-kernel lowering of a reduction
`prange` (`ParforReduction.dfy`), of the two hand-written sum reductions
(`SumReduction.dfy`) and of the sliding-window matrix product (`Matmul.dfy`) are
shown race-free and submitted through `Submit`, under any scheduler.  The
Hillis-Steele scan (`Scan.dfy`) is race-free only up to three items;
`ScanRuns.dfy` follows its runs event by event and shows that its result is
determined exactly up to four.

**Compilation.** `Splice.dfy` puts a loop body in place of the sentinel of a kernel
stub and shows, by simulation in both directions, that runs are kept.
`ArrayExpr.dfy` flattens expression trees and builds the parallel loop from them.
`ComputeFollowsData.dfy` is the pass that gives parfor outputs their device and USM
type.  `Mangler.dfy` prints symbol names and reads them back; `EscapedNames.dfy`
says what escapes spell, which names they keep apart, and what symbols look like.

**Runtime.** `MemInfo.dfy` has the reference-counting functions on one object and a
state machine of hosts, kernels, host tasks and destructors.  `KernelCache.dfy` has
the cache of built kernels with every reference it and the launches own.
`Layout.dfy` has sizes and strides of arrays in 64-bit arithmetic, on allocation
and when arrays come from and go back to Python.  `FlatArgs.dfy` flattens kernel
arguments.  `IndexSpace.dfy` has ranges, ids and the Python launchers, on the
mixed-radix numbers of `Radix.dfy`.

What the model takes for granted:

- Elements are integers and the operations are + and *; `init_val` of a reduction
  is the identity of its operation.  Floating-point rounding and integer
  wrap-around inside kernels are not modelled; wrap-around in the layout
  arithmetic is.
- A loop body, an operator, an assignment in a control-flow graph and a kernel
  build are arbitrary functions of what they read.
- Names made by `mk_unique_var` are fresh.
- `acquire`, `release` and the memory accesses of a kernel are atomic steps.  All
  items of a group leave a barrier together, once the last one has arrived.
- A launch over zero items runs nothing.
- A scheduler is any function from launches to complete runs; the contents of
  local memory at the start of a launch are arbitrary.

Where code and comments disagree the model follows the code.  `_escape_string`
says it escapes to `$xx` and escapes to `_xx`
(`numba_dpex/core/utils/itanium_mangler.py:134-153`).  The scan is announced as a
prefix sum (`numba_dpex/examples/kernel/scan.py:5-9`), which it computes only for a
zero or lone first element, and in every run only for groups of at most four items.
The error for a large array speaks of its size, but the extents before a zero one
are enough to raise it (`numba_dpex/dpnp_iface/_intrinsic.py:206-252`).

## Model

| member | source | states |
|---|---|---|
| WorkGroup.EveryInterleavingIsInOrder | numba_dpex/kernel_api/barrier.py:12-27 | A launch in which no item writes, between two barriers, what another item accesses, and no group writes what another touches, ends in the same memory under every interleaving: the one of running groups and items one after the other |
| WorkGroup.FollowInv | numba_dpex/kernel_api/barrier.py:12-27 | In every state reachable under every interleaving each item is where it would be had its phase run alone from the memory at the last barrier |
| WorkGroup.ItemsAlone | numba_dpex/kernel_api/barrier.py:12-27 | A race-free phase leaves in every cell an item touches what that item alone would have left |
| WorkGroup.PhaseOver | numba_dpex/kernel_api/barrier.py:12-27 | When the last item arrives at the barrier, memory and registers are those with which the reference starts the next phase |
| WorkGroup.OutcomeUnique | numba_dpex/kernel_api/barrier.py:12-27 | Two complete runs of a race-free launch cannot differ in any cell |
| WorkGroup.EventUsesWork | numba_dpex/kernel_api/barrier.py:12-27 | Every instruction and every barrier uses up exactly one unit of the remaining work, so all schedules have the same length |
| WorkGroup.Progress | numba_dpex/kernel_api/barrier.py:12-27 | While some item has work left some event is possible: barriers met by all items do not deadlock |
| WorkGroup.CanComplete | numba_dpex/kernel_api/barrier.py:12-27 | Every partial run can be carried on to the end, in as many events as there is work |
| WorkGroup.Submit | numba_dpex/core/parfors/parfor_lowerer.py:194-197 | Submitting a kernel and waiting for its event, for any schedule, leaves what each group leaves when run alone and keeps the cells no group writes |
| TreeSum.HalveKeepsFold | numba_dpex/core/parfors/kernel_templates/reduction_template.py:113-136 | One round, adding slot i + s into slot i below s, keeps the combination of the first 2s slots |
| TreeSum.SlotsKeepTotal | numba_dpex/core/parfors/kernel_templates/reduction_template.py:111-136 | For power-of-two groups the slots below the current stride combine to the group total after every round |
| TreeSum.TotalForPowersOfTwo | numba_dpex/core/parfors/kernel_templates/reduction_template.py:111-147 | Slot 0 finally holds the fold of the group, for + and for * |
| TreeSum.TreeSumsIffPowerOfTwo | numba_dpex/core/parfors/kernel_templates/reduction_template.py:111-136 | The stride loop sums all inputs of a group correctly if and only if the group size is a power of two |
| TreeSum.FoldConcat | numba_dpex/core/parfors/kernel_templates/reduction_template.py:256-263 | Folds of consecutive parts combine to the fold of the whole |
| TreeSum.FoldSnoc | numba_dpex/core/parfors/kernel_templates/reduction_template.py:256-299 | Folds are sums from 0 and products from 1 |
| TreeKernel.ItemProgram | numba_dpex/core/parfors/kernel_templates/reduction_template.py:103-147 | The loop with barrier, guarded combination and halved stride gives each item the phases of the tree, for any number of variables and any group size |
| TreeKernel.TreeHasNoRaces | numba_dpex/core/parfors/kernel_templates/reduction_template.py:113-136 | For every group size and every stride no two items touch the same slot with a write in one phase |
| TreeKernel.SlotsAfterPhase | numba_dpex/core/parfors/kernel_templates/reduction_template.py:113-136 | After every phase each slot of each variable holds the value that the rounds so far prescribe |
| TreeKernel.TreePublishesResult | numba_dpex/core/parfors/kernel_templates/reduction_template.py:137-147 | A group leaves the result of its rounds in its own element of each partial-sum array |
| TreeKernel.LaunchIsSafe | numba_dpex/core/parfors/kernel_templates/reduction_template.py:137-147 | Groups write only their own partial sums and slots: a launch of any number of groups is race-free and in bounds |
| TreeKernel.LaunchResult | numba_dpex/core/parfors/kernel_templates/reduction_template.py:103-147 | In every interleaving of all groups each partial sum is its group's tree result |
| TreeKernel.LaunchKeeps | numba_dpex/core/parfors/kernel_templates/reduction_template.py:137-147 | No other global cell changes |
| ParforReduction.FillRun | numba_dpex/core/parfors/kernel_templates/reduction_template.py:94-109 | Before the first barrier an item stores its iteration's contribution to every variable, combined with the initial value, in its own slots only |
| ParforReduction.TreeLaunchResult | numba_dpex/core/parfors/kernel_templates/reduction_template.py:94-147 | After the tree kernel, partial sum g of variable v is the fold of iterations 8g to 8g + 7 |
| ParforReduction.ReductionHelper.constructor | numba_dpex/core/parfors/reduction_helper.py:49-101 | Remainder, global size and number of partial sums: full groups of eight, the rest below eight |
| ParforReduction.Allocate | numba_dpex/core/parfors/reduction_helper.py:102-137 | Every variable gets its own partial and final sums, all filled with the identity of its operation |
| ParforReduction.FoldPartials | numba_dpex/core/parfors/kernel_templates/reduction_template.py:252-265 | Folding the partial sums into each final sum covers all full groups |
| ParforReduction.FoldRest | numba_dpex/core/parfors/kernel_templates/reduction_template.py:267-299 | The iterations past the last full group follow, in order |
| ParforReduction.RemainderKernel | numba_dpex/core/parfors/kernel_templates/reduction_template.py:230-301 | Using only the first helper's sizes, the single-item kernel brings every final sum to the fold of all iterations |
| ParforReduction.TreeStage | numba_dpex/core/parfors/parfor_lowerer.py:261-271 | The tree kernel is safe to launch and leaves each group's fold, under every interleaving and whatever local memory held |
| ParforReduction.ReductionCodegen | numba_dpex/core/parfors/parfor_lowerer.py:201-292 | For every number of iterations, every body and every mix of + and * variables the two kernels return for each variable the sequential fold of all contributions |
| SumReduction.FillRun | numba_dpex/examples/kernel/sum_reduction_recursive.py:26-29 | An item's slot starts as its element, or zero past the end of the input |
| SumReduction.CallSumKernel | numba_dpex/examples/kernel/sum_reduction_recursive.py:60-70 | The launch is refused exactly when the group size does not divide the global size; otherwise each group leaves its tree result and nothing else global changes |
| SumReduction.LaunchKeepsTotal | numba_dpex/examples/kernel/sum_reduction_recursive.py:47-70 | A launch replaces the input by one partial sum per group with the same total, padding included |
| SumReduction.LaunchShape | numba_dpex/examples/kernel/sum_reduction_recursive.py:48-58 | Groups and launched size for every input size |
| SumReduction.SumRecursiveReduction | numba_dpex/examples/kernel/sum_reduction_recursive.py:47-87 | With power-of-two groups of 2 to 64 the recursion over swapped buffers terminates inside both buffers; it returns the sum when the input fills a group, is refused for smaller non-empty input, and returns the stale first partial sum for empty input |
| SumReduction.SumReduce | numba_dpex/examples/kernel/sum_reduction_recursive.py:90-102 | With groups of 64 and one fresh partial sum per group the entry point returns the sum of every input of at least 64 elements, is refused for smaller non-empty ones and reads past the partial sums for an empty one |
| SumReduction.FinishOnDevice | numba_dpex/examples/kernel/sum_reduction_recursive.py:72-81 | The last launch adds up the remaining partial sums |
| SumReduction.SumReduceOnHost | numba_dpex/examples/kernel/sum_reduction_tree.py:50-70 | The variant that finishes on the host returns the sum exactly when the group size divides the input, and is refused otherwise |
| Matmul.TileHasNoRaces | numba_dpex/examples/kernel/matmul.py:48-73 | Between its two barriers per block no item writes a window or result cell that another accesses |
| Matmul.BeforeBlock | numba_dpex/examples/kernel/matmul.py:48-70 | Before block b every item's output is the product over the first 2b columns |
| Matmul.TileComputes | numba_dpex/examples/kernel/matmul.py:30-73 | Zero padding at ragged edges contributes nothing: the written cell is the full product over n columns |
| Matmul.MatmulIsSafe | numba_dpex/examples/kernel/matmul.py:21-73 | Every launch over every shape is race-free and in bounds |
| Matmul.MatmulIsTheProduct | numba_dpex/examples/kernel/matmul.py:21-73 | Under every interleaving exactly the cells inside launch and matrix are written, each with row times column |
| Matmul.CallMatmul | numba_dpex/examples/kernel/matmul.py:90-92 | A launch with 2 x 2 groups is refused for odd global sizes and otherwise computes the product |
| Splice.KernelIR.UpdateSentinel | numba_dpex/core/parfors/kernel_builder.py:278-334 | Without a sentinel nothing changes; otherwise the block of the first one is cut there and the body placed in between, entered at its least label and left from its greatest |
| Splice.KernelIR.SpliceAt | numba_dpex/core/parfors/kernel_builder.py:297-331 | The block is cut at the sentinel and the body placed in between |
| Splice.KernelIR.RunPass | numba_dpex/core/parfors/parfor_sentinel_replace_pass.py:91-99 | Body labels move behind the stub's, the new label behind both, and the splice is made there; the blocks left return what the stub returns with the original body in place of the sentinel |
| Splice.KernelIR.AddBlocks | numba_dpex/core/parfors/kernel_builder.py:315-320 | All body blocks are added |
| Splice.StubRunsAreSplicedRuns | numba_dpex/core/parfors/kernel_builder.py:278-334 | Every run of the stub, in which each arrival at the sentinel runs the body once, is a run of the spliced graph |
| Splice.SplicedRunsAreStubRuns | numba_dpex/core/parfors/kernel_builder.py:278-334 | Every prefix of a run of the spliced graph is such a run of the stub, possibly inside the body |
| Splice.SplicePreservesResults | numba_dpex/core/parfors/kernel_builder.py:278-334 | Stub with body and spliced graph return the same stores, and one returns if and only if the other does |
| Splice.PassSiteIsWellFormed | numba_dpex/core/parfors/parfor_sentinel_replace_pass.py:91-95 | The labels chosen by the pass are disjoint, and the shifted body is still closed with the same entry and exit |
| Splice.PassRunsOriginalBody | numba_dpex/core/parfors/parfor_sentinel_replace_pass.py:91-92 | A run of the shifted body is a run of the original one |
| Splice.PassPreservesResults | numba_dpex/core/parfors/parfor_sentinel_replace_pass.py:91-99 | The graph the pass leaves returns the same stores as the stub with the original body in place of the sentinel |
| Splice.ShiftedSteps | numba_dpex/core/parfors/parfor_sentinel_replace_pass.py:92 | Shifting all labels keeps every step |
| MemInfo.NrtMemInfo.constructor | numba_dpex/core/runtime/_dpexrt_python.c:427-478 | A new MemInfo has one reference and keeps its allocator |
| MemInfo.NrtMemInfo.Acquire | numba_dpex/core/runtime/_nrt_helper.c:83-89 | A live MemInfo gains one reference |
| MemInfo.NrtMemInfo.Release | numba_dpex/core/runtime/_nrt_helper.c:64-71 | A reference is dropped; only the last one tears the object down: the data is freed exactly if no Python object owns it, else that owner loses a reference, and queue, allocator, destructor info and header go once each; at shutdown only the header is freed |
| MemInfo.NrtMemInfo.CallDtor | numba_dpex/core/runtime/_nrt_helper.c:73-81 | Destructor and header release together perform every act of the teardown once, in order; at shutdown the destructor is skipped and the header freed through the external allocator |
| MemInfo.NrtMemInfo.UsmNdArrayDtor | numba_dpex/core/runtime/_dpexrt_python.c:339-389 | Data is freed exactly without an owner and before queue and allocator, an owner loses its reference, and queue, allocator and destructor info are released once each |
| MemInfo.TeardownIsComplete | numba_dpex/core/runtime/_dpexrt_python.c:358-388 | Either the data is freed, first, or the owner loses its reference; everything else goes once, the header last |
| MemInfo.NrtMemInfo.Dealloc | numba_dpex/core/runtime/_nrt_helper.c:114-128 | The header is freed through the external allocator if the object still has it and by the runtime otherwise |
| MemInfo.AcquireAll | numba_dpex/core/runtime/experimental/nrt_reserve_meminfo.cpp:33-35 | One reference per argument, so two for an array passed twice |
| MemInfo.ReleaseAll | numba_dpex/core/runtime/experimental/nrt_reserve_meminfo.cpp:44-51 | The host task gives all of them back, tearing down those that reach zero |
| MemInfo.CountsStaySafe | numba_dpex/core/runtime/_nrt_helper.c:64-89 | No reachable state lets a count go up or down from zero |
| MemInfo.NextInv | numba_dpex/core/runtime/experimental/nrt_reserve_meminfo.cpp:28-58 | Each step of hosts, kernels, host tasks and destructors keeps every count equal to the references held by hosts and launches |
| MemInfo.ArgumentsOutliveKernels | numba_dpex/core/runtime/experimental/nrt_reserve_meminfo.cpp:28-58 | In every interleaving nothing of a MemInfo is torn down while a kernel taking it is incomplete |
| MemInfo.ReclaimedExactlyOnce | numba_dpex/core/runtime/experimental/nrt_reserve_meminfo.cpp:28-63 | Once all is quiet a MemInfo has been torn down, each act once, with its data freed exactly if it has no owner, if and only if no failed host-task submission still holds it; otherwise it is untouched |
| MemInfo.FailedExactly | numba_dpex/core/runtime/experimental/nrt_reserve_meminfo.cpp:43-63 | A launch counts as failed exactly if the submission of its host task raised an exception |
| MemInfo.NothingIsStranded | numba_dpex/core/runtime/experimental/nrt_reserve_meminfo.cpp:28-63 | In a run in which no submission fails no MemInfo is stranded, and at rest all are torn down completely |
| MemInfo.WindowNeedsHostReference | numba_dpex/core/kernel_launcher.py:234-244 | In every reachable state with a kernel submitted and its references not yet taken, dropping the host's last reference lets the count reach zero exactly if no other launch holds the array |
| MemInfo.WindowIsReachable | numba_dpex/core/kernel_launcher.py:234-244 | Such a state in which none does |
| MemInfo.CanComeToRest | numba_dpex/core/runtime/experimental/nrt_reserve_meminfo.cpp:28-58 | Every run can be carried on until no event is left, without stranding further objects |
| MemInfo.AllCanBeReclaimed | numba_dpex/core/runtime/experimental/nrt_reserve_meminfo.cpp:28-63 | There every object has been torn down completely except those a failed launch still holds |
| ArrayExpr.TreeToIr | numba_dpex/core/parfors/parfor_pass.py:369-508 | The recursion that appends to one list emits the assignments of the arguments, each in a fresh variable, then those of the operator; it raises an error exactly if a part of the expression has nothing to emit |
| ArrayExpr.EmitOpRuns | numba_dpex/core/parfors/parfor_pass.py:410-476 | Operator, divide, square root and ufunc calls leave the operator's value in the output variable |
| ArrayExpr.OperatorsMean | numba_dpex/core/parfors/parfor_pass.py:410-476 | What each operator computes from its operands, in their order |
| ArrayExpr.QuotientCode | numba_dpex/core/parfors/parfor_pass.py:322-476 | The assignments emitted for a / sqrt(b), with the module, attribute and call for each of the two functions |
| ArrayExpr.EmitIsCorrect | numba_dpex/core/parfors/parfor_pass.py:369-508 | Running the emitted assignments leaves the tree's value at the current index in the output variable and changes only fresh variables |
| ArrayExpr.ArgsAreCorrect | numba_dpex/core/parfors/parfor_pass.py:390-409 | Later arguments do not disturb the variables of earlier ones |
| ArrayExpr.EmitReads | numba_dpex/core/parfors/parfor_pass.py:477-496 | The code reads no array that the expression does not |
| ArrayExpr.ParforComputesExpression | numba_dpex/core/parfors/parfor_pass.py:93-177 | In every interleaving of its items the parfor gives every element of the new array the value of the expression at its index, and changes no other array |
| Mangler.RoundTrip | numba_dpex/core/utils/itanium_mangler.py:271-281 | The symbol of every signature is read back as the signature's canonical form, and so as the signature itself exactly if it is well-formed: no part of a name and no tag has a character to escape or a leading digit |
| Mangler.SameSymbol | numba_dpex/core/utils/itanium_mangler.py:271-281 | Two signatures have the same symbol if and only if they have the same canonical form |
| Mangler.CanonicalPrints | numba_dpex/core/utils/itanium_mangler.py:156-193 | Escaping and prefixing every part and tag at every level of nesting gives a well-formed signature with the same symbol |
| Mangler.MangleIsInjective | numba_dpex/core/utils/itanium_mangler.py:271-281 | In particular different well-formed signatures have different symbols |
| Mangler.Demangle | numba_dpex/core/utils/itanium_mangler.py:179-193 | Whatever the reader accepts is a well-formed signature |
| Mangler.ReadName | numba_dpex/core/utils/itanium_mangler.py:179-193 | A dotted identifier is recovered from its length-prefixed parts |
| Mangler.ReadTags | numba_dpex/core/utils/itanium_mangler.py:175-190 | ABI tags are recovered and not mistaken for arguments |
| Mangler.ReadInt | numba_dpex/core/utils/itanium_mangler.py:221-223 | Literal integers of both signs are recovered |
| Mangler.ReadCode | numba_dpex/core/utils/itanium_mangler.py:91-132 | The codes of the builtin types are told apart |
| Mangler.ReadSpace | numba_dpex/core/utils/itanium_mangler.py:61-64 | Address-space qualifiers of pointers are recovered |
| Mangler.ReadPointer | numba_dpex/core/utils/itanium_mangler.py:61-66 | A pointer is recovered with its address space and pointee |
| Mangler.ReadPlain | numba_dpex/core/utils/itanium_mangler.py:211-247 | Types with nested template parameters are recovered |
| Mangler.ReadArgs | numba_dpex/core/utils/itanium_mangler.py:257-261 | An argument list is recovered without separators |
| Mangler.LeadingDigitCollides | numba_dpex/core/utils/itanium_mangler.py:156-172 | A name with a leading digit shares its symbol with the same name after an underscore |
| Mangler.EscapeCollides | numba_dpex/core/utils/itanium_mangler.py:84-153 | An escaped character shares its symbol with its spelled-out escape, as the escape character is not escaped |
| EscapedNames.EscapeCharIsUtf8 | numba_dpex/core/utils/itanium_mangler.py:134-153 | An escaped character of any length spells in hexadecimal the bytes that UTF-8 (RFC 3629, section 3) decodes to it |
| EscapedNames.EscapeCharInjective | numba_dpex/core/utils/itanium_mangler.py:134-153 | Different characters are printed differently |
| EscapedNames.PlainAscii | numba_dpex/core/utils/itanium_mangler.py:84-88 | Of the ASCII characters exactly letters, digits and the underscore are kept |
| EscapedNames.EscapeInjective | numba_dpex/core/utils/itanium_mangler.py:134-153 | Names without underscores are escaped to different strings, whatever characters they hold |
| EscapedNames.CleanSymbols | numba_dpex/core/utils/itanium_mangler.py:271-281 | Signatures whose names and tags hold no underscore and no leading digit, at any level of nesting, share a symbol only if they are equal |
| EscapedNames.BuiltinSymbol | numba_dpex/core/utils/itanium_mangler.py:91-132 | The letters of all thirteen built-in types |
| EscapedNames.PointerSymbols | numba_dpex/core/utils/itanium_mangler.py:41-68 | Pointers with and without an address space, and a literal number |
| EscapedNames.ArraySymbol | numba_dpex/core/utils/itanium_mangler.py:238-247 | A type with template parameters |
| EscapedNames.NamespaceSymbol | numba_dpex/core/utils/itanium_mangler.py:175-193 | A tagged name in a namespace |
| EscapedNames.LongNameSymbol | numba_dpex/core/utils/itanium_mangler.py:166-172 | Lengths of two digits are decimal |
| EscapedNames.EscapedSymbol | numba_dpex/core/utils/itanium_mangler.py:134-153 | The symbol of a name with angle brackets |
| Layout.ArrayLength | numba_dpex/dpnp_iface/_intrinsic.py:206-212 | The sticky flag is set exactly if some partial product of the extents does not fit 64 bits; while it is clear the length is exact |
| Layout.RowMajorStrides | numba_dpex/dpnp_iface/_intrinsic.py:216-220 | C strides, as 64-bit products |
| Layout.ColumnMajorStrides | numba_dpex/dpnp_iface/_intrinsic.py:221-225 | F strides, as 64-bit products |
| Layout.EmptyNd | numba_dpex/dpnp_iface/_intrinsic.py:194-252 | Refused layouts, refused sizes, and otherwise the exact size in bytes with the strides of the layout |
| Layout.WrapMul | numba_dpex/dpnp_iface/_intrinsic.py:217-224 | Wrapping each multiplication is wrapping the exact product |
| Layout.PositiveSizeFits | numba_dpex/dpnp_iface/_intrinsic.py:233-252 | For positive extents the error is raised exactly if size times itemsize exceeds the largest integer |
| Layout.SizeFitsExactly | numba_dpex/dpnp_iface/_intrinsic.py:206-252 | For all extents: only those before the first zero count |
| Layout.EmptyArrayTooBig | numba_dpex/dpnp_iface/_intrinsic.py:233-252 | An array without elements can be refused as too big |
| Layout.StridesFitExactly | numba_dpex/dpnp_iface/_intrinsic.py:216-225 | In an accepted array no stride wraps if and only if all extents are positive or the extents behind the last zero (C) or before the first (F) with the item size fit the largest integer |
| Layout.StridesDoNotWrap | numba_dpex/dpnp_iface/_intrinsic.py:216-225 | In particular no stride wraps in an accepted array with positive extents |
| Layout.AllocatedSlots | numba_dpex/dpnp_iface/_intrinsic.py:194-252 | Every index tuple of an accepted array addresses its item-sized slot inside the allocation, at itemsize times its position |
| Layout.SlotsAreDisjoint | numba_dpex/dpnp_iface/_intrinsic.py:194-252 | Different index tuples address disjoint slots, for both layouts |
| Layout.StridesOfEmptyArrayWrap | numba_dpex/dpnp_iface/_intrinsic.py:216-225 | An accepted array without elements whose C strides wrap and whose F strides do not |
| Layout.ShiftCount | numba_dpex/core/runtime/_dpexrt_python.c:877-880 | The loop finds the exponent of the item size |
| Layout.ExponentIsLog | numba_dpex/core/runtime/_dpexrt_python.c:877-880 | That is the binary logarithm rounded down, exact only for powers of two |
| Layout.DefaultStride | numba_dpex/core/runtime/_dpexrt_python.c:898-905 | A missing stride is the product of the extents behind it, shifted |
| Layout.ProductOfShape | numba_dpex/core/runtime/_dpexrt_python.c:786-794 | The number of items, in 64 bits |
| Layout.UsmArrayStruct.FromPython | numba_dpex/core/runtime/_dpexrt_python.c:809-906 | Unboxing fails for zero dimensions and otherwise fills data, parent, item count, shape and byte strides: given element strides times the item size, where they fit and items are a power of two in size |
| Layout.GivenStrides | numba_dpex/core/runtime/_dpexrt_python.c:893-897 | For power-of-two items a given stride is multiplied by the item size exactly where the product fits 64 bits |
| Layout.GivenStridesAddress | numba_dpex/core/runtime/_dpexrt_python.c:893-897 | Then every index tuple has the byte offset of its element |
| Layout.UsmArrayStruct.BoxFromParent | numba_dpex/core/runtime/_dpexrt_python.c:942-1052 | The parent is handed out exactly if data, rank, shape and byte strides are still those of the parent |
| Layout.UsmArrayStruct.ToElementStrides | numba_dpex/core/runtime/_dpexrt_python.c:1169-1180 | Byte strides are shifted back in place, the shape is kept |
| Layout.UnboxThenToElementStrides | numba_dpex/core/runtime/_dpexrt_python.c:1169-1180 | After unboxing, each element stride comes back exactly if its byte stride fits |
| Layout.UnboxThenBox | numba_dpex/core/runtime/_dpexrt_python.c:942-1052 | An untouched array comes back as the same object |
| Layout.ShiftRoundTrip | numba_dpex/core/runtime/_dpexrt_python.c:893-897 | Shifting to bytes and back recovers an element stride exactly if its byte stride fits 64 bits |
| Layout.DefaultStridesAddressEveryItem | numba_dpex/core/runtime/_dpexrt_python.c:898-905 | For power-of-two items the default strides map the index tuples one-to-one onto the items |
| Radix.RowMajorUnrank | numba_dpex/kernel_api/index_space_ids.py:171-185 | A tuple within the extents has a position below their product from which it is recovered |
| Radix.UnrankRowMajor | numba_dpex/kernel_api/index_space_ids.py:171-185 | Every position below the product belongs to a tuple within the extents |
| Radix.RowMajorInjective | numba_dpex/kernel_api/index_space_ids.py:171-185 | Different tuples have different positions |
| IndexSpace.NewRange | numba_dpex/kernel_api/ranges.py:32-58 | A zero in second or third place ends the range and drops what follows |
| IndexSpace.NewNdRange | numba_dpex/kernel_api/ranges.py:147-190 | Accepted exactly for equal ranks and nonzero local extents that divide the global ones; else the first fault in order |
| IndexSpace.LinearIdIsRowMajor | numba_dpex/kernel_api/index_space_ids.py:171-185 | The linear id in one to three dimensions is the row-major position (section 3.11.1 of SYCL 2020) |
| IndexSpace.LinearRange | numba_dpex/kernel_api/index_space_ids.py:195-201 | The loop over the dimensions gives the number of items |
| IndexSpace.NdItem.constructor | numba_dpex/kernel_api/index_space_ids.py:229-235 | The item with local linear id zero makes its group's leader flag true |
| IndexSpace.TuplesAreRanked | numba_dpex/kernel_api/launcher.py:72-75 | The product of the ranges lists every index tuple once, at its row-major position |
| IndexSpace.JoinInShape | numba_dpex/kernel_api/launcher.py:87-92 | Group id times local range plus local id is a global id |
| IndexSpace.JoinInjective | numba_dpex/kernel_api/launcher.py:87-92 | No two pairs of group and local id give the same global id |
| IndexSpace.Split | numba_dpex/kernel_api/launcher.py:87-92 | Every global id comes from such a pair |
| IndexSpace.CallKernel | numba_dpex/kernel_api/launcher.py:87-113 | Each kernel call sees group id times local range plus local id as global id, its local and group id, and the leader flag exactly for local position zero |
| IndexSpace.LaunchGroups | numba_dpex/kernel_api/launcher.py:68-113 | For extents that are not negative the two nested products visit every global index tuple once, in order |
| IndexSpace.LaunchNdRange | numba_dpex/kernel_api/launcher.py:56-113 | With a negative extent the kernel is never called and nothing is checked; otherwise it is called exactly once per global index tuple, group by group, and a wrong number of arguments is noticed only if there is an item |
| IndexSpace.OneLeaderPerGroup | numba_dpex/kernel_api/index_space_ids.py:229-235 | Exactly one item of each group is leader, its first |
| IndexSpace.LinearIdsArePermutation | numba_dpex/kernel_api/index_space_ids.py:245-268 | The global linear ids of a launch are the numbers below its size, each once |
| IndexSpace.LaunchRange | numba_dpex/kernel_api/launcher.py:17-53 | A plain range is visited in linear-id order, not at all if an extent is negative; local accessors and, if there is an item, wrong argument counts are errors |
| ComputeFollowsData.ConformingMeans | numba_dpex/core/passes/parfor_legalize_cfd_pass.py:81-113 | The common type exists exactly for arrays of known USM types on one device; it has that device and is device if any of them is, else shared if any is, else host |
| ComputeFollowsData.RankMeans | numba_dpex/core/passes/parfor_legalize_cfd_pass.py:46-47 | The ranks put device above shared above host and know no other type |
| ComputeFollowsData.ParforAccepted | numba_dpex/core/passes/parfor_legalize_cfd_pass.py:81-113 | A parfor is accepted exactly if it has arrays to check, all of known USM type and on one device |
| ComputeFollowsData.ParforErrors | numba_dpex/core/passes/parfor_legalize_cfd_pass.py:81-109 | Which of the three errors is raised: an unknown USM type first, then different devices; without arrays the maximum of nothing |
| ComputeFollowsData.ParforConforms | numba_dpex/core/passes/parfor_legalize_cfd_pass.py:162-211 | Every array output takes the one device, and device memory if some input or existing output is in it, else shared memory if one is, else host memory; no other type changes |
| ComputeFollowsData.UpdatedMeansChanged | numba_dpex/core/passes/parfor_legalize_cfd_pass.py:193-209 | The updated set records for each output whether its type changed |
| ComputeFollowsData.OutputIsAllocatedAlike | numba_dpex/core/passes/parfor_legalize_cfd_pass.py:193-241 | The allocation of an output inside its parfor is rewritten exactly if the output changed type, and then to that type |
| ComputeFollowsData.SeenArraysStay | numba_dpex/core/passes/parfor_legalize_cfd_pass.py:213-315 | Over every pass whose casts keep their targets a seen array never changes device, its USM rank never falls, and rewritten allocations keep to the device |
| ComputeFollowsData.LegalizeKeeps | numba_dpex/core/passes/parfor_legalize_cfd_pass.py:234-294 | The same for every single statement, nested parfors included |
| ComputeFollowsData.AssignIsStable | numba_dpex/core/passes/parfor_legalize_cfd_pass.py:234-270 | An assignment moves no seen array exactly unless it is a cast onto one that takes an updated source's type with another device or a lower USM rank |
| ComputeFollowsData.StableExactly | numba_dpex/core/passes/parfor_legalize_cfd_pass.py:213-294 | Every step of a statement, at any depth, leaves seen arrays in place if and only if all its casts keep their targets |
| ComputeFollowsData.FreshCastsKeep | numba_dpex/core/passes/parfor_legalize_cfd_pass.py:252-265 | Casts to variables not assigned before keep their targets |
| ComputeFollowsData.ParforDeviceIsFinal | numba_dpex/core/passes/parfor_legalize_cfd_pass.py:162-211 | If the casts keep their targets, arrays checked together for one parfor are still on one device when the pass ends |
| ComputeFollowsData.CastMovesSeenArray | numba_dpex/core/passes/parfor_legalize_cfd_pass.py:252-265 | A program whose last cast moves an array seen before to another device |
| ComputeFollowsData.AllocationFallsBehind | numba_dpex/core/passes/parfor_legalize_cfd_pass.py:234-241 | A rewritten allocation falls behind its array's USM type exactly if a later parfor on it has a higher-ranked input |
| ComputeFollowsData.AllocationFallsBehindOnce | numba_dpex/core/passes/parfor_legalize_cfd_pass.py:305-309 | A program of two parfors in which it does |
| ComputeFollowsData.PassExplained | numba_dpex/core/passes/parfor_legalize_cfd_pass.py:213-294 | An array is seen once an argument, allocation or other expression is assigned to it, and otherwise only by a cast; only a return changes the return type; outside parfors no allocation is rewritten |
| ComputeFollowsData.PassExplainedAll | numba_dpex/core/passes/parfor_legalize_cfd_pass.py:296-315 | The same for every list of statements, at any depth |
| ComputeFollowsData.ReturnTypeOfPass | numba_dpex/core/passes/parfor_legalize_cfd_pass.py:282-294 | The function returns the type its last returned array has there if the pass has changed it, and else what it returned before |
| ComputeFollowsData.CallAfterParfor | numba_dpex/core/passes/parfor_legalize_cfd_pass.py:244-251 | A call behind a parfor is refused exactly if it is given an output whose type the parfor changed, or another array changed before |
| ComputeFollowsData.CastsPropagate | numba_dpex/core/passes/parfor_legalize_cfd_pass.py:252-265 | A changed type travels along a chain of casts of any length, and each target counts as changed |
| ComputeFollowsData.Legalizer.CheckParams | numba_dpex/core/passes/parfor_legalize_cfd_pass.py:81-113 | Loop over the checklist: same result and same errors as the specification |
| ComputeFollowsData.Legalizer.LegalizeArrayAttrs | numba_dpex/core/passes/parfor_legalize_cfd_pass.py:140-160 | The type is replaced exactly if device or USM type differ |
| ComputeFollowsData.Legalizer.BuildChecklist | numba_dpex/core/passes/parfor_legalize_cfd_pass.py:177-186 | Inputs that are not outputs, then the seen array outputs |
| ComputeFollowsData.Legalizer.LegalizeParforParams | numba_dpex/core/passes/parfor_legalize_cfd_pass.py:162-211 | Performs the specified change of types and updated set, or raises its error |
| ComputeFollowsData.Legalizer.LegalizeExpr | numba_dpex/core/passes/parfor_legalize_cfd_pass.py:234-270 | Allocations, calls, casts and other expressions, as specified |
| ComputeFollowsData.Legalizer.LegalizeStmt | numba_dpex/core/passes/parfor_legalize_cfd_pass.py:213-294 | Assignments, nested parfors and returns, as specified |
| ComputeFollowsData.Legalizer.LegalizeBlock | numba_dpex/core/passes/parfor_legalize_cfd_pass.py:296-315 | The pass over a list of statements performs the specified change or stops with its first error |
| KernelCache.CachingIsTransparent | numba_dpex/core/runtime/experimental/kernel_caching.cpp:56-108 | Every launch of every sequence gets what a fresh build would give if and only if requests with equal context, device and bitcode hash build the same kernel |
| KernelCache.KeyMeans | numba_dpex/core/runtime/experimental/kernel_caching.cpp:37-47 | Two requests share a key exactly if context, device and bitcode hash agree |
| KernelCache.SecondGetsFirstBuild | numba_dpex/core/runtime/experimental/kernel_caching.cpp:56-108 | Of two launches the second gets the first one's kernel exactly if those three agree, and else its own build |
| KernelCache.ObtainedIsFirstBuild | numba_dpex/core/runtime/experimental/kernel_caching.cpp:56-72 | A launch gets the build of the first request with its key |
| KernelCache.KeysAreInequivalent | numba_dpex/core/runtime/experimental/kernel_caching.cpp:37-72 | No key is cached twice |
| KernelCache.OptionsAreNotInTheKey | numba_dpex/core/runtime/experimental/kernel_caching.cpp:22-22 | Requests that differ in options or name share the first build |
| KernelCache.Runtime.FindEntry | numba_dpex/core/runtime/experimental/kernel_caching.cpp:37-47 | Lookup compares device, context and hash |
| KernelCache.Runtime.GetElseCompute | numba_dpex/core/runtime/experimental/kernel_caching.cpp:56-72 | A miss keeps the context and device references with the new kernel, a hit deletes them |
| KernelCache.Runtime.Build | numba_dpex/core/runtime/experimental/kernel_caching.cpp:97-102 | A successful build leaves one kernel reference, a failed one none |
| KernelCache.Runtime.BuildOrGetKernel | numba_dpex/core/runtime/experimental/kernel_caching.cpp:76-108 | The caller loses its context and device references and gains one kernel reference |
| KernelCache.Runtime.QueueRefs | numba_dpex/core/utils/call_kernel_builder.py:317-318 | Two new references for the launch |
| KernelCache.Runtime.DeleteKernel | numba_dpex/core/utils/call_kernel_builder.py:368-370 | The launch gives its kernel reference back |
| KernelCache.Runtime.Launch | numba_dpex/core/utils/call_kernel_builder.py:560-576 | A launch submits the cached kernel and leaves no reference of its own |
| KernelCache.LaunchAll | numba_dpex/core/utils/call_kernel_builder.py:317-370 | After any sequence of launches live context and device references equal the cache size, and live kernel references the entries whose build succeeded |
| Scan.WindowDoubles | numba_dpex/examples/kernel/scan.py:35-46 | A round doubles the window of elements each slot sums; the first element stays with its own slot |
| Scan.HillisSteeleScan | numba_dpex/examples/kernel/scan.py:28-53 | In lockstep slot zero keeps its element and every other gets the sum of the elements from the second on |
| Scan.ScannedIsPrefixSums | numba_dpex/examples/kernel/scan.py:28-53 | That is the inclusive prefix sum exactly if the first element is zero or the only one |
| Scan.RaceFreeUpToThree | numba_dpex/examples/kernel/scan.py:34-49 | The barriers make the phases race-free exactly for groups of at most three items |
| Scan.OrderMatters | numba_dpex/examples/kernel/scan.py:36-49 | As no barrier follows the swap, a round adds the neighbour's new or old value depending on which of the two items goes first |
| ScanRuns.ScanIsDeterminedUpToFour | numba_dpex/examples/kernel/scan.py:20-53 | Every complete run on every input of a group leaves the lockstep result if and only if the group has at most four items |
| ScanRuns.SmallScanIsDetermined | numba_dpex/examples/kernel/scan.py:20-53 | Up to four items every run leaves the lockstep result, although the one for four has a race |
| ScanRuns.SameRuns | numba_dpex/examples/kernel/scan.py:34-49 | Up to four items every run is also one of the race-free launch in which item 3 adds the input element instead of reading its neighbour |
| ScanRuns.TameHasNoRaces | numba_dpex/examples/kernel/scan.py:34-49 | That launch is race-free |
| ScanRuns.FailingRun | numba_dpex/examples/kernel/scan.py:34-53 | From five items on every input with a nonzero second element has a complete run in which item 4 loses that element |
| ScanRuns.LateRuns | numba_dpex/examples/kernel/scan.py:34-53 | What item 4 holds after such a second round is never changed by a later event of any run |
| FlatArgs.FlattenedMemberCount | numba_dpex/core/datamodel/models.py:34-56 | The counted members are the fields of the device struct |
| FlatArgs.NumFlattenedKernelArgs | numba_dpex/core/utils/call_kernel_builder.py:633-649 | The number counted in advance is the number of fields of all arguments |
| FlatArgs.Builder.BuildArrayArg | numba_dpex/core/utils/kernel_flattened_args_builder.py:344-396 | An array contributes its fields in the order of the device struct, for any rank |
| FlatArgs.Builder.AddArgument | numba_dpex/core/utils/kernel_flattened_args_builder.py:75-112 | Each kind of argument appends its own fields, a complex number its real part and then its imaginary part; a local accessor without dimensions is an error |
| FlatArgs.PopulateKernelArgs | numba_dpex/core/utils/call_kernel_builder.py:665-692 | The arrays of the counted size are filled exactly, in order |
| FlatArgs.FieldSlot | numba_dpex/core/utils/kernel_flattened_args_builder.py:75-112 | A field's slot lies behind all fields of earlier arguments, at its place in its own struct |
| FlatArgs.SlotsBefore | numba_dpex/core/utils/kernel_flattened_args_builder.py:75-112 | The first slot of an argument: one for each plain value before it, two for a complex number, three and twice the rank for an array |
| FlatArgs.ArgumentSlots | numba_dpex/core/utils/kernel_flattened_args_builder.py:75-216 | What is in each slot of each argument: real before imaginary part; item count, item size, data, then the shape, then the strides |

## Left out

- LLVM IR emission, SPIR-V, dpctl, SYCL and CPython calls: only what they own or return appears.
- Floating-point elements: reductions and products are over unbounded integers.
- The value of a reduction variable before its loop: `copy_final_sum_to_host` overwrites it, so the result is the fold from the identity.
- Loops that do not start at 0 or step by 1, reductions over nested loops, operations other than + and *: the source refuses or does not handle them.
- TreeKernel.ItemProgram: the stub's text generation is modelled by the code it emits, already split at the barriers.
- MemInfo.NrtMemInfo.constructor: failing allocations are left out.
- MemInfo.NrtMemInfo.CallDtor: an absent destructor and the statistics counters are not modelled; the state machine is of a runtime that is not shutting down.
- MemInfo.NrtMemInfo.UsmNdArrayDtor: the early return on missing destructor info is left out.
- MemInfo.NextInv: the window between submitting a kernel and taking its references is covered by the host's own reference, which the enabling condition of a drop states; synchronous launches wait and need no references.
- Splice.KernelIR.RunPass: renaming of variables, `rename_labels` and `remove_dels` are left out; the body is assumed to leave only off the end of its greatest label.
- ArrayExpr.TreeToIr: types and `calltypes` are not tracked, and every operator has the operands it needs.
- ArrayExpr.ParforComputesExpression: arrays are read at the loop index, without broadcasting; expressions with operators that raise an error are excluded.
- Mangler.RoundTrip: `uid`, `prepend_namespace` and `_split_mangled_ident` are left out, as are values that are neither type, integer nor string; a bare string is the same as a type without parameters.
- Layout.UsmArrayStruct.FromPython: failures of the Python or SYCL calls it makes are left out; the source's signed products are taken to wrap.
- IndexSpace.LaunchNdRange: local-accessor arguments and the kernel's effects are left out.
- ComputeFollowsData.SeenArraysStay: asks that casts keep their targets; `StableExactly` shows that it must and `CastMovesSeenArray` what happens otherwise.
- ComputeFollowsData.LegalizeKeeps: the same condition.
- ComputeFollowsData.ParforDeviceIsFinal: the same condition.
- ComputeFollowsData.Legalizer.BuildChecklist: the source sorts the inputs; their order does not matter to the result.
- ComputeFollowsData.Legalizer.LegalizeExpr: re-resolving the signature of a rewritten `dpnp.empty` call is modelled by recording the array type that it asks for.
- KernelCache.CachingIsTransparent: hashing of keys is taken to agree with their equality; concurrent launches are not modelled.
- Scan.HillisSteeleScan: lockstep only; all other interleavings are in `ScanRuns.dfy`.
- FlatArgs.Builder.BuildArrayArg: values and type ids of the fields are left out; for local accessors every stride is the itemsize.
- FlatArgs.Builder.AddArgument: values and type ids of the fields are left out.
- Type declarations, math tables, decorators, configuration, diagnostics and debug information: only easy members.
