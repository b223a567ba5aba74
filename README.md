# gradino core, modelled in Dafny

gradino is a small C library for automatic differentiation over tensors. It has four layers:

- **An arena bump allocator.** It reserves a region of virtual memory and commits it in whole `commit_size` steps as allocations advance. It can be rolled back to its base, by a byte count, or to a saved position.
- **A tensor descriptor.** It holds up to four extents, right-aligned into four slots. A unit axis has stride 0, which is how broadcasting works. The shape rules for elementwise add, batched matrix products (plain, transposed-left, transposed-right), reduce-sum, cross entropy and scaled subtraction live here.
- **CPU kernels.** These include:
  - the broadcasting add, with a 16-lane vector path and a scalar path;
  - relu forward and backward;
  - reduce-sum along one axis;
  - a 6x16-tiled matrix product (`mmul_6x16`, `matmul_tile6x16`), its transposed-right and transposed-left variants, and the batch loop over axes 0 and 1;
  - the backward kernels of add and of the product.
- **An op graph.** A `GradTensor` node holds a value, a gradient and an `Op`: a Mono op (nop or relu) or a Binary op (add), with source and destination nodes. `op_fwd` and `op_bwd` dispatch on the op's tag. The builders `create_gradt`, `create_gradt_from_tens`, `relu` and `add` create nodes whose ops point at existing nodes.

The model follows the source's own form:

- The arena record is a class (`Arena.Allocator`). Its methods update the fields in place and are proved against pure state-transition functions (`AllocSpec`, `FreeSpec`, …).
- A tensor is a class (`Tensors.Tensor`) with constant shape and stride sequences and a mutable `array<real>` buffer.
- The shape rules are pure functions, with lemmas that state them in full.
- Every kernel is a method with the source's loops: the index odometer, the chunk loop with its tail, and the tile loops. The SIMD registers become 16-element sequences (`Lanes`). Each kernel is proved to leave in every buffer position the value given by an independent element-wise definition:
  - `SumAt` for the broadcast sum;
  - `Relu`/`ReluGrad`;
  - `ReduceSum`;
  - `ProductAt`, the sum over the shared axis of op(a)·op(b) at a result index.
- The node graph is a class (`Graph.NodeStore`) holding a sequence of nodes. The pointers between nodes are indices into that sequence. The op setters, `op_fwd`, `op_bwd` and the builders are methods on it.

The model proves, among other things:

- `ALIGN_UP_POW2` rounds up to the least multiple of a power of two.
- Allocation is a bump, and successive allocations are disjoint and increasing. `commit_pos` never decreases. A rollback to a checkpoint followed by the same allocations returns the same blocks.
- The odometer visits every index of a shape in row-major order.
- Each kernel computes its reference definition, except where the source differs from it (see Findings).
- Relu, plain product and transposed-right product results equal their reference definitions element by element, including under broadcasting. The add and the transposed-left product do not, as the source is written. `tensor_add` leaves columns past the tail's first column unwritten (`Kernels.KernelAdd`). `tensor_mul_tr(a, b, true, false)` writes zeros over some cells (`AtStore.KernelMulAt`). The corrected kernels (`Kernels.KernelAddFixed`, `Product.KernelMulAtFixed`) equal their reference definitions everywhere.
- Graph links only point to older nodes, so no path through the graph returns to its start.

## Model

| member | source | states |
|---|---|---|
| Arena.BitAndLowMask | src/arena.c:8 | masking with `p - 1` keeps exactly the remainder mod a power of two `p`, so the macro's mask is a rounding-down to a multiple of `p` |
| Arena.AlignUpIsLeastMultiple | src/arena.c:8 | for a power of two `p`, `ALIGN_UP_POW2(n, p)` is a multiple of `p`, lies in `[n, n + p)`, and is no larger than any multiple of `p` that is at least `n` |
| Arena.AlignUpCovers | src/arena.c:8 | for any `p >= 1`, even one that is not a power of two, the macro's result lies in `[n, n + p - 1]` |
| Arena.NonPow2CommitStep | src/arena.c:66-71 | a page-rounded commit size need not be a power of two (12288); the macro then rounds 1 up to 4096, which is not a multiple of 12288, so commit steps are not always whole `commit_size` multiples |
| Arena.CreateArena | src/arena.c:30-51 | returns null exactly when reserving or committing fails; otherwise a fresh arena in the state `CreateSpec` gives (page-rounded sizes, `commit_pos` = rounded commit size, `alloc_pos` = header rounded to the alignment) |
| Arena.CreateFacts | src/arena.c:33-49 | the created state's reserve and commit sizes are the least page multiples at or above the requested ones; commit_pos equals the commit size; with a power-of-two alignment, alloc_pos is aligned and past the 40-byte header |
| Arena.Allocator.Alloc | src/arena.c:57-77 | the new state and the returned block are those `AllocSpec` gives for the old state, the request and the OS commit outcome |
| Arena.AllocCases | src/arena.c:57-77 | an allocation succeeds iff the aligned end fits the reserve size and is either already committed or the commit is granted; on success it returns the old alloc_pos and moves alloc_pos to the aligned end; on failure nothing changes; commit_pos never decreases and is unchanged when no commit was needed |
| Arena.AllocKeepsAlignment | src/arena.c:58 | with a power-of-two alignment an aligned alloc_pos stays aligned, and a success advances it by at least `el_size * n_el` |
| Arena.CommitIncrementFacts | src/arena.c:66-71 | the commit increment is at most reserve_size, covers the missing bytes unless it was capped at reserve_size, and is a commit_size multiple (or the cap) for a power-of-two commit size |
| Arena.AllocStaysCommitted | src/arena.c:66-75 | with a positive commit size, every success leaves alloc_pos at or below commit_pos |
| Arena.ZeroCommitSizeNeverGrows | src/arena.c:66-71 | with commit_size 0 the increment rounds to 0, so an allocation past commit_pos succeeds while commit_pos stays where it was |
| Arena.CommitCapOvershoots | src/arena.c:69-71 | because the cap bounds the increment and not the total, a commit near the end of the reservation leaves commit_pos beyond reserve_size |
| Arena.Allocator.Free | src/arena.c:79-81 | alloc_pos returns to the post-header base; every other field is unchanged |
| Arena.Allocator.FreeSize | src/arena.c:83-87 | the new state is `FreeSizeSpec` of the old one |
| Arena.FreeSizeClamps | src/arena.c:83-87 | free_size gives `max(alloc_pos - size, base)` and never goes below the base |
| Arena.FreeSizeUndoesAlloc | src/arena.c:83-87 | freeing the aligned size of a successful allocation restores the alloc_pos from before it |
| Arena.Allocator.FreeTo | src/arena.c:89-92 | the new state is `FreeToSpec` of the old one, alloc_pos = `max(new_pos, base)` |
| Arena.FreeToHasNoUpperClamp | src/arena.c:89-92 | free_to accepts a position past reserve_size, after which every allocation fails |
| Arena.Run | src/arena.c:57-92 | a sequence of alloc/free/free_size/free_to calls keeps alloc_pos at or above the post-header base |
| Arena.RunKeepsCommitted | src/arena.c:57-92 | over any call sequence commit_pos never decreases and reserve size, commit size and alignment never change |
| Arena.CommitMonotone | src/arena.c:66-92 | commit_pos after a prefix of calls is at most commit_pos after any longer prefix |
| Arena.AllocsAdvance | src/arena.c:74-75 | over a sequence of allocations, alloc_pos after a prefix is at most alloc_pos after any longer prefix |
| Arena.AllocationsDisjoint | src/arena.c:74-75 | the blocks of two successful allocations in a sequence are disjoint and in increasing order: the earlier one ends at or before the later one starts |
| Arena.ReplayAllocSameBlock | src/arena.c:57-77 | an arena with the same alloc_pos and at least as much committed returns the same block for the same request |
| Arena.ReplayPrefix | src/arena.c:57-92 | after free_to back to the starting position, replaying a run of successful allocations reaches the same alloc_pos with at least as much committed |
| Arena.ReplayRun | src/arena.c:57-92 | after free_to back to the starting position (a checkpoint), replaying the same allocations returns the same blocks |
| Shapes.AlignShapeFacts | src/tensor.c:14-24 | the given extents are right-aligned into four slots, the leading slots are 1, and the product of the extents is unchanged |
| Shapes.LinearBound | src/cpu_kernels.c:67-74 | the row-major position of an in-range index is below the product of the extents |
| Shapes.UnravelLinear | src/cpu_kernels.c:67-74 | unravelling the row-major position of an in-range index gives the index back |
| Shapes.LinearUnravel | src/cpu_kernels.c:67-74 | every position below the product unravels to an in-range index whose row-major position is that position |
| Shapes.OffsetIsLinear | src/tensor.c:17-18 | for a tensor's own shape the stride-weighted offset of an index is its row-major position |
| Shapes.CarryStep | src/cpu_kernels.c:67-74 | one odometer step (increment the last axis, carry on overflow) moves an in-range index to the next row-major position |
| Shapes.BroadcastOffset | src/cpu_kernels.c:58-65 | the stride-weighted offset of a result index in an operand that fits the result reads the operand at the broadcast index (unit axes pinned to 0), within the operand's buffer |
| Shapes.AddShapeSpec | src/tensor.c:68-79 | add's shape is defined iff on every axis the extents agree or one is 1; the result takes the non-unit extent; otherwise the error is a shape mismatch |
| Shapes.AddShapeCommutes | src/tensor.c:68-79 | the add shape of (a, b) is that of (b, a) |
| Shapes.MulTrShapeSpec | src/tensor.c:113-158 | the product shape is defined iff batch axes 0-1 broadcast and the shared extent agrees (`a[3]==b[2]` plain, `a[2]==b[2]` transposed-left, `a[3]==b[3]` transposed-right); the batch axes broadcast and the matrix axes are op(a)'s rows and op(b)'s columns |
| Shapes.MulShapeIsPlainMulTr | src/tensor.c:86-109 | tensor_mul's shape rule is the untransposed case of tensor_mul_tr's |
| Shapes.ReduceShapeSpec | src/tensor.c:163-170 | reduce's shape is defined iff the axis is below 4, and then equals the source with that axis set to 1 (the element count divides accordingly) |
| Shapes.CrossEntropyShapeSpec | src/tensor.c:176-189 | cross entropy's shape is defined iff the last extents agree and axes 0-1 are 1 on both inputs; the result has one element |
| Shapes.SubScaledShapeSpec | src/tensor.c:195-201 | scaled subtraction is defined iff the shapes are identical |
| Tensors.LayoutIsAligned | src/tensor.c:13-24 | the slot-by-slot shape and stride that tensor_create's loops fill are the aligned shape and its strides |
| Tensors.TensorCreate | src/tensor.c:8-28 | null iff more than four extents; otherwise a fresh tensor with the aligned shape, its strides, `data_len` = product of the extents, and a buffer of that length |
| Tensors.TensorSet | src/tensor.c:61-65 | every element of the buffer becomes the given value |
| TensorOps.TensorAdd | src/tensor.c:67-84 | fails with a shape mismatch exactly when the add shape is undefined; otherwise returns a fresh tensor of the add shape, filled by the add kernel as written. Every element whose column is at most `AddCut` is the broadcast sum. Every element is the sum unless the vector path runs with two or more tail columns |
| TensorOps.TensorMul | src/tensor.c:86-109 | fails exactly when the product shape is undefined; otherwise a fresh tensor of that shape holding the batched product element by element |
| TensorOps.TensorMulTr | src/tensor.c:111-160 | fails with a shape mismatch when the shape is undefined and with "unimplemented" for the doubly-transposed case. Otherwise returns a fresh tensor holding `MulTrAt`: op(a)·op(b), except that the transposed-left kernel as written leaves zero on clobbered cells. The result is op(a)·op(b) at every element unless it is a transposed-left product with more than one row and a column count above 16 that is not a multiple of 16 |
| TensorOps.UnclobberedCell | src/cpu_kernels.c:255-257 | when a transposed-left product has one row, or a column count of at most 16, or a multiple of 16, no cell of it is clobbered |
| TensorOps.TensorReduceAdd | src/tensor.c:162-173 | fails with a bad axis exactly when the axis is above 3; otherwise a fresh tensor of the reduced shape holding the sums along that axis |
| TensorOps.ReduceUnitAxis | src/tensor.c:162-173 | reducing along an axis of extent 1 leaves the data unchanged |
| Kernels.MaxZeroIsRelu | src/cpu_kernels.c:170-195 | the vector path's lane-wise maximum with zero is the scalar path's `x > 0 ? x : 0` |
| Kernels.KernelRelu | src/cpu_kernels.c:170-195 | on a shape mismatch nothing is written; otherwise every destination element is the relu of the source element at that position (16-wide chunks plus tail) |
| Kernels.KernelReluBwd | src/cpu_kernels.c:197-223 | unless the three shapes agree nothing is written; otherwise every source gradient element is the incoming gradient where the source is positive and 0 elsewhere |
| Kernels.Offsets | src/cpu_kernels.c:58-63 | the accumulated offsets are the stride-weighted sums over the first `n` axes |
| Kernels.Advance | src/cpu_kernels.c:67-74 | the index loop performs exactly one odometer carry step on the first `n` axes |
| Kernels.AddVectorPath | src/cpu_kernels.c:11-53 | every row's columns up to the cut hold the broadcast sum; all other positions keep their values |
| Kernels.AddScalarPath | src/cpu_kernels.c:54-77 | every position of the result holds the broadcast sum of its index |
| Kernels.KernelAdd | src/cpu_kernels.c:9-78 | as written: a position holds the broadcast sum when its column is at most `AddCut` and keeps its old value otherwise |
| Kernels.AddCovered | src/cpu_kernels.c:32-41 | unless the vector path runs with a remainder of at least 2 mod 16, every position's column is at most `AddCut`, so the kernel as written writes it |
| Kernels.AddCoverage | src/cpu_kernels.c:32-41 | as written, every position is written iff the vector path is not taken or the innermost extent leaves a remainder below 2 mod 16 |
| Kernels.AddTailGap | src/cpu_kernels.c:32-41 | for two 1x1x1x18 operands the last column (element 17) is not written |
| Kernels.KernelAddFixed | src/cpu_kernels.c:9-78 | with the tail loop indexing its own column, every position holds the broadcast sum |
| Kernels.KeptAxes | src/cpu_kernels.c:378-387 | the kept extents and their axis numbers are the three axes other than the reduced one, in order |
| Kernels.ReduceCell | src/cpu_kernels.c:392-404 | one kept position receives the sum along the reduced axis, read by stride from zero; nothing else changes |
| Kernels.KernelReduceAdd | src/cpu_kernels.c:377-408 | every result element is the sum of the source along the reduced axis at that position |
| Kernels.ReduceSumOfUnitAxis | src/cpu_kernels.c:401-404 | the sum over an extent-1 axis is the single source element |
| Kernels.ReduceSumIgnoresAxis | src/cpu_kernels.c:401-404 | the sum does not depend on the index's coordinate on the reduced axis |
| Lanes.MaskLowBits | src/cpu_kernels.c:117 | `0xFFFF >> (16 - m)` has exactly the low `m` lanes set, for `1 <= m <= 16` |
| Lanes.MaskBit | src/cpu_kernels.c:117 | lane `l` of the partial-tile mask is set iff `l < m` |
| Matmul.LoadB | src/cpu_kernels.c:119 | the right strip load holds the first `m` values of the row and zeros in the masked-off lanes |
| Matmul.TileAccumulate | src/cpu_kernels.c:97-125 | after the k loop, lane `l` of tile row `i` is the dot product of row `i` of the left block with column `l` of the strip (0 past `m`) |
| Matmul.StoreRow | src/cpu_kernels.c:127-129 | the masked store writes exactly the first `m` lanes at the offset and nothing else |
| Matmul.StoreRowUnmasked | src/cpu_kernels.c:255-257 | the unmasked store writes all sixteen lanes at the offset (within the buffer) and nothing else |
| Matmul.Mmul6x16 | src/cpu_kernels.c:96-131 | the `n` by `m` tile cells hold their dot products; every other buffer position is unchanged |
| Matmul.MatmulTile6x16 | src/cpu_kernels.c:134-144 | tiling with `n = min(6, rows - i)` and `m = min(16, cols - j)` leaves every cell of the matrix holding its dot product and nothing outside the matrix changed |
| Matmul.SumLanesIsDot | src/cpu_kernels.c:303-311 | the horizontal sum of lane-wise products over the first `n` lanes is the dot product over those elements |
| Matmul.DotVectors | src/cpu_kernels.c:297-309 | after the whole 16-wide vectors of the shared axis, the accumulator lanes sum to the dot product of the first `16 * (K / 16)` elements |
| Matmul.DotRows | src/cpu_kernels.c:300-317 | the 16-wide fused multiply-add loop plus tail returns the dot product of the two rows |
| Matmul.MatmulBt | src/cpu_kernels.c:296-320 | every cell `(i, j)` holds `Σk a[i*K+k] * b[j*K+k]`; nothing outside the matrix changes |
| Matmul.CellIsProduct | src/cpu_kernels.c:148-168 | the matrix cell the batch loop computes at a result index, using broadcast batch offsets, is the element of op(a)·op(b) at that index |
| Matmul.ProductIsReference | src/test.c:11-24 | for unbatched operands the product element is the reference triple-loop product cell |
| Product.MatCount | src/cpu_kernels.c:148-149 | the batch loop runs once per result matrix: the product of the batch extents |
| Product.MatrixProduct | src/cpu_kernels.c:150-157 | one batch step stores the product matrix of the selected operand matrices at the result matrix's offset |
| Product.MulBatch | src/cpu_kernels.c:146-169 | every element of the result is `ProductAt` of its index, the batch axes broadcasting |
| Product.KernelMul | src/cpu_kernels.c:146-169 | every result element is the element of a·b at its index |
| Product.KernelMulBt | src/cpu_kernels.c:322-345 | every result element is the element of a·bᵀ at its index |
| Product.KernelMulAtFixed | src/cpu_kernels.c:271-294 | with the tile store masked as in mmul_6x16, every result element is the element of aᵀ·b at its index |
| AtStore.Mmul6x16At | src/cpu_kernels.c:225-259 | the transposed-left tile stores every row with all sixteen lanes: the first `m` cells of each row hold their dot products, the lanes after them hold the tile's zeros |
| AtStore.MatmulAt | src/cpu_kernels.c:261-269 | every cell holds its product except the clobbered ones, which hold zero; the spill after the matrix is zeros and nothing else changes |
| AtStore.KernelMulAt | src/cpu_kernels.c:271-294 | as written: every result element is the element of aᵀ·b at its index, or zero on a clobbered cell |
| AtStore.ClobberedCells | src/cpu_kernels.c:255-257 | a left-transposed product has a cell overwritten with zero iff it has more than one row and its column count is above 16 and not a multiple of 16 |
| AtStore.AtStoreCounterexample | src/cpu_kernels.c:255-257 | for a 1x1x1x2 left operand and a 1x1x1x17 right one, all ones, cell (1, 0) is left 0 instead of 1 |
| Backward.ReducedShapeAt | src/cpu_kernels.c:84-90 | after reducing the first `i` axes of a set, an axis is 1 if it was reduced and keeps its extent otherwise |
| Backward.ReduceNoAxes | src/cpu_kernels.c:84-90 | reducing no axis changes neither shape nor data |
| Backward.AddBwdShapes | src/cpu_kernels.c:84-90 | for positive extents, reducing the incoming gradient along the axes where an operand is narrower than the other gives exactly that operand's shape |
| Backward.ReduceForOperands | src/cpu_kernels.c:81-90 | the two reduced gradients have the reduced shapes and hold the sums of the incoming gradient over each operand's narrower axes; an operand with nothing to reduce shares the incoming buffer |
| Backward.Copy | src/cpu_kernels.c:92-93 | memcpy makes the first `n` destination elements those of the source and leaves the rest |
| Backward.KernelAddBwd | src/cpu_kernels.c:80-94 | each operand's gradient is overwritten with the incoming gradient summed over its narrower axes (the second operand's even when both are the same buffer) |
| Backward.MulBwdShapes | src/cpu_kernels.c:351-375 | for a product `r = a·b`, both gradient products `r·bᵀ` and `aᵀ·r` are defined, and reducing their batch axes where an operand is broadcast gives exactly that operand's shape |
| Backward.BroadGrad | src/cpu_kernels.c:355-360 | the product, reduced over the broadcast batch axes, has the operand's shape and its sums. For r·bᵀ (the left side) the product is tensor_mul_tr's. For aᵀ·r it is the masked transposed-left kernel `Product.KernelMulAtFixed`, which only the corrected right gradient uses |
| Backward.MulBwdLeft | src/cpu_kernels.c:352-362 | a's gradient becomes `MulGrad` of `r_grad·bᵀ`: the product summed over the batch axes where a is broadcast |
| Backward.MulBwdRightAsWritten | src/cpu_kernels.c:364-374 | as written: with matching batches b's gradient is `aᵀ·r_grad` (zero on clobbered cells); otherwise it is reduced from itself and so left unchanged |
| Backward.MulBwdRight | src/cpu_kernels.c:364-374 | corrected in two ways: the reduction is applied to the broadcast product (line 370), and `aᵀ·r_grad` is taken with the masked transposed-left kernel `Product.KernelMulAtFixed` in place of `_tensor_kernel_mul_at` (lines 255-257). b's gradient then becomes `MulGrad` of `aᵀ·r_grad` |
| Backward.KernelMulBwd | src/cpu_kernels.c:351-375 | as written: a's gradient is its product gradient; b's is as `MulBwdRightAsWritten` states |
| Backward.KernelMulBwdFixed | src/cpu_kernels.c:351-375 | both gradients become their product gradients summed over their broadcast batch axes |
| Backward.MulBwdCounterexample | src/cpu_kernels.c:370 | for a 2x1x1x1 left operand, a 1x1x1x1 right one and all-ones data, the product is 2x1x1x1 and b's true gradient is `[2.0]`, which the as-written code does not write |
| Ops.FormedFrames | src/ops.c:5-29 | a built op's forward writes only its own node's value, never a source's; its backward writes only source gradients, never its own node's; a non-nop op has a destination and at least one source |
| Graph.BuiltLinked | src/grad.c:30-42 | a store built by the builders only links nodes to older nodes |
| Graph.BuiltExtend | src/grad.c:30-42 | appending a node whose op is formed over older nodes keeps the store built |
| Graph.PathDescends | src/grad.c:30-42 | along any path of source links, each step goes to a strictly older node |
| Graph.NoCycle | src/grad.c:30-42 | no path of source links of length two or more ends where it started |
| Graph.SelfAddGradient | src/cpu_kernels.c:80-94 | for `x + x` nothing is reduced, so the gradient is overwritten with the incoming one and not doubled |
| Graph.NodeStore.OpSetNop | src/ops.c:31-40 | node `k`'s op becomes the nop op (no source, no destination); nothing else changes |
| Graph.NodeStore.OpSetRelu | src/ops.c:50-56 | node `k`'s op becomes relu with the given source and destination; nothing else changes |
| Graph.NodeStore.OpSetAdd | src/ops.c:66-73 | node `k`'s op becomes add with the given two sources and destination; nothing else changes |
| Graph.NodeStore.OpFwd | src/ops.c:5-16 | relu writes the relu of its source's value into the node's value. Add runs the add kernel as written: elements whose column is at most `AddCut` get the broadcast sum of the sources' values, and the others keep their old values. Nop writes nothing. No other value and no gradient changes |
| Graph.NodeStore.OpBwd | src/ops.c:18-29 | relu writes its source's gradient from the source value and the node's gradient; add overwrites both sources' gradients with the node's gradient reduced to their shapes; no value and no other gradient changes |
| Graph.NodeStore.CreateGradt | src/grad.c:4-14 | fails iff more than four extents; otherwise appends a leaf (nop) node with fresh value and gradient buffers of the aligned shape, keeping the store built |
| Graph.NodeStore.CreateGradtFromTens | src/grad.c:16-22 | appends a leaf node whose value is the given tensor and whose gradient is a fresh buffer of its shape |
| Graph.NodeStore.ReluNode | src/grad.c:30-35 | appends a node shaped like the source, linked by a relu op from the source to itself, whose value is the relu of the source's value |
| Graph.NodeStore.AddNode | src/grad.c:37-42 | succeeds iff the add shape is defined. It then appends a node of that shape, linked by an add op from both sources to itself. Its value is what `TensorOps.TensorAdd` gives: the broadcast sum at every column at most `AddCut`, and at every position when the vector path has fewer than two tail columns |

## Left out

- The OS calls (`mmap`, `mprotect`, `munmap`, `sysconf`) and `destroy_arena` are not modelled. Reserve and commit outcomes are boolean parameters, and the page size is a parameter.
- The `usize`/`u32` widths are not modelled: sizes, offsets and extents are unbounded naturals, so products cannot wrap around.
- Values are `real`, not `f32`. Rounding, the order of floating-point additions in the lane sums, and the test tolerances are not modelled.
- The cross-entropy and scaled-subtraction kernels, and cross-entropy backward, are not modelled, because they use `expf`/`logf`. Only their shape rules are modelled.
- `tensor_print`, `tensor_randomize`, `src/utils.c`, `src/nn.c`, `src/optim.c` and the backward engine declared in `include/grad.h` are not part of this model.
- `malloc`/`free_gradt` lifetime is not modelled. Nodes live in an index-based store and are never freed.
- Tensors.TensorCreate: tensors get fresh buffers. The arena that `tensor_create` allocates from is not threaded through, so running out of arena space is not modelled.
- Matmul.StoreRowUnmasked: lanes past the end of the buffer are not written. In the source, such a store writes past the tensor's buffer. The bytes overwritten there belong to whatever the arena allocated next. In `mul_bwd` (src/cpu_kernels.c:367) that could be the buffer placed after `b_grad`.
- TensorOps.TensorAdd: columns past the add kernel's cut are not written, and the model says nothing about them. In the source they keep whatever the arena memory held, because `tensor_create` does not clear the buffer.
- Product.KernelMulAtBt: the source's `UNIMPL()` stops the program. The model returns an "unimplemented" error instead.
- Graph.NodeStore.AddNode: on a shape mismatch the source passes a null tensor to `create_gradt_from_tens`, which then dereferences it. The model returns `None` and leaves the store unchanged.
- Graph.NodeStore.OpFwd: requires the op to be formed as the builders form it: sources are older nodes, a relu source has the node's shape, and add sources broadcast to it. An op pointing anywhere else is not modelled. Relu applied in place, with source equal to destination, is not modelled either.
- Graph.NodeStore.OpBwd: for add, requires positive extents on both sources. With a zero extent, the source's `memcpy` reads past the reduced buffer's end.
- Backward.KernelMulBwd: requires distinct gradient buffers for the two operands. So `x * x`, where they alias, is not modelled.
- Graph.NodeStore.CreateGradtFromTens: requires a tensor whose buffer is not already in the store. Adopting a tensor that already backs another node is not modelled.
- Kernels.KernelAdd, Kernels.KernelRelu, Product.MulBatch: require the result buffer to differ from the operand buffers. The builders always pass a fresh result, so in-place use is not modelled.
- src/ops.c:43, 47, 59, 63 and src/grad.c:10-11, 19, 38 call `_relu_tensor`, `_relu_bwd_tensor`, `_add_tensor_inplace`, `_add_tensor_bwd`, `create_tensor` and `add_tensor`. Neither src/tensor.c nor src/cpu_kernels.c defines them (include/tensor.h only declares `create_tensor` and `add_tensor`). The model binds each one to the kernel or tensor operation with that job:
  - `_relu_tensor` to `Kernels.KernelRelu` (`_tensor_kernel_relu`);
  - `_relu_bwd_tensor` to `Kernels.KernelReluBwd` (`_tensor_kernel_relu_bwd`);
  - `_add_tensor_inplace` to `Kernels.KernelAdd` (`_tensor_kernel_add`, as written);
  - `_add_tensor_bwd` to `Backward.KernelAddBwd` (`_tensor_kernel_add_bwd`). That kernel takes a fourth argument, an arena, which ops.c does not pass. The model has no arena there: the reduced gradients are fresh tensors;
  - `create_tensor` to `Tensors.TensorCreate` (`tensor_create`), without the arena argument;
  - `add_tensor` to `TensorOps.TensorAdd` (`tensor_add`), without the arena argument.
- `add_bwd` overwrites the operand gradients with `memcpy` instead of accumulating into them. `relu_bwd` does the same. The model states this overwrite as the source's semantics (Backward.KernelAddBwd, Graph.SelfAddGradient) and does not list it as a finding, because no accumulation contract is stated anywhere in these files.

## Findings

| source | as written | input that shows it | evidently intended | confidence | as-written member | corrected member |
|---|---|---|---|---|---|---|
| src/cpu_kernels.c:32-41 | the tail loop of the vector add path counts with `k` but computes its offsets from `index[3]`, which it never advances, so it writes the first tail column over and over | two 1x1x1x18 operands: column 17 of the result is never written | every column after the 16-wide chunks receives its sum | not executed | Kernels.KernelAdd (Kernels.AddTailGap, Kernels.AddCoverage) | Kernels.KernelAddFixed |
| src/cpu_kernels.c:255-257 | the transposed-left tile stores all sixteen lanes of every row, even for a partial tile of `m < 16` columns, so the zeros past `m` overwrite the next row's first cells | a 1x1x1x2 left operand and a 1x1x1x17 right one, all ones: result cell (1, 0) is 0 instead of 1 | a masked store of the first `m` lanes, as at cpu_kernels.c:127-129 | not executed | AtStore.KernelMulAt (AtStore.AtStoreCounterexample, AtStore.ClobberedCells) | Product.KernelMulAtFixed |
| src/cpu_kernels.c:370 | the broadcast branch of b's gradient reduces `b_grad` itself instead of the product `b_grad_broad`, so b's gradient is left as it was | a 2x1x1x1 left operand and a 1x1x1x1 right one, all ones: b's gradient should be `[2.0]` but keeps its old value | reduce `b_grad_broad`, as the left side does at line 358 | not executed | Backward.KernelMulBwd (Backward.MulBwdCounterexample) | Backward.KernelMulBwdFixed |
