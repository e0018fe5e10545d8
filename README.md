# Tensor descriptors, views, zero-fill and equality

This project models the descriptor core of the NNC tensor subsystem, the
file `lib/nnc/ccv_nnc_tensor.c`. It covers four parts.

- **Construction.** `ccv_nnc_tensor_new` and `ccv_nnc_tensor` build a
  descriptor: its type tag, signature, reference count, configuration and
  data pointer. This includes the toll-free bridging rule. Under that rule a
  host NHWC tensor with a channel count, rows, columns and no fourth axis
  records its channel count in the type tag and a legacy row step in axis
  slot 4.
- **Views.** `_ccv_nnc_tensor_view_set`, `ccv_nnc_tensor_view_new` and
  `ccv_nnc_tensor_view` make a view. A view aliases the base's buffer and
  keeps the base's extents as its stride array `inc`. Its start is the
  fastest-axis-first linear address of the requested offset.
- **Zero-fill.** `ccv_nnc_tensor_zero` clears a plain tensor with one
  bulk write. It clears a view row by row, plane by plane and block by
  block. A mixed-radix odometer steps the block pointer over the higher
  axes, using a period table `mod` and a step table `mod_inc`. As
  written, the downward pass that fills `mod_inc` can make the pointer
  clear padding and skip cells of the view (see Findings). The result that a view has exactly its
  cells cleared is proved with the corrected downward pass,
  `TensorZero.DownPass`.
- **Equality.** `ccv_nnc_tensor_eq` checks the data type and the shape
  up to the first axis where both extents are zero. It then compares every
  element pair: first as integers that order float bit patterns, with a
  tolerance of 128 units in the last place, then with an absolute float
  tolerance.

Modules:

- `TensorTypes`: the records, plus ranks and prefix products.
- `TensorAlloc`: the constructors.
- `TensorViews`: the view engine.
- `Odometer`: the mixed-radix counter, and the proof that, with the
  corrected step table, its pointer walk visits the view's blocks in order.
- `TensorZero`: the zero-fill over an `array<int>` buffer.
- `ViewBounds`: when the cells the zero-fill visits for a constructed view
  lie in the base's buffer.
- `TensorEq`: the comparison.
- `TensorScenario`: one composed case.

Modelling choices:

- The type tag is a set of abstract flag bits, a data type and a channel
  count. Clearing the low 12 bits of a tag (`& ~0xfff`) sets the channel
  count to 0.
- A data pointer is an allocation block id plus an element offset.
- Element values in the zero-fill are integers. Element bit patterns in
  the comparison are 32-bit unsigned words, with two's-complement reading
  and unsigned wrap-around written out.
- `CCV_NNC_MAX_DIM_ALLOC` is 8.
- `ccv_nnc_tensor_count` is taken to be the product of the extents before
  the first zero one. Its header is not part of this model.
- `CCV_TENSOR_IS_DENSE_MATRIX` is taken to test for a non-zero channel
  count in the tag.
- `CCV_MAX_CHANNEL` and `CCV_GET_STEP` are parameters (the `Legacy`
  record).
- The allocator's result is a block id parameter.
- The float tolerance test and `ccv_matrix_eq` are function parameters.
- Asserts the C code makes on its callers are `requires` clauses:
  - a residency flag must match the memory;
  - a by-value wrap needs a non-null pointer;
  - `ccv_nnc_tensor_view` needs a base that is not a view;
  - neither argument of the comparison may be a view;
  - the comparison's data type must be single-precision float.

## Model

| member | source | states |
|---|---|---|
| TensorAlloc.BridgedInfo | lib/nnc/ccv_nnc_tensor.c:19-24 | the recorded configuration is the caller's; when bridging, slot 4 becomes the legacy row step of (columns, data type, channels) and every other slot is kept |
| TensorAlloc.TagFor | lib/nnc/ccv_nnc_tensor.c:20-26 | the tag carries the given ownership bits plus MATRIX_DENSE and the data type; it carries the channel count dim[0] exactly when the configuration bridges, otherwise none |
| TensorAlloc.TensorNew | lib/nnc/ccv_nnc_tensor.c:9-63 | a plain descriptor with sig 0 and refcount 1; the configuration is the caller's except slot 4 when bridging; a non-null pointer gives NO_DATA_ALLOC without UNMANAGED and data at that pointer; allocation gives UNMANAGED without NO_DATA_ALLOC and data at the start of the new block; residency flags must agree with the memory on the allocating path only |
| TensorAlloc.TensorByValue | lib/nnc/ccv_nnc_tensor.c:65-89 | requires a non-null pointer and agreeing residency; the descriptor's flags are exactly NO_DATA_ALLOC, UNMANAGED and MATRIX_DENSE; the configuration and channel count follow the bridging rule; the data is the caller's pointer |
| TensorAlloc.WrapsAgree | lib/nnc/ccv_nnc_tensor.c:14-29 | wrapping the same pointer on the heap and by value gives the same configuration, data, sig, refcount, data type and channels; the by-value tag adds exactly UNMANAGED |
| TensorAlloc.DenseMatrixIffBridges | lib/nnc/ccv_nnc_tensor.c:13 | a constructed descriptor tests as a legacy dense matrix if and only if its configuration bridges |
| TensorAlloc.ConstructedExtents | lib/nnc/ccv_nnc_tensor.c:13-24 | a descriptor built from non-negative extents has non-negative extents on every axis before the first zero, whatever row step bridging writes into slot 4, so the plain zero-fill applies to it |
| TensorAlloc.ConstructedCount | lib/nnc/ccv_nnc_tensor.c:22-24 | rewriting slot 4 never changes the element count, because a bridging configuration has a zero extent at axis 3 |
| TensorViews.ViewRank | lib/nnc/ccv_nnc_tensor.c:106 | the walked axes are the leading ones with a positive requested extent; the next axis, if any, is not positive |
| TensorViews.ViewSet | lib/nnc/ccv_nnc_tensor.c:100-112 | the stride array is the base's extents, the shape is the requested one, and the data pointer is the base's pointer advanced by the linear address of ofs over the walked axes; tag, sig and refcount are untouched |
| TensorViews.ViewNew | lib/nnc/ccv_nnc_tensor.c:114-123 | a view laid out as one, with the base's flags plus VIEW, the base's data type, no channel count, refcount 1 and sig 0; the base's configuration with the requested extents; strides are the base's extents; it points into the base's block at the computed start |
| TensorViews.ViewByValue | lib/nnc/ccv_nnc_tensor.c:125-135 | requires a base that is not a view and yields the same descriptor as the heap constructor; removing VIEW from its flags gives back the base's flags |
| TensorViews.LinBound | lib/nnc/ccv_nnc_tensor.c:104-110 | an index whose digits are below their strides has a linear address in [0, product of the strides) |
| TensorViews.ViewCellInside | lib/nnc/ccv_nnc_tensor.c:104-111 | when every requested window fits its axis (ofs[i] + dim[i] <= inc[i]), the view's start and every cell of its window lie inside the base's ElementCount cells |
| Odometer.Top | lib/nnc/ccv_nnc_tensor.c:159 | the upward pass stops at the first zero extent from axis 3, or at MaxDim |
| Odometer.BlockCount | lib/nnc/ccv_nnc_tensor.c:164 | the block count, the product of the higher extents, is positive |
| Odometer.CarryLen | lib/nnc/ccv_nnc_tensor.c:183-187 | the carry loop runs while mod[j] divides the next block number and j + 1 < dim_count, and stops at the first j where either fails |
| Odometer.Carry | lib/nnc/ccv_nnc_tensor.c:182-187 | going from block b to b + 1 raises the mixed-radix offset by the block step plus the gaps of exactly the axes that wrap |
| Odometer.CarrySumIsGaps | lib/nnc/ccv_nnc_tensor.c:183-187 | with the corrected step table, the carries the loop adds are the gaps of the axes whose period divides the block number |
| Odometer.WalkFollowsBlocks | lib/nnc/ccv_nnc_tensor.c:169-188 | with the corrected step table, the block pointer before block b is the view's start plus the mixed-radix offset of b over the higher axes |
| Odometer.AsWrittenMissesCell | lib/nnc/ccv_nnc_tensor.c:167-168 | with the downward pass as written, extents [1,1,1,2,2] over strides [1,1,1,3,2] make the pointer visit 0, 1, 2, 3, while the view's blocks start at 0, 1, 3, 4 |
| TensorZero.AtLeastOne | lib/nnc/ccv_nnc_tensor.c:172-175 | ccv_max(1, n) is at least 1 and at least n, is one of 1 and n, and is n when n >= 1 |
| TensorZero.ZeroRun | lib/nnc/ccv_nnc_tensor.c:177 | a memset of n cells from p clears exactly those cells and no other |
| TensorZero.ZeroBlock | lib/nnc/ccv_nnc_tensor.c:172-180 | the plane and row loops clear exactly the rows of every plane of block b: the cells (i2, i1, i0) with i0 < dim[0], i1 < max(1, dim[1]), i2 < max(1, dim[2]) |
| TensorZero.UpPass | lib/nnc/ccv_nnc_tensor.c:154-166 | mod[j] is the period of higher axis j, mod_inc[m] the stride product up to axis m + 3, count the block count and dim_count the number of higher axes |
| TensorZero.DownPass | lib/nnc/ccv_nnc_tensor.c:167-168 | the corrected downward pass leaves the step table whose carries make the walk follow the blocks |
| TensorZero.ZeroView | lib/nnc/ccv_nnc_tensor.c:151-188 | with the corrected downward pass (TensorZero.DownPass, see Findings), zeroing a view sets exactly the view's cells to 0 and leaves every other cell unchanged, the stride padding included |
| TensorZero.Zero | lib/nnc/ccv_nnc_tensor.c:143-189 | a plain tensor has exactly its ElementCount cells from its data pointer cleared; a view, with the corrected downward pass (TensorZero.DownPass, see Findings), has exactly its cells cleared; nothing else changes |
| ViewBounds.HOffBelow | lib/nnc/ccv_nnc_tensor.c:169-188 | the block offset over the higher axes is non-negative and at most the address of the largest higher-axis digits |
| ViewBounds.StartAddress | lib/nnc/ccv_nnc_tensor.c:104-111 | the view's start is non-negative and equals the address of the offset with the axes past the walked ones set to zero |
| ViewBounds.CellInBase | lib/nnc/ccv_nnc_tensor.c:169-188 | when the window fits the base on every axis with a positive extent, every cell the zero-fill visits for the constructed view lies among the base's ElementCount cells from its data pointer |
| ViewBounds.ViewNewCellsInside | lib/nnc/ccv_nnc_tensor.c:114-123 | under the same fit, a constructed view is laid out as one and meets the zero-fill's requirement that all its cells lie in the buffer |
| ViewBounds.WalkedAxesNotEnough | lib/nnc/ccv_nnc_tensor.c:104-111 | extents [2, 0, 3] over a 4 × 4 base fit on the walked axes, yet the zero-fill visits cell 32 of a 16-cell base, because it walks planes past the axes the start computation stopped at |
| TensorScenario.WindowOfSquare | lib/nnc/ccv_nnc_tensor.c:114-189 | a 2 × 2 view at (1, 1) of a freshly allocated 4 × 4 host tensor starts at cell 5, fits the 16-cell buffer, and covers exactly cells 5, 6, 9 and 10 |
| TensorEq.Signed | lib/nnc/ccv_nnc_tensor.c:219 | reading a pattern as int32_t gives its two's-complement value: the pattern itself or the pattern minus 2^32, in the int32 range, negative exactly when the sign bit is set |
| TensorEq.MonoIsSignMagnitude | lib/nnc/ccv_nnc_tensor.c:219-224 | the replacement 0x80000000 − i32 for negatives makes the comparison integer the sign-magnitude reading of the float pattern |
| TensorEq.MonoRange | lib/nnc/ccv_nnc_tensor.c:219-224 | comparison integers lie in [−(2^31 − 1), 2^31 − 1], and +0.0 and −0.0 both map to 0 |
| TensorEq.Wrap32 | lib/nnc/ccv_nnc_tensor.c:225 | wrapping to int32_t lands in the int32 range, is congruent to its argument modulo 2^32, and changes nothing inside the range |
| TensorEq.AsWrittenAgreesWithoutOverflow | lib/nnc/ccv_nnc_tensor.c:225 | when the difference of the comparison integers fits an int32, the wrapped element test and the mathematical one agree |
| TensorEq.AsWrittenAcceptsOpposites | lib/nnc/ccv_nnc_tensor.c:225 | for 2.0 and −2.0 the wrapped test does not reject, whatever the float test says; the mathematical test rejects when the float test finds them far apart |
| TensorEq.ShapeEnd | lib/nnc/ccv_nnc_tensor.c:204-207 | the shape loop stops at the first axis where both extents are zero, or at MaxDim; before it, no axis has both zero |
| TensorEq.Eq | lib/nnc/ccv_nnc_tensor.c:191-229 | a dense matrix gives the legacy comparison's result; otherwise the result is 0 or −1, and it is 0 exactly when the data types agree, the extents agree before the first shared zero, and no pair among the compared elements is both more than 128 apart as comparison integers, the distance measured without int32 overflow (see Findings), and far apart as floats |
| TensorEq.SameShapeIsSameRank | lib/nnc/ccv_nnc_tensor.c:204-211 | the shape check holds if and only if both tensors have the same rank and the same extents below it |
| TensorEq.CompareCountIsElementCount | lib/nnc/ccv_nnc_tensor.c:210 | once the shapes agree, the number of compared elements is the element count of either tensor |
| TensorEq.AcceptsItself | lib/nnc/ccv_nnc_tensor.c:216-228 | a tensor compared with itself over the same data is accepted |
| TensorEq.AcceptsSymmetric | lib/nnc/ccv_nnc_tensor.c:199-228 | when the float test is symmetric, swapping the two tensors (and their data) does not change acceptance |
| TensorEq.DifferentTypesDiffer | lib/nnc/ccv_nnc_tensor.c:199-200 | tensors of different data types are never accepted |
| TensorEq.DifferentRanksDiffer | lib/nnc/ccv_nnc_tensor.c:204-209 | tensors of different rank are never accepted, including when one extent is zero and the other is not |
| TensorEq.ZerosClose | lib/nnc/ccv_nnc_tensor.c:219-225 | +0.0 and −0.0 never reject each other |

## Left out

- Memory management. The model does not include `ccmalloc`, `ccmemalign`
  (16-byte alignment, descriptor and payload in one block), `cumalloc`,
  `cufree`, `ccfree`, `ccv_nnc_tensor_free` or `ccv_nnc_tensor_view_free`.
  These are allocator and device-runtime calls. An allocation is the block
  id the caller passes, and ownership is the NO_DATA_ALLOC and UNMANAGED
  flags.
- Both build variants. The device branch of `ccv_nnc_tensor_new` (the
  `HAVE_CUDA` build) is modelled only as a block from the allocator; the
  host-only build's extra memory assert is not.
- Byte sizes. `sizeof(float)`, `CCV_GET_DATA_TYPE_SIZE`, `memset` byte
  counts and pointer casts are not modelled. Buffers are indexed by
  element.
- The bit layout of the type tag and the numeric values of its flags. The
  headers defining them are not part of this model.
- `ccv_matrix_eq`, the legacy comparison. It is a function parameter of
  `TensorEq.Eq`.
- The float tolerance test `fabsf(a − b) > FLT_EPSILON`. Floating point is
  not modelled, so the test is a function parameter of the element test.
- C `int` overflow in the prefix products, the view start, `count` and
  `mod`/`mod_inc`. Integers are unbounded there. The one overflow whose
  effect the model spells out is the subtraction in the element test (see
  Findings).
- TensorZero.Zero: one buffer stands for whichever block the descriptor's
  data points into. The block id is not checked against the buffer, and
  cell values are abstracted to integers.
- TensorZero.ZeroView: it requires every view extent to be non-negative
  and every cell of the view to lie in the buffer. The code checks neither.
  ViewBounds.ViewNewCellsInside shows that these requirements hold for a
  constructed view whose window fits the base on every axis with a
  positive extent. ViewBounds.WalkedAxesNotEnough shows that fitting only
  the walked axes (TensorViews.ViewFits) is not enough.
- Negative extents. The code never checks the sign of an extent. The
  plain path of TensorZero.Zero requires the extents before the first zero
  to be non-negative, and the view lemmas require every requested extent
  and every base extent to be non-negative. What the C code does with a
  negative extent (a negative `memset` size, pointers before the buffer)
  is not modelled.
- An element pair fails the comparison only when both tolerances fail,
  so a pair passes when either one holds. The model follows the code.

## Findings

| source | as written | input that shows it | evidently intended | confidence | as-written member | corrected member |
|---|---|---|---|---|---|---|
| lib/nnc/ccv_nnc_tensor.c:167-168 | the downward pass stores Π_{m<c+2} inc[m] × (inc[c+3] − dim[c+3]) in mod_inc[c]: the padding of the axis above the one that wraps | a view with extents [1,1,1,2,2] over a base with extents [1,1,1,3,2] at offset 0: the code clears cells 0, 1, 2, 3, but the view's cells are 0, 1, 3, 4 | mod_inc[c] = Π_{m<c+2} inc[m] × (inc[c+2] − dim[c+2]), the padding of axis c+2, so the walk follows the blocks | not executed | Odometer.AsWrittenMissesCell | TensorZero.DownPass |
| lib/nnc/ccv_nnc_tensor.c:225 | `abs(i32a - i32b)` is computed in int32_t, so the difference of two comparison integers can overflow; with two's-complement wrap-around a difference of exactly 2^31 becomes INT_MIN, and `abs` of that stays negative | 2.0 (0x40000000) against −2.0 (0xC0000000): the comparison integers are 2^30 and −2^30, the difference wraps to INT_MIN, the first test fails and the elements are accepted although they are 4.0 apart | the distance measured without overflow (for example in 64 bits), which rejects the pair | not executed; signed overflow is undefined in C, and the as-written member assumes wrap-around | TensorEq.AsWrittenAcceptsOpposites | TensorEq.Eq |
