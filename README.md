# Shape model of the ndarray `product` benchmark

The repository is a single Criterion benchmark, `benches/bench_main.rs`. It multiplies two
random `f64` arrays of shape `[2; size]`. Before multiplying, it pads the left array with
`size / 2` length-1 axes at the end and the right array with `size / 2` length-1 axes at the
front. It then broadcasts the left view to `[2; size + size / 2]` and multiplies. The logic
in this benchmark is shape bookkeeping, and this project models it on shapes (`seq<nat>`,
one extent per axis):

- `shapes.dfy` (module `Shapes`): shapes, `vec![v; n]`, the element count of a shape, and
  ndarray's `insert_axis(Axis(k))`. That call inserts an axis of length 1 at position `k`
  and panics when `k` exceeds the rank, so `k <= rank` is its precondition.
- `padding.dfy` (module `Padding`): `insert_axes_first` and `insert_axes_end`. Each is a
  method with the source's `for` loop, proved against its doc comment with a loop
  invariant. Each call of `insert_axis` in the loops is proved to meet the precondition.
- `array_gen.dfy` (module `ArrayGen`): `random_array`. This covers the left fold that
  computes `n_elements` in 64-bit `usize` arithmetic (wrapping modulo 2^64), the vector of
  that many drawn values, and ndarray's `from_shape_vec`. It also covers the same fold
  with overflow checks. `random_array` is proved to panic exactly when a running product
  of the extents overflows a `usize`. For shapes without a zero extent, that is exactly
  when the element count itself does not fit.
- `broadcast.dfy` (module `Broadcast`): ndarray's `broadcast`, with trailing axes
  aligned, and the shape of `&lhs * &rhs`. At equal rank, the rule the benchmark relies
  on, this is proved to be the axis-by-axis check. Equal-rank co-broadcasting is a
  reference definition for the product's shape.
- `bench_product.dfy` (module `BenchProduct`): the shape plan of `product`. It proves that
  for every `size`, not only the swept ones, the padded operands broadcast to
  `expected_card`. A run panics exactly when `size >= 64`, in `random_array`, because
  `2^size` overflows a `usize`. Below that, the product has shape `expected_card` with
  `2^(size + size/2)` elements.
- `optional.dfy` (module `Optional`): the `Option` type standing for a failed `unwrap`.

The random generator is a parameter: `draw(i)` stands for the `i`-th call of `rng.gen()`.
Element values are otherwise opaque (type parameter `T`).

## Model

| member | source | states |
|---|---|---|
| `Shapes.Filled` | benches/bench_main.rs:44 | `vec![v; n]` has length `n` and every entry is `v` |
| `Shapes.InsertAxis` | benches/bench_main.rs:14 | `insert_axis(Axis(k))` with `k <= rank` gives rank + 1, extent 1 at `k`, axes before `k` kept, and axes from `k` on shifted one place right |
| `Shapes.InsertAxisKeepsProduct` | benches/bench_main.rs:14 | inserting a length-1 axis does not change the element count |
| `Shapes.ProductZero` | benches/bench_main.rs:31 | the element count is 0 exactly when some extent is 0 |
| `Shapes.ProductOnes` | benches/bench_main.rs:10-27 | a shape made only of added length-1 axes has one element |
| `Shapes.ProductFilledTwo` | benches/bench_main.rs:44-48 | shape `[2; n]` has `2^n` elements |
| `Shapes.Pow2Increasing` | benches/bench_main.rs:44-48 | `2^a < 2^b` whenever `a < b`: larger sizes give strictly larger element counts |
| `Padding.InsertAxesFirst` | benches/bench_main.rs:10-17 | the result is `[1; n_axis] ++ shape`, its rank is the old rank plus `n_axis`, its tail is the original shape, and `n_axis = 0` returns the shape unchanged; every `insert_axis(Axis(0))` in the loop is at a valid position |
| `Padding.InsertAxesEnd` | benches/bench_main.rs:19-27 | the result is `shape ++ [1; n_axis]`, because inserting at the current `ndim()` appends; the rank grows by `n_axis` and `n_axis = 0` returns the shape unchanged; every `insert_axis(Axis(a.ndim()))` is at a valid position |
| `Padding.PadFrontKeepsProduct` | benches/bench_main.rs:10-17 | padding at the front keeps the element count |
| `Padding.PadEndKeepsProduct` | benches/bench_main.rs:19-27 | padding at the end keeps the element count |
| `ArrayGen.MulModLeft` | benches/bench_main.rs:31 | wrapping the accumulator modulo 2^64 after each step does not change the final result modulo 2^64 |
| `ArrayGen.FoldMul` | benches/bench_main.rs:31 | the left fold of wrapping `usize` multiplication from accumulator `acc` equals `acc` times the product of the extents, modulo 2^64 |
| `ArrayGen.NElements` | benches/bench_main.rs:31 | `n_elements` is the element count modulo 2^64. It equals the element count exactly when that fits in a `usize`. It is 1 for the empty shape and 0 when some extent is 0; when the count fits, it is 0 only then |
| `ArrayGen.CheckedFoldMul` | benches/bench_main.rs:31 | the fold with overflow checks: when it succeeds, it gives `acc` times the element count, and that value fits in a `usize` |
| `ArrayGen.CheckedFoldNoZero` | benches/bench_main.rs:31 | for a shape without zero extents, the checked fold succeeds exactly when the whole element count fits in a `usize` |
| `ArrayGen.ZeroAfterOverflow` | benches/bench_main.rs:31 | `[2^32, 2^32, 0]` has 0 elements, yet its running product overflows before the 0 is reached |
| `ArrayGen.FromShapeVec` | benches/bench_main.rs:35 | `from_shape_vec` reports `Overflow` exactly when the checked element count overflows. It succeeds exactly when the count fits and the vector's length equals it, and then gives a valid array with that shape and data |
| `ArrayGen.RandomArray` | benches/bench_main.rs:29-36 | `random_array` panics exactly when a running product of the extents overflows a `usize`. For shapes without a zero extent, that is exactly when the element count exceeds `usize::MAX`. Otherwise the array has the requested shape and exactly `Product(shape)` elements, and element `i` is the `i`-th drawn value |
| `Broadcast.BroadcastTo` | benches/bench_main.rs:57 | `broadcast(to)` gives a view of shape `to`. It fails exactly when the source has more axes than `to`, or when some source axis, aligned with the trailing axes of `to`, has an extent that is neither the target's nor 1 |
| `Broadcast.SameRankRulesAgree` | benches/bench_main.rs:57 | at equal rank, `broadcast` and the trailing-aligned rule succeed exactly when the axis-by-axis rule holds |
| `Broadcast.BroadcastToSelf` | benches/bench_main.rs:57 | broadcasting a shape to itself succeeds and returns the same shape |
| `Broadcast.CoBroadcast` | benches/bench_main.rs:58 | equal-rank co-broadcasting, a reference definition. When it exists, the common shape is one both operands broadcast to, taking on each axis the extent that is not 1. It fails exactly when the ranks differ or some axis has two different extents, neither of them 1 |
| `Broadcast.MulShape` | benches/bench_main.rs:58 | `&lhs * &rhs` succeeds exactly when `rhs` broadcasts to `lhs`'s shape, and then has `lhs`'s shape |
| `Broadcast.MulShapeIsCoBroadcast` | benches/bench_main.rs:58 | when `rhs` fits `lhs`, broadcasting only `rhs` and co-broadcasting both give the same product shape `lhs` |
| `BenchProduct.NewAxes` | benches/bench_main.rs:43 | `new_axes = size / 2` is the floor of half of `size`: `2 * new_axes <= size < 2 * new_axes + 2` |
| `BenchProduct.LeftPadded` | benches/bench_main.rs:51 | the shape of `left_view` has rank `size + new_axes`, with extent 2 on the first `size` axes and 1 on the rest |
| `BenchProduct.RightPadded` | benches/bench_main.rs:52 | the shape of `right_view` has rank `size + new_axes`, with extent 1 on the first `new_axes` axes and 2 on the rest |
| `BenchProduct.ExpectedCard` | benches/bench_main.rs:47-48 | `expected_card` has rank `size + size / 2`, and every extent is 2 |
| `BenchProduct.PaddedOperandsBroadcast` | benches/bench_main.rs:43-57 | for every `size`, `[2; size] ++ [1; size/2]` and `[1; size/2] ++ [2; size]` both broadcast to `[2; size + size/2]` |
| `BenchProduct.ExpectedCardCount` | benches/bench_main.rs:47-48 | the product has `2^(size + size/2)` elements |
| `BenchProduct.Pow2FitsUsize` | benches/bench_main.rs:44-46 | an operand of shape `[2; size]` has an element count that fits in a 64-bit `usize` exactly when `size < 64` |
| `BenchProduct.ProductRun` | benches/bench_main.rs:41-59 | one benchmark run for any `size`. It panics exactly when `size >= 64`, in `random_array`. Otherwise the padded views have the shapes `LeftPadded(size)` and `RightPadded(size)`, the arrays are padded and broadcast with no failing `unwrap` and no panicking product, and the product's shape is `expected_card` (all extents 2, rank `size + size/2`) with `2^(size + size/2)` elements |

## Left out

- The size sweep `2, 4, ..., 12` itself: every property of `product` is proved for every
  `size`, so the six swept values need no separate statement.
- The Criterion harness (`bench_function_over_inputs`, `iter_with_setup`, `criterion_group!`,
  `criterion_main!`): it only times and reports. `ProductRun` runs the set-up closure and
  the measured closure once, in sequence.
- `FoldMul`, `NElements`: these model the build without overflow checks, where `usize`
  multiplication wraps. `CheckedFoldMul` models the build with overflow checks, which
  panics inside the fold.
- `RandomArray`: returns `None` for a panic in either build. The wrapping build panics in
  the `unwrap`, because `from_shape_vec` computes the element count with overflow checks.
  The model of that check, a checked left fold of the extents, is an assumption about
  ndarray's library code.
- `RandomArray`: the allocation limit of `collect()` is not modelled. Rust refuses a
  vector larger than `isize::MAX` bytes ("capacity overflow"), for example shape `[2^61]`
  of `f64`, and the model says `Some` there.
- `UsizeModulus`: `usize` is taken to be 64 bits wide. On a 32-bit target the bound
  becomes 2^32, and the `size < 64` of `Pow2FitsUsize` and `ProductRun` becomes
  `size < 32`.
- `ProductRun`: running out of memory is not modelled, and neither are ndarray's own
  element-count computations when it allocates the product. From `size >= 43` the product
  has more than `usize::MAX` elements, and arrays far smaller than that cannot be
  allocated in practice. The model claims only the shape-level outcome.
- Random values (`rand::thread_rng`, `rng.gen()`): they are replaced by the parameter
  `draw`, and only the length of the generated vector matters to the model.
- The `f64` multiplication itself: it is floating point and implemented inside ndarray.
  Only the product's shape is modelled (`MulShape`).
- ndarray internals (strides, memory layout, view lifetimes, and the real code of
  `insert_axis`, `broadcast` and `*`): the library is not part of this model. Views are
  modelled by their shapes only, so no stride values are claimed.
- `MulShape`: assumes the behaviour of the ndarray version of that era. `&lhs * &rhs`
  broadcasts `rhs` to `lhs`'s shape and panics otherwise. `CoBroadcast` models
  co-broadcasting, as later ndarray versions do, and `MulShapeIsCoBroadcast` shows that both
  give the same shape in this benchmark.
- `CoBroadcast`: equal-rank only. It is a reference definition for the product's shape,
  not ndarray's code, and it is used only where both operands have the same rank.
- `CoBroadcast`: on each axis it takes the extent that is not 1, not the larger of the two.
  These differ only for extents 0 and 1, where broadcasting gives 0.
