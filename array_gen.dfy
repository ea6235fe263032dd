/** `random_array` of benches/bench_main.rs: the element count of a shape as a
    left fold of `*` in `usize`, a vector of that many drawn values, and
    ndarray's `from_shape_vec`, whose length check the vector passes exactly
    when the element count fits in a `usize`. */
module ArrayGen {
  import opened Shapes
  import opened Optional

  /** `usize` is 64 bits wide: arithmetic on it wraps around modulo 2^64. */
  const UsizeModulus: nat := 0x1_0000_0000_0000_0000
  const UsizeMax: nat := UsizeModulus - 1

  /** An owning array: its shape and its elements in row-major order. */
  datatype Array<T> = Array(shape: Shape, data: seq<T>)
  {
    /** The invariant every owning array keeps: one element per multi-index. */
    predicate Valid() {
      |data| == Product(shape)
    }
  }

  /** The errors `from_shape_vec` reports: the shape's element count
      overflows a `usize`, or the vector's length is not that count. */
  datatype ShapeError = Overflow | IncompatibleShape

  datatype Result<T> = Ok(value: T) | Err(error: ShapeError)

  /** Adding a multiple of 2^64 does not change a value modulo 2^64. */
  lemma ModAddMultiple(k: nat, x: nat)
    ensures (k * UsizeModulus + x) % UsizeModulus == x % UsizeModulus
  {
  }

  /** Wrapping a factor modulo 2^64 before multiplying does not change the
      product modulo 2^64. */
  lemma MulModLeft(a: nat, b: nat)
    ensures ((a % UsizeModulus) * b) % UsizeModulus == (a * b) % UsizeModulus
  {
    var q, r := a / UsizeModulus, a % UsizeModulus;
    assert a == q * UsizeModulus + r;
    calc {
      a * b;
      (q * UsizeModulus + r) * b;
      (q * b) * UsizeModulus + r * b;
    }
    ModAddMultiple(q * b, r * b);
  }

  /** `shape.iter().fold(acc, |accum, &elem| accum * elem)` on `usize`, as
      built without overflow checks: the extents are multiplied into the
      accumulator from left to right, each step wrapping modulo 2^64. */
  function FoldMul(acc: nat, shape: Shape): (r: nat)
    requires acc <= UsizeMax
    ensures r == (acc * Product(shape)) % UsizeModulus
    decreases shape
  {
    if shape == [] then acc
    else
      var step, rest := acc * shape[0], shape[1..];
      assert acc * Product(shape) == step * Product(rest) by {
        assert Product(shape) == shape[0] * Product(rest);
      }
      MulModLeft(step, Product(rest));
      FoldMul(step % UsizeModulus, rest)
  }

  /** The same fold with overflow checks, as `checked_mul` computes it and as
      a build with overflow checks runs `accum * elem`: `None` as soon as a
      running product exceeds `usize::MAX`, even if a later extent is 0. */
  function CheckedFoldMul(acc: nat, shape: Shape): (r: Option<nat>)
    requires acc <= UsizeMax
    ensures r.Some? ==> r.value == acc * Product(shape) && r.value <= UsizeMax
    decreases shape
  {
    if shape == [] then Some(acc)
    else if acc * shape[0] > UsizeMax then None
    else
      var step, rest := acc * shape[0], shape[1..];
      assert acc * Product(shape) == step * Product(rest) by {
        assert Product(shape) == shape[0] * Product(rest);
      }
      CheckedFoldMul(step, rest)
  }

  /** Every running product of the extents, from the left, fits in a `usize`. */
  predicate CountFits(shape: Shape)
  {
    CheckedFoldMul(1, shape).Some?
  }

  /** Without zero extents the running products only grow, so the checked
      fold succeeds exactly when the whole element count fits. */
  lemma {:induction false} CheckedFoldNoZero(acc: nat, shape: Shape)
    requires 1 <= acc <= UsizeMax
    ensures (forall i :: 0 <= i < |shape| ==> shape[i] != 0) ==>
      (CheckedFoldMul(acc, shape).Some? <==> acc * Product(shape) <= UsizeMax)
    decreases shape
  {
    if shape != [] && forall i :: 0 <= i < |shape| ==> shape[i] != 0 {
      assert forall i :: 0 <= i < |shape[1..]| ==> shape[1..][i] == shape[i + 1];
      var step, rest := acc * shape[0], shape[1..];
      ProductZero(rest);
      var p := Product(rest);
      assert p >= 1;
      assert acc * Product(shape) == step * p;
      assert step * p >= step;
      if step <= UsizeMax {
        CheckedFoldNoZero(step, rest);
      }
    }
  }

  /** A zero extent after an overflowing prefix: the element count is 0,
      but the running product overflows first. */
  lemma ZeroAfterOverflow()
    ensures Product([0x1_0000_0000, 0x1_0000_0000, 0]) == 0
    ensures !CountFits([0x1_0000_0000, 0x1_0000_0000, 0])
  {
  }

  /** `n_elements` of `random_array`: the fold started at 1. It is the
      element count whenever that fits in a `usize`, and otherwise differs
      from it. */
  function NElements(shape: Shape): (r: nat)
    ensures r == Product(shape) % UsizeModulus
    ensures Product(shape) <= UsizeMax ==> r == Product(shape)
    ensures Product(shape) > UsizeMax ==> r != Product(shape)
    ensures shape == [] ==> r == 1
    ensures (exists i :: 0 <= i < |shape| && shape[i] == 0) ==> r == 0
    ensures r == 0 && Product(shape) <= UsizeMax ==>
      exists i :: 0 <= i < |shape| && shape[i] == 0
  {
    ProductZero(shape);
    FoldMul(1, shape)
  }

  /** `ArrayD::from_shape_vec(shape, v)`: the element count is computed with
      overflow checks; an array when that succeeds and the vector holds exactly
      one element per multi-index of the shape, an error otherwise. */
  function FromShapeVec<T>(shape: Shape, v: seq<T>): (r: Result<Array<T>>)
    ensures r.Ok? <==> CountFits(shape) && |v| == Product(shape)
    ensures r == Err(Overflow) <==> !CountFits(shape)
    ensures r.Ok? ==> r.value.Valid() && r.value.shape == shape && r.value.data == v
  {
    if !CountFits(shape) then Err(Overflow)
    else if |v| == Product(shape) then Ok(Array(shape, v))
    else Err(IncompatibleShape)
  }

  /** `random_array(shape)`: `n_elements` values drawn from the generator
      (`draw(i)` stands for the `i`-th call of `rng.gen()`), then
      `from_shape_vec(...).unwrap()`. `None` stands for a panic, which
      happens exactly when a running product of the extents overflows a
      `usize`: with overflow checks in the fold itself, without them in the
      `unwrap`, since `from_shape_vec` then reports the overflow. Without
      zero extents that is exactly when the element count overflows. */
  function RandomArray<T>(shape: Shape, draw: nat -> T): (r: Option<Array<T>>)
    ensures r.Some? <==> CountFits(shape)
    ensures (forall i :: 0 <= i < |shape| ==> shape[i] != 0) ==>
      (r.Some? <==> Product(shape) <= UsizeMax)
    ensures r.Some? ==> r.value.Valid() && r.value.shape == shape
    ensures r.Some? ==> |r.value.data| == Product(shape)
    ensures r.Some? ==> forall i :: 0 <= i < |r.value.data| ==> r.value.data[i] == draw(i)
  {
    CheckedFoldNoZero(1, shape);
    var nElements := NElements(shape);
    var numbers := seq(nElements, i requires 0 <= i => draw(i));
    match FromShapeVec(shape, numbers)
    case Ok(a) => Some(a)
    case Err(_) => None
  }
}
