/** The `product` benchmark of benches/bench_main.rs: for each `size` of the
    sweep, two arrays of shape `[2; size]`, the left padded at the end and the
    right at the front by `size / 2` axes, the left broadcast to
    `[2; size + size / 2]` and multiplied by the right. Only shapes are
    modelled; timing and element values are not. */
module BenchProduct {
  import opened Shapes
  import opened Padding
  import opened ArrayGen
  import opened Broadcast
  import opened Optional

  /** `new_axes`: the number of axes added to each operand. */
  function NewAxes(size: nat): (r: nat)
    ensures 2 * r <= size < 2 * r + 2
  {
    size / 2
  }

  /** `expected_card`: the shape of the product. */
  function ExpectedCard(size: nat): (r: Shape)
    ensures |r| == size + NewAxes(size)
    ensures forall i :: 0 <= i < |r| ==> r[i] == 2
  {
    Filled(2, size + NewAxes(size))
  }

  /** The left operand's shape after `insert_axes_end`. */
  function LeftPadded(size: nat): (r: Shape)
    ensures |r| == size + NewAxes(size)
    ensures forall i :: 0 <= i < |r| ==> r[i] == if i < size then 2 else 1
  {
    Filled(2, size) + Ones(NewAxes(size))
  }

  /** The right operand's shape after `insert_axes_first`. */
  function RightPadded(size: nat): (r: Shape)
    ensures |r| == size + NewAxes(size)
    ensures forall i :: 0 <= i < |r| ==> r[i] == if i < NewAxes(size) then 1 else 2
  {
    Ones(NewAxes(size)) + Filled(2, size)
  }

  /** For every size, both padded operands can be broadcast to
      `expected_card`: the ranks agree, and each axis is either 2 as in the
      target or an added axis of length 1. */
  lemma {:induction false} PaddedOperandsBroadcast(size: nat)
    ensures Compatible(LeftPadded(size), ExpectedCard(size))
    ensures Compatible(RightPadded(size), ExpectedCard(size))
  {
  }

  /** The element count of the product is `2^(size + size / 2)`. */
  lemma ExpectedCardCount(size: nat)
    ensures Product(ExpectedCard(size)) == Pow2(size + size / 2)
  {
    ProductFilledTwo(size + NewAxes(size));
  }

  /** 2^64 is the `usize` modulus, by repeated squaring. */
  lemma Pow2Of64()
    ensures Pow2(64) == UsizeModulus
  {
    assert Pow2(1) == 2 by { assert Pow2(0) == 1; }
    Pow2Add(1, 1);
    assert Pow2(2) == 4;
    Pow2Add(2, 2);
    assert Pow2(4) == 16;
    Pow2Add(4, 4);
    assert Pow2(8) == 256;
    Pow2Add(8, 8);
    assert Pow2(16) == 0x1_0000;
    Pow2Add(16, 16);
    assert Pow2(32) == 0x1_0000_0000;
    Pow2Add(32, 32);
  }

  /** 2^n fits in a 64-bit `usize` exactly when n < 64. */
  lemma Pow2FitsUsize(n: nat)
    ensures Pow2(n) <= UsizeMax <==> n < 64
  {
    Pow2Of64();
    if n < 64 {
      Pow2Increasing(n, 64);
    } else if n > 64 {
      Pow2Increasing(64, n);
    }
  }

  /** One run of the benchmark body for `size`: the two random arrays are
      generated, the set-up closure pads them, and the measured closure
      unwraps the broadcast of the left view and multiplies. `leftView` and
      `rightView` are the padded views of the set-up closure. `None` stands
      for a panic. The only one possible is in `random_array`, when the
      operands' `2^size` elements overflow a `usize`, that is, from size 64
      on. Below that the broadcast's `unwrap` and the product succeed, and
      the product has shape `expected_card`. `drawLeft` and `drawRight`
      stand for the random generator. */
  method ProductRun<T>(size: nat, drawLeft: nat -> T, drawRight: nat -> T)
    returns (productShape: Option<Shape>, leftView: Shape, rightView: Shape)
    ensures productShape.Some? <==> size < 64
    ensures productShape.Some? ==> leftView == LeftPadded(size) && rightView == RightPadded(size)
    ensures productShape.Some? ==> productShape.value == ExpectedCard(size)
    ensures productShape.Some? ==> |productShape.value| == size + size / 2
    ensures productShape.Some? ==>
      forall i :: 0 <= i < |productShape.value| ==> productShape.value[i] == 2
    ensures productShape.Some? ==> Product(productShape.value) == Pow2(size + size / 2)
  {
    var newAxes := size / 2;
    var shape := Filled(2, size);
    ProductFilledTwo(size);
    Pow2FitsUsize(size);
    var left := RandomArray(shape, drawLeft);
    if left.None? {
      return None, [], [];
    }
    var right := RandomArray(shape, drawRight);
    var expectedCard := Filled(2, size + newAxes);

    leftView := InsertAxesEnd(left.value.shape, newAxes);
    rightView := InsertAxesFirst(right.value.shape, newAxes);

    PaddedOperandsBroadcast(size);
    SameRankRulesAgree(leftView, expectedCard);
    var broadcastLeft := BroadcastTo(leftView, expectedCard);
    assert broadcastLeft.Some?;
    SameRankRulesAgree(rightView, broadcastLeft.value);
    var product := MulShape(broadcastLeft.value, rightView);
    assert product.Some?;
    productShape := product;
    ExpectedCardCount(size);
  }
}
