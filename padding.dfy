/** `insert_axes_first` and `insert_axes_end` of benches/bench_main.rs: a view
    of an array is padded with length-1 axes one `insert_axis` at a time. Only
    the shape of the view is modelled. */
module Padding {
  import opened Shapes

  /** The view with `nAxis` axes of length 1 at the start of the shape. Each
      iteration inserts at index 0, which is always a valid position. */
  method InsertAxesFirst(shape: Shape, nAxis: nat) returns (a: Shape)
    ensures a == Ones(nAxis) + shape
    ensures |a| == |shape| + nAxis
    ensures a[nAxis..] == shape
    ensures nAxis == 0 ==> a == shape
  {
    a := shape;
    for i := 0 to nAxis
      invariant a == Ones(i) + shape
    {
      a := InsertAxis(a, 0);
      assert Ones(i + 1) == [1] + Ones(i);
    }
  }

  /** The view with `nAxis` axes of length 1 at the end of the shape. Each
      iteration inserts at the current rank `a.ndim()`, which appends. */
  method InsertAxesEnd(shape: Shape, nAxis: nat) returns (a: Shape)
    ensures a == shape + Ones(nAxis)
    ensures |a| == |shape| + nAxis
    ensures a[..|shape|] == shape
    ensures nAxis == 0 ==> a == shape
  {
    a := shape;
    for i := 0 to nAxis
      invariant a == shape + Ones(i)
    {
      var axis := |a|;
      a := InsertAxis(a, axis);
      assert Ones(i + 1) == Ones(i) + [1];
    }
  }

  /** Padding at the front leaves the element count unchanged. */
  lemma PadFrontKeepsProduct(shape: Shape, n: nat)
    ensures Product(Ones(n) + shape) == Product(shape)
  {
    ProductAppend(Ones(n), shape);
    ProductOnes(n);
  }

  /** Padding at the end leaves the element count unchanged. */
  lemma PadEndKeepsProduct(shape: Shape, n: nat)
    ensures Product(shape + Ones(n)) == Product(shape)
  {
    ProductAppend(shape, Ones(n));
    ProductOnes(n);
  }
}
