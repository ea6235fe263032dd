/** Broadcasting at the level of shapes: ndarray's `broadcast`, called at
    benches/bench_main.rs:57, and the shape of `&left_view * &right_view` at
    :58. ndarray aligns trailing axes; the benchmark pads both operands to
    the target's rank first, where that rule is the axis-by-axis check
    `Compatible`. */
module Broadcast {
  import opened Shapes
  import opened Optional

  /** `from` can be broadcast to `to`: the same rank, and on every axis the
      extents agree or the extent of `from` is 1 (that axis is repeated). */
  predicate Compatible(from: Shape, to: Shape)
  {
    |from| == |to| && forall i :: 0 <= i < |from| ==> from[i] == to[i] || from[i] == 1
  }

  /** ndarray's broadcasting rule: `from` may have lower rank; its axes are
      matched against the last axes of `to`, and on each matched axis the
      extents agree or the extent of `from` is 1. */
  predicate TrailingCompatible(from: Shape, to: Shape)
  {
    |from| <= |to| &&
    forall i :: 0 <= i < |from| ==> from[i] == to[|to| - |from| + i] || from[i] == 1
  }

  /** `view.broadcast(to)`: a view of shape `to`, or `None` when `from` has
      more axes than `to` or some matched axis cannot be stretched. Only the
      shape of the result is modelled. */
  function BroadcastTo(from: Shape, to: Shape): (r: Option<Shape>)
    ensures r.Some? ==> r.value == to
    ensures r.None? <==>
      |from| > |to| ||
      exists i :: 0 <= i < |from| && from[i] != to[|to| - |from| + i] && from[i] != 1
  {
    if TrailingCompatible(from, to) then Some(to) else None
  }

  /** Once the ranks are equal, the trailing-aligned rule and the axis-by-axis
      rule accept exactly the same shapes. */
  lemma SameRankRulesAgree(from: Shape, to: Shape)
    requires |from| == |to|
    ensures TrailingCompatible(from, to) <==> Compatible(from, to)
    ensures BroadcastTo(from, to).Some? <==> Compatible(from, to)
  {
  }

  /** Broadcasting a view to its own shape succeeds and changes nothing. */
  lemma BroadcastToSelf(s: Shape)
    ensures BroadcastTo(s, s) == Some(s)
  {
  }

  /** The extent of one axis of the co-broadcast shape: an axis of length 1
      takes the other operand's length. */
  function JoinExtent(a: nat, b: nat): nat
  {
    if a == 1 then b else a
  }

  /** The shape two equal-rank shapes can both be broadcast to, when one
      exists: on each axis the extents agree or one of them is 1, and the
      result takes the one that is not 1. */
  function CoBroadcast(a: Shape, b: Shape): (r: Option<Shape>)
    ensures r.Some? ==> Compatible(a, r.value) && Compatible(b, r.value)
    ensures r.Some? ==> forall i :: 0 <= i < |a| ==> r.value[i] == JoinExtent(a[i], b[i])
    ensures r.None? <==>
      |a| != |b| || exists i :: 0 <= i < |a| && a[i] != b[i] && a[i] != 1 && b[i] != 1
  {
    if |a| == |b| && forall i :: 0 <= i < |a| ==> a[i] == b[i] || a[i] == 1 || b[i] == 1
    then Some(seq(|a|, i requires 0 <= i < |a| => JoinExtent(a[i], b[i])))
    else None
  }

  /** The shape of `&lhs * &rhs`: `rhs` is broadcast to the shape of `lhs`,
      and the product has the shape of `lhs`; `None` stands for the panic
      when that broadcast is impossible. */
  function MulShape(lhs: Shape, rhs: Shape): (r: Option<Shape>)
    ensures r.Some? <==> BroadcastTo(rhs, lhs).Some?
    ensures r.Some? ==> r.value == lhs
  {
    match BroadcastTo(rhs, lhs)
    case Some(_) => Some(lhs)
    case None => None
  }

  /** When the right operand fits the left one, broadcasting only the right
      operand and co-broadcasting both give the same product shape. */
  lemma MulShapeIsCoBroadcast(lhs: Shape, rhs: Shape)
    requires Compatible(rhs, lhs)
    ensures MulShape(lhs, rhs) == CoBroadcast(lhs, rhs) == Some(lhs)
  {
    var c := CoBroadcast(lhs, rhs);
    assert c.Some?;
    assert c.value == lhs;
  }
}
