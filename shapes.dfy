/** Shapes of N-dimensional arrays, as the benchmark in benches/bench_main.rs
    manipulates them: an ordered sequence of extents whose length is the rank.
    Element values, strides and memory layout are not part of a shape. */
module Shapes {

  /** One extent per axis; the rank is the length. */
  type Shape = seq<nat>

  /** `n` copies of the extent `v`, the shape that `vec![v; n]` builds. */
  function Filled(v: nat, n: nat): (r: Shape)
    ensures |r| == n
    ensures forall i :: 0 <= i < n ==> r[i] == v
  {
    if n == 0 then [] else Filled(v, n - 1) + [v]
  }

  /** `n` axes of length 1: the axes that padding adds. */
  function Ones(n: nat): (r: Shape)
    ensures |r| == n
    ensures forall i :: 0 <= i < n ==> r[i] == 1
  {
    Filled(1, n)
  }

  /** The number of elements an array of shape `s` holds: the product of its
      extents, 1 for the rank-0 (scalar) shape. */
  function Product(s: Shape): nat
  {
    if s == [] then 1 else s[0] * Product(s[1..])
  }

  /** 2^n, the element count of `[2; n]`. */
  function Pow2(n: nat): (r: nat)
    ensures r >= 1
  {
    if n == 0 then 1 else 2 * Pow2(n - 1)
  }

  /** ndarray's `insert_axis(Axis(k))` at the level of shapes: a new axis of
      length 1 at position `k`, the axes from `k` on shifted one place right.
      ndarray panics when `k` exceeds the rank, so that is a precondition. */
  function InsertAxis(s: Shape, k: nat): (r: Shape)
    requires k <= |s|
    ensures |r| == |s| + 1
    ensures r[k] == 1
    ensures forall i :: 0 <= i < k ==> r[i] == s[i]
    ensures forall i :: k < i < |r| ==> r[i] == s[i - 1]
  {
    s[..k] + [1] + s[k..]
  }

  lemma {:induction false} ProductAppend(s: Shape, t: Shape)
    ensures Product(s + t) == Product(s) * Product(t)
  {
    if s == [] {
      assert s + t == t;
    } else {
      assert (s + t)[1..] == s[1..] + t;
      ProductAppend(s[1..], t);
    }
  }

  /** The element count is zero exactly when some axis has extent zero. */
  lemma {:induction false} ProductZero(s: Shape)
    ensures Product(s) == 0 <==> exists i :: 0 <= i < |s| && s[i] == 0
  {
    if s != [] {
      ProductZero(s[1..]);
      if Product(s[1..]) == 0 {
        var j :| 0 <= j < |s[1..]| && s[1..][j] == 0;
        assert s[j + 1] == 0;
      }
      if s[0] != 0 && Product(s[1..]) != 0 {
        forall i | 0 <= i < |s| ensures s[i] != 0 {
          if i > 0 { assert s[i] == s[1..][i - 1]; }
        }
      }
    }
  }

  lemma {:induction false} ProductFilledTwo(n: nat)
    ensures Product(Filled(2, n)) == Pow2(n)
  {
    if n > 0 {
      ProductFilledTwo(n - 1);
      ProductAppend(Filled(2, n - 1), [2]);
      assert Product([2]) == 2 * Product([]);
    }
  }

  lemma {:induction false} ProductOnes(n: nat)
    ensures Product(Ones(n)) == 1
  {
    if n > 0 {
      ProductOnes(n - 1);
      ProductAppend(Ones(n - 1), [1]);
      assert Product([1]) == 1 * Product([]);
    }
  }

  /** Inserting an axis of length 1 anywhere leaves the element count as it was. */
  lemma InsertAxisKeepsProduct(s: Shape, k: nat)
    requires k <= |s|
    ensures Product(InsertAxis(s, k)) == Product(s)
  {
    var front, back := s[..k], s[k..];
    assert s == front + back;
    assert Product([1]) == 1 * Product([]);
    ProductAppend(front, [1]);
    assert Product(front + [1]) == Product(front);
    ProductAppend(front + [1], back);
    ProductAppend(front, back);
  }

  lemma {:induction false} Pow2Add(a: nat, b: nat)
    ensures Pow2(a + b) == Pow2(a) * Pow2(b)
  {
    if a > 0 {
      Pow2Add(a - 1, b);
    }
  }

  lemma {:induction false} Pow2Increasing(a: nat, b: nat)
    requires a < b
    ensures Pow2(a) < Pow2(b)
  {
    if a + 1 < b {
      Pow2Increasing(a, b - 1);
    }
  }
}
