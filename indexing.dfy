/**
 * Row-major (C order) layout of a multi-dimensional array: numpy's `reshape`
 * between a flat buffer of prod(shape) entries and an array of the given shape.
 */
module Indexing {

  /** The number of entries of an array of this shape (1 for the empty shape). */
  function Product(shape: seq<nat>): nat
  {
    if |shape| == 0 then 1 else Product(shape[..|shape| - 1]) * shape[|shape| - 1]
  }

  /** idx is a multi-index of an array of this shape. */
  predicate InShape(idx: seq<nat>, shape: seq<nat>)
  {
    |idx| == |shape| && forall d :: 0 <= d < |idx| ==> idx[d] < shape[d]
  }

  lemma MulLe(a: int, b: int, r: int)
    requires r >= 0
    ensures a <= b ==> a * r <= b * r
  {
    if a <= b {
      var t := b - a;
      assert b * r == a * r + t * r;
    }
  }

  lemma DivMod(q: nat, r: nat, x: nat)
    requires x < r
    ensures (q * r + x) / r == q && (q * r + x) % r == x
  {
    var k := q * r + x;
    var q', x' := k / r, k % r;
    assert q' * r + x' == q * r + x;
    MulLe(q + 1, q', r);
    MulLe(q' + 1, q, r);
    assert (q + 1) * r == q * r + r && (q' + 1) * r == q' * r + r;
  }

  lemma MulBound(a: nat, p: nat, r: nat, x: nat)
    requires a < p && x < r
    ensures a * r + x < p * r
  {
    MulLe(a + 1, p, r);
    assert (a + 1) * r == a * r + r;
  }

  lemma DivBound(k: nat, p: nat, r: nat)
    requires k < p * r
    ensures r > 0 && k / r < p && k % r < r
  {
    MulLe(r, 0, p);
    assert r != 0;
    MulLe(p, k / r, r);
    assert k == (k / r) * r + k % r;
  }

  lemma UnflattenStep(k: nat, shape: seq<nat>)
    requires |shape| > 0 && k < Product(shape)
    ensures shape[|shape| - 1] > 0
    ensures k / shape[|shape| - 1] < Product(shape[..|shape| - 1])
  {
    var n := |shape| - 1;
    DivBound(k, Product(shape[..n]), shape[n]);
  }

  /** The position of multi-index idx in the row-major flat buffer. */
  function Flatten(idx: seq<nat>, shape: seq<nat>): (k: nat)
    requires InShape(idx, shape)
    ensures k < Product(shape)
  {
    if |shape| == 0 then 0
    else
      var n := |shape| - 1;
      var k' := Flatten(idx[..n], shape[..n]);
      MulBound(k', Product(shape[..n]), shape[n], idx[n]);
      k' * shape[n] + idx[n]
  }

  /** The multi-index of position k of the row-major flat buffer. */
  function Unflatten(k: nat, shape: seq<nat>): (idx: seq<nat>)
    requires k < Product(shape)
    ensures InShape(idx, shape)
    decreases |shape|
  {
    if |shape| == 0 then []
    else
      var n := |shape| - 1;
      UnflattenStep(k, shape);
      Unflatten(k / shape[n], shape[..n]) + [k % shape[n]]
  }

  /** Reshaping a flat position to a multi-index and back gives the position. */
  lemma {:induction false} FlattenUnflatten(k: nat, shape: seq<nat>)
    requires k < Product(shape)
    ensures Flatten(Unflatten(k, shape), shape) == k
    decreases |shape|
  {
    if |shape| > 0 {
      var n := |shape| - 1;
      DivBound(k, Product(shape[..n]), shape[n]);
      var idx := Unflatten(k, shape);
      assert idx[..n] == Unflatten(k / shape[n], shape[..n]);
      FlattenUnflatten(k / shape[n], shape[..n]);
    }
  }

  /** Flattening a multi-index and reshaping the position gives the multi-index. */
  lemma {:induction false} UnflattenFlatten(idx: seq<nat>, shape: seq<nat>)
    requires InShape(idx, shape)
    ensures Unflatten(Flatten(idx, shape), shape) == idx
  {
    if |shape| > 0 {
      var n := |shape| - 1;
      var k' := Flatten(idx[..n], shape[..n]);
      DivMod(k', shape[n], idx[n]);
      UnflattenFlatten(idx[..n], shape[..n]);
      assert idx == idx[..n] + [idx[n]];
    }
  }

  lemma UnflattenFlattenAll(shape: seq<nat>)
    ensures forall idx :: InShape(idx, shape) ==> Unflatten(Flatten(idx, shape), shape) == idx
  {
    forall idx | InShape(idx, shape)
      ensures Unflatten(Flatten(idx, shape), shape) == idx
    {
      UnflattenFlatten(idx, shape);
    }
  }

  /** Σ_d idx[d] · Π_{e > d} shape[e]: the position written with explicit strides. */
  function StrideSum(idx: seq<nat>, shape: seq<nat>): nat
    requires |idx| == |shape|
  {
    if |shape| == 0 then 0 else idx[0] * Product(shape[1..]) + StrideSum(idx[1..], shape[1..])
  }

  lemma Regroup(a: nat, p: nat, f: nat, s: nat, x: nat, whole: nat, front: nat)
    requires whole == a * (p * s) + (f * s + x) && front == a * p + f
    ensures whole == front * s + x
  {
    assert (a * p + f) * s == a * p * s + f * s;
  }

  /** Peeling the last axis off a stride sum. */
  lemma {:induction false} StrideSumLast(idx: seq<nat>, shape: seq<nat>)
    requires |idx| == |shape| > 0
    ensures var n := |shape| - 1;
      StrideSum(idx, shape) == StrideSum(idx[..n], shape[..n]) * shape[n] + idx[n]
  {
    var n := |shape| - 1;
    if n > 0 {
      var tail, tailS := idx[1..], shape[1..];
      var mid, midS := idx[..n][1..], shape[..n][1..];
      assert tail[..n - 1] == mid && tailS[..n - 1] == midS;
      assert tail[n - 1] == idx[n] && tailS[n - 1] == shape[n];
      var pt, f, s := Product(midS), StrideSum(mid, midS), shape[n];
      assert StrideSum(idx, shape) == idx[0] * (pt * s) + (f * s + idx[n]) by {
        assert Product(tailS) == pt * s;
        StrideSumLast(tail, tailS);
      }
      Regroup(idx[0], pt, f, s, idx[n], StrideSum(idx, shape), StrideSum(idx[..n], shape[..n]));
    }
  }

  /** The row-major position is the stride sum of the multi-index. */
  lemma {:induction false} FlattenIsStrideSum(idx: seq<nat>, shape: seq<nat>)
    requires InShape(idx, shape)
    ensures Flatten(idx, shape) == StrideSum(idx, shape)
  {
    if |shape| > 0 {
      var n := |shape| - 1;
      FlattenIsStrideSum(idx[..n], shape[..n]);
      StrideSumLast(idx, shape);
    }
  }
}
