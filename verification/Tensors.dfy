/** Tensors of reals in row-major order, read and built by coordinates. */
module Tensors {
  import opened Arithmetic
  import opened Strides

  datatype Tensor = Tensor(shape: Shape, data: seq<real>) {
    predicate Valid() {
      |data| == Product(shape)
    }
  }

  /** The element at some coordinates; zero outside. */
  function At(t: Tensor, c: seq<nat>): real {
    if |c| == |t.shape| && RowMajor(t.shape, c) < |t.data| then t.data[RowMajor(t.shape, c)] else 0.0
  }

  function Tabulate(shape: Shape, f: seq<nat> -> real): (t: Tensor)
    ensures t.Valid() && t.shape == shape
  {
    Tensor(shape, seq(Product(shape), i requires 0 <= i < Product(shape) => f(Coordinates(i, shape))))
  }

  lemma AtTabulate(shape: Shape, f: seq<nat> -> real, c: seq<nat>)
    requires InShape(shape, c)
    ensures At(Tabulate(shape, f), c) == f(c)
  {
    RowMajorInBounds(shape, c);
    RowMajorInverts(shape, c);
  }

  /** Tensors that agree at all coordinates are equal. */
  lemma SameTensor(a: Tensor, b: Tensor)
    requires a.Valid() && b.Valid() && a.shape == b.shape && forall c :: InShape(a.shape, c) ==> At(a, c) == At(b, c)
    ensures a == b
  {
    forall i | 0 <= i < |a.data|
      ensures a.data[i] == b.data[i]
    {
      CoordinatesInvert(i, a.shape);
      assert At(a, Coordinates(i, a.shape)) == At(b, Coordinates(i, a.shape));
    }
  }

  // ----- Shapes side by side

  lemma {:induction false} ProductConcat(a: Shape, b: Shape)
    ensures Product(a + b) == Product(a) * Product(b)
  {
    if b == [] {
      assert a + b == a;
    } else {
      var n := |b| - 1;
      ProductConcat(a, b[..n]);
      assert (a + b)[..|a| + n] == a + b[..n];
      ProductFromSnoc(a + b, 0);
      ProductFromSnoc(b, 0);
      Associate(Product(a), Product(b[..n]), b[n]);
    }
  }

  lemma LastPlace(shape: Shape, c: seq<nat>, n: nat)
    requires |c| == |shape| == n + 1
    ensures RowMajor(shape, c) == RowMajor(shape[..n], c[..n]) * shape[n] + c[n]
  {
  }

  /** A place in the product of two shapes. */
  lemma {:induction false} RowMajorConcat(a: Shape, b: Shape, c: seq<nat>, d: seq<nat>)
    requires |c| == |a| && |d| == |b|
    ensures RowMajor(a + b, c + d) == RowMajor(a, c) * Product(b) + RowMajor(b, d)
  {
    if b == [] {
      assert a + b == a && c + d == c;
    } else {
      var n := |b| - 1;
      RowMajorConcat(a, b[..n], c, d[..n]);
      assert (a + b)[..|a| + n] == a + b[..n] && (c + d)[..|a| + n] == c + d[..n];
      LastPlace(a + b, c + d, |a| + n);
      LastPlace(b, d, n);
      ProductFromSnoc(b, 0);
      ConcatSums(RowMajor(a, c), Product(b[..n]), RowMajor(b[..n], d[..n]), b[n], d[n],
                 Product(b), RowMajor(b, d), RowMajor(a + b[..n], c + d[..n]), RowMajor(a + b, c + d));
    }
  }

  lemma ConcatSums(q: nat, blocks: nat, r: nat, w: nat, x: nat, product: nat, inner: nat, before: nat, after: nat)
    requires product == blocks * w && inner == r * w + x && before == q * blocks + r && after == before * w + x
    ensures after == q * product + inner
  {
    SplitScale(q, blocks, r, w);
  }

  lemma SplitScale(q: nat, blocks: nat, r: nat, w: nat)
    ensures (q * blocks + r) * w == q * (blocks * w) + r * w
  {
    assert (q * blocks + r) * w == (q * blocks) * w + r * w;
    Associate(q, blocks, w);
  }

  /** Reshaping a middle part that keeps its places keeps all places. */
  lemma MiddlePlace(p: Shape, m: Shape, m': Shape, s: Shape, cp: seq<nat>, cm: seq<nat>, cm': seq<nat>, cs: seq<nat>)
    requires |cp| == |p| && |cm| == |m| && |cm'| == |m'| && |cs| == |s|
    requires Product(m) == Product(m') && RowMajor(m, cm) == RowMajor(m', cm')
    ensures RowMajor(p + (m + s), cp + (cm + cs)) == RowMajor(p + (m' + s), cp + (cm' + cs))
    ensures Product(p + (m + s)) == Product(p + (m' + s))
  {
    RowMajorConcat(p, m + s, cp, cm + cs);
    RowMajorConcat(p, m' + s, cp, cm' + cs);
    RowMajorConcat(m, s, cm, cs);
    RowMajorConcat(m', s, cm', cs);
    ProductConcat(p, m + s);
    ProductConcat(p, m' + s);
    ProductConcat(m, s);
    ProductConcat(m', s);
  }

  lemma InShapeConcat(a: Shape, b: Shape, c: seq<nat>, d: seq<nat>)
    requires |c| == |a| && |d| == |b|
    ensures InShape(a + b, c + d) <==> InShape(a, c) && InShape(b, d)
  {
    var (all, at) := (a + b, c + d);
    if InShape(all, at) {
      forall k | 0 <= k < |a|
        ensures c[k] < a[k]
      {
        assert at[k] < all[k];
      }
      forall k | 0 <= k < |b|
        ensures d[k] < b[k]
      {
        assert at[|a| + k] < all[|a| + k];
      }
    }
  }

  lemma ProductOfOne(a: nat)
    ensures Product([a]) == a
  {
    assert ProductFrom([a], 1) == 1;
  }

  lemma ProductOfTwo(a: nat, b: nat)
    ensures Product([a, b]) == a * b
  {
    assert ProductFrom([a, b], 2) == 1 && ProductFrom([a, b], 1) == b;
  }

  /** A dimension of one inserted in the middle keeps all places. */
  lemma UnitInserted(front: Shape, unit: Shape, tail: Shape, c: seq<nat>, zero: seq<nat>, rest: seq<nat>)
    requires (unit == [] && zero == []) || (unit == [1] && zero == [0])
    requires InShape(front, c) && InShape(tail, rest)
    ensures InShape(front + (unit + tail), c + (zero + rest)) && InShape(front + tail, c + rest)
    ensures RowMajor(front + (unit + tail), c + (zero + rest)) == RowMajor(front + tail, c + rest)
  {
    InShapeConcat(front, unit + tail, c, zero + rest);
    InShapeConcat(unit, tail, zero, rest);
    InShapeConcat(front, tail, c, rest);
    if unit == [1] {
      ProductOfOne(1);
      assert unit[..0] == [] && zero[..0] == [];
      assert RowMajor(unit, zero) == 0;
    }
    assert Product([]) == 1 && Product(unit) == 1;
    MiddlePlace(front, unit, [], tail, c, zero, [], rest);
    assert [] + tail == tail && [] + rest == rest;
  }

  lemma UnitPlace(shape: Shape, c: seq<nat>)
    requires |c| == |shape|
    ensures RowMajor(shape + [1], c + [0]) == RowMajor(shape, c)
  {
    assert (shape + [1])[..|shape|] == shape && (c + [0])[..|c|] == c;
  }
}
