/** Row-major indexing, broadcast strides and reduction offsets. */
module Strides {
  import opened Wrappers
  import opened Arithmetic

  type Shape = seq<nat>

  // ----- Row-major indices

  /** The product of the dimensions from `d` on: the contiguous stride of dimension `d - 1`. */
  function ProductFrom(shape: Shape, d: nat): nat
    decreases |shape| - d
  {
    if d >= |shape| then 1 else shape[d] * ProductFrom(shape, d + 1)
  }

  function Product(shape: Shape): nat {
    ProductFrom(shape, 0)
  }

  function Width(dimension: nat): nat {
    if dimension == 0 then 1 else dimension
  }

  /** The coordinates of a flat row-major index. */
  function Coordinates(index: nat, shape: Shape): (c: seq<nat>)
    ensures |c| == |shape|
    decreases |shape|
  {
    if shape == [] then []
    else
      var n, w := |shape| - 1, Width(shape[|shape| - 1]);
      Coordinates(index / w, shape[..n]) + [index % w]
  }

  /** The flat row-major index of coordinates. */
  function RowMajor(shape: Shape, c: seq<nat>): nat
    requires |c| == |shape|
  {
    if shape == [] then 0
    else
      var n := |shape| - 1;
      RowMajor(shape[..n], c[..n]) * shape[n] + c[n]
  }

  ghost predicate InShape(shape: Shape, c: seq<nat>) {
    |c| == |shape| && forall d :: 0 <= d < |shape| ==> c[d] < shape[d]
  }

  lemma {:induction false} ProductFromSnoc(shape: Shape, d: nat)
    requires d < |shape|
    ensures ProductFrom(shape, d) == ProductFrom(shape[..|shape| - 1], d) * shape[|shape| - 1]
    decreases |shape| - d
  {
    var n := |shape| - 1;
    if d < n {
      ProductFromSnoc(shape, d + 1);
      var rest := ProductFrom(shape[..n], d + 1);
      assert ProductFrom(shape, d) == shape[d] * (rest * shape[n]);
      assert ProductFrom(shape[..n], d) == shape[d] * rest;
      Associate(shape[d], rest, shape[n]);
    } else {
      assert ProductFrom(shape, d + 1) == 1 && ProductFrom(shape[..n], d) == 1;
    }
  }

  lemma Associate(a: nat, b: nat, c: nat)
    ensures a * (b * c) == (a * b) * c
  {
  }

  lemma {:induction false} RowMajorInBounds(shape: Shape, c: seq<nat>)
    requires InShape(shape, c)
    ensures RowMajor(shape, c) < Product(shape)
  {
    if shape != [] {
      var n := |shape| - 1;
      RowMajorInBounds(shape[..n], c[..n]);
      ProductFromSnoc(shape, 0);
      BlockBound(RowMajor(shape[..n], c[..n]), Product(shape[..n]), shape[n], c[n]);
    }
  }

  lemma BlockBound(q: nat, blocks: nat, w: nat, r: nat)
    requires q < blocks && r < w
    ensures q * w + r < blocks * w
  {
    MulMonotone(w, q + 1, blocks);
    assert (q + 1) * w == q * w + w;
  }

  lemma PositiveFactor(index: nat, blocks: nat, w: nat)
    requires index < blocks * w
    ensures w > 0 && blocks > 0
  {
  }

  /** A positive product has positive factors; the quotient by the last one stays in bounds. */
  lemma LastDimension(index: nat, shape: Shape)
    requires shape != [] && index < Product(shape)
    ensures var n := |shape| - 1;
            && shape[n] > 0 && Width(shape[n]) == shape[n]
            && index / shape[n] < Product(shape[..n])
            && index == (index / shape[n]) * shape[n] + index % shape[n]
  {
    var n := |shape| - 1;
    ProductFromSnoc(shape, 0);
    var blocks, w := Product(shape[..n]), shape[n];
    PositiveFactor(index, blocks, w);
    if index / w >= blocks {
      MulMonotone(w, blocks, index / w);
    }
  }

  /** Coordinates and row-major indices are inverse to each other. */
  lemma {:induction false} CoordinatesInvert(index: nat, shape: Shape)
    requires index < Product(shape)
    ensures InShape(shape, Coordinates(index, shape))
    ensures RowMajor(shape, Coordinates(index, shape)) == index
    decreases |shape|
  {
    if shape != [] {
      var n := |shape| - 1;
      LastDimension(index, shape);
      CoordinatesInvert(index / shape[n], shape[..n]);
      var c := Coordinates(index, shape);
      assert c[..n] == Coordinates(index / shape[n], shape[..n]);
    }
  }

  lemma {:induction false} RowMajorInverts(shape: Shape, c: seq<nat>)
    requires InShape(shape, c)
    ensures Coordinates(RowMajor(shape, c), shape) == c
  {
    if shape != [] {
      var n := |shape| - 1;
      RowMajorInverts(shape[..n], c[..n]);
      var q := RowMajor(shape[..n], c[..n]);
      assert q * shape[n] + c[n] == shape[n] * q + c[n];
      QuotientOnce(RowMajor(shape, c), shape[n], q, c[n]);
      assert c == c[..n] + [c[n]];
    }
  }

  // ----- Strides

  /** Row-major contiguous strides, in elements. */
  method ContiguousStrides(shape: Shape) returns (strides: seq<nat>)
    ensures |strides| == |shape|
    ensures forall d :: 0 <= d < |shape| ==> strides[d] == ProductFrom(shape, d + 1)
  {
    strides := seq(|shape|, _ => 1);
    var d := |shape|;
    while d > 1
      invariant 0 <= d <= |shape| == |strides|
      invariant forall k :: 0 <= k < |shape| && k + 1 >= d ==> strides[k] == ProductFrom(shape, k + 1)
    {
      d := d - 1;
      strides := strides[d - 1 := strides[d] * shape[d]];
      assert strides[d - 1] == ProductFrom(shape, d) by {
        assert strides[d] * shape[d] == shape[d] * strides[d];
      }
    }
  }

  /** `lane` broadcasts right-aligned into `out`: every lane dimension is equal or one. */
  ghost predicate Broadcasts(lane: Shape, out: Shape) {
    |lane| <= |out| && forall i :: 0 <= i < |lane| ==> lane[i] == out[|out| - |lane| + i] || lane[i] == 1
  }

  /** The stride of output dimension `j`, scaled by `unit`: zero where the lane is broadcast. */
  function StrideAt(lane: Shape, out: Shape, unit: nat, j: nat): nat
    requires |lane| <= |out| && j < |out|
  {
    var offset := |out| - |lane|;
    if j < offset then 0
    else if lane[j - offset] == out[j] then unit * ProductFrom(lane, j - offset + 1)
    else 0
  }

  ghost predicate AreLaneStrides(lane: Shape, out: Shape, unit: nat, strides: seq<nat>) {
    |lane| <= |out| == |strides| && forall j :: 0 <= j < |out| ==> strides[j] == StrideAt(lane, out, unit, j)
  }

  method LaneStrides(lane: Shape, out: Shape) returns (r: Option<seq<nat>>)
    ensures r.Some? <==> Broadcasts(lane, out)
    ensures r.Some? ==> AreLaneStrides(lane, out, 1, r.value)
  {
    if |lane| > |out| {
      return None;
    }
    var offset := |out| - |lane|;
    var own := ContiguousStrides(lane);
    var strides: seq<nat> := seq(|out|, _ => 0);
    for i := 0 to |lane|
      invariant |strides| == |out|
      invariant forall k :: 0 <= k < i ==> lane[k] == out[offset + k] || lane[k] == 1
      invariant forall j :: 0 <= j < |out| ==> strides[j] == if j < offset + i then StrideAt(lane, out, 1, j) else 0
    {
      if lane[i] == out[offset + i] {
        strides := strides[offset + i := own[i]];
      } else if lane[i] == 1 {
        strides := strides[offset + i := 0];
      } else {
        return None;
      }
    }
    return Some(strides);
  }

  /** The offset a stride list gives to the coordinates of `index`, last dimension first. */
  function OffsetOf(index: nat, shape: Shape, strides: seq<nat>): nat
    requires |strides| == |shape|
    decreases |shape|
  {
    if shape == [] then 0
    else
      var n, w := |shape| - 1, Width(shape[|shape| - 1]);
      OffsetOf(Quotient(index, w), shape[..n], strides[..n]) + Times(Remainder(index, w), strides[n])
  }

  lemma OffsetStep(index: nat, shape: Shape, strides: seq<nat>, d: nat)
    requires |strides| == |shape| && d < |shape|
    ensures OffsetOf(index, shape[..d + 1], strides[..d + 1])
            == OffsetOf(Quotient(index, Width(shape[d])), shape[..d], strides[..d])
               + Times(Remainder(index, Width(shape[d])), strides[d])
  {
    assert shape[..d + 1][..d] == shape[..d] && strides[..d + 1][..d] == strides[..d];
  }

  method StridedOffset(index: nat, shape: Shape, strides: seq<nat>) returns (offset: nat)
    requires |strides| == |shape|
    ensures offset == OffsetOf(index, shape, strides)
  {
    var remainder := index;
    offset := 0;
    var d := |shape|;
    assert shape[..d] == shape && strides[..d] == strides;
    while d > 0
      invariant 0 <= d <= |shape|
      invariant offset + OffsetOf(remainder, shape[..d], strides[..d]) == OffsetOf(index, shape, strides)
    {
      d := d - 1;
      OffsetStep(remainder, shape, strides, d);
      var width := Width(shape[d]);
      offset := offset + Times(Remainder(remainder, width), strides[d]);
      remainder := Quotient(remainder, width);
    }
  }

  /** Right-aligned output coordinates as the lane sees them: unit dimensions pinned to zero. */
  function LaneCoordinates(lane: Shape, out: Shape, c: seq<nat>): (r: seq<nat>)
    requires |lane| <= |out| == |c|
    ensures |r| == |lane|
  {
    seq(|lane|, i requires 0 <= i < |lane| => if lane[i] == 1 then 0 else c[|out| - |lane| + i])
  }

  /** Dropping the last dimension of lane and output folds it into the unit. */
  lemma StrideWithoutLast(lane: Shape, out: Shape, unit: nat, j: nat)
    requires lane != [] && |lane| <= |out| && j < |out| - 1
    ensures StrideAt(lane[..|lane| - 1], out[..|out| - 1], unit * lane[|lane| - 1], j) == StrideAt(lane, out, unit, j)
  {
    var m, offset := |lane| - 1, |out| - |lane|;
    if j >= offset {
      var i := j - offset;
      ProductFromSnoc(lane, i + 1);
      Refactor(unit, lane[m], ProductFrom(lane[..m], i + 1));
    }
  }

  lemma Refactor(unit: nat, last: nat, p: nat)
    ensures unit * last * p == unit * (p * last)
  {
  }

  lemma Distribute(unit: nat, last: nat, inner: nat, c: nat)
    ensures unit * last * inner + unit * c == unit * (inner * last + c)
  {
    Refactor(unit, last, inner);
  }

  /** The last dimension's share of the offset. */
  lemma LastShare(lane: Shape, out: Shape, unit: nat, index: nat)
    requires lane != [] && Broadcasts(lane, out) && index < Product(out)
    ensures var n := |out| - 1;
            out[n] > 0 && (index % out[n]) * StrideAt(lane, out, unit, n)
                          == unit * (if lane[|lane| - 1] == 1 then 0 else index % out[n])
  {
    var n, m := |out| - 1, |lane| - 1;
    LastDimension(index, out);
    assert ProductFrom(lane, m + 1) == 1;
    if lane[m] == 1 && out[n] == 1 {
      assert index % 1 == 0;
    }
  }

  /** Broadcast addressing: the strided offset is the row-major index of the lane's own coordinates. */
  lemma {:induction false} LaneOffset(lane: Shape, out: Shape, unit: nat, strides: seq<nat>, index: nat)
    requires Broadcasts(lane, out) && AreLaneStrides(lane, out, unit, strides) && index < Product(out)
    ensures OffsetOf(index, out, strides) == unit * RowMajor(lane, LaneCoordinates(lane, out, Coordinates(index, out)))
    decreases |out|
  {
    if out != [] {
      var n := |out| - 1;
      LastDimension(index, out);
      var q := index / out[n];
      var c := Coordinates(index, out);
      assert c[..n] == Coordinates(q, out[..n]);
      var (shorter, scale) := if lane == [] then ([], unit) else (lane[..|lane| - 1], unit * lane[|lane| - 1]);
      forall j | 0 <= j < n
        ensures strides[..n][j] == StrideAt(shorter, out[..n], scale, j)
      {
        assert strides[j] == StrideAt(lane, out, unit, j);
        if lane != [] {
          StrideWithoutLast(lane, out, unit, j);
        }
      }
      LaneOffset(shorter, out[..n], scale, strides[..n], q);
      assert strides[n] == StrideAt(lane, out, unit, n);
      if lane != [] {
        LaneOffsetLast(lane, out, unit, strides, index);
      }
    }
  }

  /** Putting the last dimension back. */
  lemma LaneOffsetLast(lane: Shape, out: Shape, unit: nat, strides: seq<nat>, index: nat)
    requires lane != [] && Broadcasts(lane, out) && |strides| == |out| && index < Product(out)
    requires strides[|out| - 1] == StrideAt(lane, out, unit, |out| - 1)
    requires var (m, n) := (|lane| - 1, |out| - 1);
             && out[n] > 0
             && OffsetOf(index / out[n], out[..n], strides[..n])
                == unit * lane[m] * RowMajor(lane[..m], LaneCoordinates(lane[..m], out[..n], Coordinates(index / out[n], out[..n])))
    ensures OffsetOf(index, out, strides) == unit * RowMajor(lane, LaneCoordinates(lane, out, Coordinates(index, out)))
  {
    LastShare(lane, out, unit, index);
    LaneCoordinatesSnoc(lane, out, index);
    var m := |lane| - 1;
    var lc := LaneCoordinates(lane, out, Coordinates(index, out));
    Distribute(unit, lane[m], RowMajor(lane[..m], lc[..m]), lc[m]);
  }

  lemma LaneCoordinatesSnoc(lane: Shape, out: Shape, index: nat)
    requires lane != [] && Broadcasts(lane, out) && index < Product(out)
    ensures var (m, n) := (|lane| - 1, |out| - 1);
            var lc := LaneCoordinates(lane, out, Coordinates(index, out));
            && out[n] > 0 && Width(out[n]) == out[n]
            && lc[..m] == LaneCoordinates(lane[..m], out[..n], Coordinates(index / out[n], out[..n]))
            && lc[m] == if lane[m] == 1 then 0 else index % out[n]
  {
    LastDimension(index, out);
    var n := |out| - 1;
    assert Coordinates(index, out)[..n] == Coordinates(index / out[n], out[..n]);
  }

  lemma LaneCoordinatesInShape(lane: Shape, out: Shape, c: seq<nat>)
    requires Broadcasts(lane, out) && InShape(out, c)
    ensures InShape(lane, LaneCoordinates(lane, out, c))
  {
  }

  /** Broadcast reads stay inside the lane, at the row-major index of the clamped coordinates. */
  lemma LaneReadsInBounds(lane: Shape, out: Shape, strides: seq<nat>, index: nat)
    requires Broadcasts(lane, out) && AreLaneStrides(lane, out, 1, strides) && index < Product(out)
    ensures InShape(lane, LaneCoordinates(lane, out, Coordinates(index, out)))
    ensures OffsetOf(index, out, strides) == RowMajor(lane, LaneCoordinates(lane, out, Coordinates(index, out))) < Product(lane)
  {
    LaneOffset(lane, out, 1, strides, index);
    CoordinatesInvert(index, out);
    LaneCoordinatesInShape(lane, out, Coordinates(index, out));
    RowMajorInBounds(lane, LaneCoordinates(lane, out, Coordinates(index, out)));
  }

  /** Contiguous strides address each element by its own flat index. */
  lemma ContiguousIsIdentity(shape: Shape, strides: seq<nat>, index: nat)
    requires AreLaneStrides(shape, shape, 1, strides) && index < Product(shape)
    ensures OffsetOf(index, shape, strides) == index
  {
    LaneReadsInBounds(shape, shape, strides, index);
    CoordinatesInvert(index, shape);
    var c := Coordinates(index, shape);
    forall i | 0 <= i < |shape|
      ensures LaneCoordinates(shape, shape, c)[i] == c[i]
    {
      assert c[i] < shape[i];
    }
    assert LaneCoordinates(shape, shape, c) == c;
  }
}
