/** Which output cell each input element of a fused reduction folds into, and how many fold into each. */
module Reduction {
  import opened Arithmetic
  import opened Strides

  /** The output shape of a reduction over `dims`. */
  function ReducedShape(shape: Shape, dims: set<nat>, keepdims: bool): Shape {
    if shape == [] then []
    else
      var n := |shape| - 1;
      var rest := ReducedShape(shape[..n], dims, keepdims);
      if n !in dims then rest + [shape[n]] else if keepdims then rest + [1] else rest
  }

  /** The extent reduced away: the divisor of a mean. */
  function ReducedExtent(shape: Shape, dims: set<nat>): nat {
    if shape == [] then 1
    else
      var n := |shape| - 1;
      ReducedExtent(shape[..n], dims) * if n in dims then shape[n] else 1
  }

  /** The output coordinates of input coordinates: reduced dimensions dropped, or pinned to zero. */
  function OutputCoordinates(c: seq<nat>, dims: set<nat>, keepdims: bool): seq<nat> {
    if c == [] then []
    else
      var n := |c| - 1;
      var rest := OutputCoordinates(c[..n], dims, keepdims);
      if n !in dims then rest + [c[n]] else if keepdims then rest + [0] else rest
  }

  /** The flat output index of a flat input index, last dimension first. */
  function OutputIndex(index: nat, shape: Shape, dims: set<nat>): nat
    decreases |shape|
  {
    if shape == [] then 0
    else
      var n, w := |shape| - 1, Width(shape[|shape| - 1]);
      if n in dims then OutputIndex(index / w, shape[..n], dims)
      else OutputIndex(index / w, shape[..n], dims) * shape[n] + index % w
  }

  /** The flat index is the row-major index of the output coordinates, with and without kept dimensions. */
  lemma {:induction false} OutputIndexIsRowMajor(index: nat, shape: Shape, dims: set<nat>, keepdims: bool)
    requires index < Product(shape)
    ensures var out := ReducedShape(shape, dims, keepdims);
            var c := OutputCoordinates(Coordinates(index, shape), dims, keepdims);
            InShape(out, c) && OutputIndex(index, shape, dims) == RowMajor(out, c) < Product(out)
    decreases |shape|
  {
    var out := ReducedShape(shape, dims, keepdims);
    var c := OutputCoordinates(Coordinates(index, shape), dims, keepdims);
    if shape == [] {
      assert ProductFrom(out, 0) == 1;
    } else {
      var n := |shape| - 1;
      LastDimension(index, shape);
      var q := index / shape[n];
      OutputIndexIsRowMajor(q, shape[..n], dims, keepdims);
      assert Coordinates(index, shape)[..n] == Coordinates(q, shape[..n]);
      var restOut := ReducedShape(shape[..n], dims, keepdims);
      var restC := OutputCoordinates(Coordinates(q, shape[..n]), dims, keepdims);
      if n in dims && !keepdims {
        assert out == restOut && c == restC;
      } else {
        var (w, x) := if n in dims then (1, 0) else (shape[n], index % shape[n]);
        assert out == restOut + [w] && c == restC + [x];
        assert out[..|restOut|] == restOut && c[..|restOut|] == restC;
        RowMajorInBounds(out, c);
      }
    }
  }

  /** What one iteration of the offset loop does, for the dimension it leaves behind. */
  lemma OffsetLoopStep(remainder: nat, shape: Shape, dims: set<nat>, keepdims: bool, d: nat, stride: nat)
    requires d < |shape|
    ensures var (rest, c) := (OutputIndex(Quotient(remainder, Width(shape[d])), shape[..d], dims), Remainder(remainder, Width(shape[d])));
            Times(OutputIndex(remainder, shape[..d + 1], dims), stride)
            == if d in dims then Times(rest, stride) else Times(c, stride) + Times(rest, Times(stride, shape[d]))
    ensures ReducedShape(shape[..d + 1], dims, keepdims)
            == ReducedShape(shape[..d], dims, keepdims) + if d !in dims then [shape[d]] else if keepdims then [1] else []
  {
    assert shape[..d + 1][..d] == shape[..d];
    var (rest, c) := (OutputIndex(Quotient(remainder, Width(shape[d])), shape[..d], dims), Remainder(remainder, Width(shape[d])));
    StepStride(rest, shape[d], c, stride);
  }

  lemma StepStride(rest: nat, w: nat, c: nat, stride: nat)
    ensures (rest * w + c) * stride == c * stride + rest * (stride * w)
  {
    assert (rest * w + c) * stride == rest * w * stride + c * stride;
    assert rest * w * stride == rest * (w * stride) == rest * (stride * w);
  }

  /** The offset loop: dimensions last to first, the stride growing over kept dimensions. */
  method ReduceOutputOffset(index: nat, shape: Shape, dims: set<nat>, keepdims: bool, out: Shape) returns (offset: nat)
    requires out == ReducedShape(shape, dims, keepdims)
    ensures offset == OutputIndex(index, shape, dims)
  {
    var remainder := index;
    var outDimension := |out|;
    var stride: nat := 1;
    offset := 0;
    var d: nat := |shape|;
    assert shape[..d] == shape && out[..outDimension] == out;
    while d > 0
      invariant 0 <= d <= |shape| && 0 <= outDimension <= |out|
      invariant out[..outDimension] == ReducedShape(shape[..d], dims, keepdims)
      invariant offset + Times(OutputIndex(remainder, shape[..d], dims), stride) == OutputIndex(index, shape, dims)
    {
      d := d - 1;
      OffsetLoopStep(remainder, shape, dims, keepdims, d, stride);
      ghost var shorter := ReducedShape(shape[..d], dims, keepdims);
      var width := Width(shape[d]);
      var coordinate := Remainder(remainder, width);
      remainder := Quotient(remainder, width);
      if d !in dims {
        assert out[..outDimension] == shorter + [shape[d]];
        outDimension := outDimension - 1;
        offset := offset + Times(coordinate, stride);
        stride := Times(stride, out[outDimension]);
        assert out[..outDimension] == shorter;
      } else if keepdims {
        assert out[..outDimension] == shorter + [1];
        outDimension := outDimension - 1;
        stride := Times(stride, out[outDimension]);
        assert out[..outDimension] == shorter;
      }
    }
  }

  // ----- Fibres

  /** How many of the first `n` input elements fold into output cell `o`. */
  function FibreSize(n: nat, o: nat, shape: Shape, dims: set<nat>): nat {
    if n == 0 then 0
    else FibreSize(n - 1, o, shape, dims) + if OutputIndex(n - 1, shape, dims) == o then 1 else 0
  }

  /** The output index of element `r` of block `q` of the last dimension. */
  lemma OutputOfBlock(q: nat, base: nat, r: nat, shape: Shape, dims: set<nat>)
    requires shape != [] && r < shape[|shape| - 1] && base == shape[|shape| - 1] * q
    ensures var n := |shape| - 1;
            OutputIndex(base + r, shape, dims)
            == if n in dims then OutputIndex(q, shape[..n], dims) else OutputIndex(q, shape[..n], dims) * shape[n] + r
  {
    QuotientOnce(base + r, shape[|shape| - 1], q, r);
  }

  lemma SameDigits(p: nat, w: nat, r: nat, o: nat)
    requires r < w
    ensures p * w + r == o <==> p == o / w && r == o % w
  {
    assert p * w == w * p;
    if p * w + r == o {
      QuotientOnce(o, w, p, r);
    } else {
      assert o == w * (o / w) + o % w;
    }
  }

  /** A block of a reduced last dimension folds into one cell, element by element. */
  lemma {:induction false} ReducedBlock(q: nat, base: nat, r: nat, o: nat, shape: Shape, dims: set<nat>)
    requires shape != [] && r <= shape[|shape| - 1] && |shape| - 1 in dims && base == shape[|shape| - 1] * q
    ensures FibreSize(base + r, o, shape, dims)
            == FibreSize(base, o, shape, dims) + if OutputIndex(q, shape[..|shape| - 1], dims) == o then r else 0
    decreases r
  {
    if r > 0 {
      ReducedBlock(q, base, r - 1, o, shape, dims);
      OutputOfBlock(q, base, r - 1, shape, dims);
      assert base + r - 1 == base + (r - 1);
    }
  }

  /** A block of a kept last dimension spreads over its cells, one element each. */
  lemma {:induction false} KeptBlock(q: nat, base: nat, r: nat, o: nat, shape: Shape, dims: set<nat>)
    requires shape != [] && r <= shape[|shape| - 1] && shape[|shape| - 1] > 0 && |shape| - 1 !in dims
    requires base == shape[|shape| - 1] * q
    ensures var w := shape[|shape| - 1];
            FibreSize(base + r, o, shape, dims)
            == FibreSize(base, o, shape, dims)
               + if OutputIndex(q, shape[..|shape| - 1], dims) == o / w && o % w < r then 1 else 0
    decreases r
  {
    if r > 0 {
      KeptBlock(q, base, r - 1, o, shape, dims);
      OutputOfBlock(q, base, r - 1, shape, dims);
      SameDigits(OutputIndex(q, shape[..|shape| - 1], dims), shape[|shape| - 1], r - 1, o);
      assert base + r - 1 == base + (r - 1);
    }
  }

  /** Whole blocks: a reduced dimension multiplies the fibre, a kept one selects it. */
  function BlockFibre(q: nat, o: nat, shape: Shape, dims: set<nat>): nat
    requires shape != [] && shape[|shape| - 1] > 0
  {
    var n := |shape| - 1;
    if n in dims then Times(shape[n], FibreSize(q, o, shape[..n], dims))
    else FibreSize(q, Quotient(o, shape[n]), shape[..n], dims)
  }

  lemma {:induction false} FibreOfBlocks(q: nat, o: nat, shape: Shape, dims: set<nat>)
    requires shape != [] && shape[|shape| - 1] > 0
    ensures FibreSize(Times(shape[|shape| - 1], q), o, shape, dims) == BlockFibre(q, o, shape, dims)
    decreases q
  {
    var n, w := |shape| - 1, shape[|shape| - 1];
    if q > 0 {
      FibreOfBlocks(q - 1, o, shape, dims);
      MulStep(w, q - 1);
      if n in dims {
        ReducedBlock(q - 1, w * (q - 1), w, o, shape, dims);
        MulStep(w, FibreSize(q - 1, o, shape[..n], dims));
      } else {
        KeptBlock(q - 1, w * (q - 1), w, o, shape, dims);
      }
    }
  }

  lemma MulStep(w: nat, q: nat)
    ensures w * (q + 1) == w * q + w
  {
  }

  /** The cell of the shape without its last dimension that cell `o` belongs to. */
  function ShorterCell(o: nat, shape: Shape, dims: set<nat>): nat
    requires shape != [] && shape[|shape| - 1] > 0
  {
    if |shape| - 1 in dims then o else Quotient(o, shape[|shape| - 1])
  }

  lemma ShorterCellInBounds(o: nat, shape: Shape, dims: set<nat>)
    requires shape != [] && shape[|shape| - 1] > 0 && o < Product(ReducedShape(shape, dims, false))
    ensures ShorterCell(o, shape, dims) < Product(ReducedShape(shape[..|shape| - 1], dims, false))
  {
    var n := |shape| - 1;
    if n !in dims {
      var all := ReducedShape(shape, dims, false);
      assert all[..|all| - 1] == ReducedShape(shape[..n], dims, false);
      LastDimension(o, all);
    }
  }

  /** Appending a dimension multiplies the fibres by it when it is reduced, and keeps them otherwise. */
  lemma FibreOfProduct(o: nat, shape: Shape, dims: set<nat>)
    requires shape != [] && shape[|shape| - 1] > 0
    ensures var n := |shape| - 1;
            FibreSize(Product(shape), o, shape, dims)
            == Times(FibreSize(Product(shape[..n]), ShorterCell(o, shape, dims), shape[..n], dims), if n in dims then shape[n] else 1)
  {
    var n := |shape| - 1;
    var blocks, w := Product(shape[..n]), shape[n];
    ProductFromSnoc(shape, 0);
    TimesCommutes(blocks, w);
    FibreOfBlocks(blocks, o, shape, dims);
    TimesCommutes(w, FibreSize(blocks, ShorterCell(o, shape, dims), shape[..n], dims));
  }

  lemma TimesCommutes(a: nat, b: nat)
    ensures a * b == b * a && Times(a, b) == Times(b, a) && Times(a, 1) == a
  {
  }

  /** Fibres partition the input evenly: each output cell receives exactly the reduced extent of elements. */
  lemma {:induction false} FibreIsReducedExtent(o: nat, shape: Shape, dims: set<nat>)
    requires (forall d :: 0 <= d < |shape| ==> shape[d] > 0) && o < Product(ReducedShape(shape, dims, false))
    ensures FibreSize(Product(shape), o, shape, dims) == ReducedExtent(shape, dims)
    decreases |shape|
  {
    if shape == [] {
      assert FibreSize(1, o, shape, dims) == FibreSize(0, o, shape, dims) + 1;
    } else {
      var n := |shape| - 1;
      FibreOfProduct(o, shape, dims);
      ShorterCellInBounds(o, shape, dims);
      FibreIsReducedExtent(ShorterCell(o, shape, dims), shape[..n], dims);
    }
  }

  /** Keeping reduced dimensions at size one does not change the number of cells. */
  lemma {:induction false} KeptCells(shape: Shape, dims: set<nat>)
    ensures Product(ReducedShape(shape, dims, true)) == Product(ReducedShape(shape, dims, false))
  {
    if shape != [] {
      var n := |shape| - 1;
      KeptCells(shape[..n], dims);
      ProductSnoc(ReducedShape(shape[..n], dims, true), if n in dims then 1 else shape[n]);
      ProductSnoc(ReducedShape(shape[..n], dims, false), shape[n]);
      TimesCommutes(Product(ReducedShape(shape[..n], dims, true)), 1);
    }
  }

  /** Cells times fibre size is the input size, with and without kept dimensions. */
  lemma {:induction false} CellsTimesFibre(shape: Shape, dims: set<nat>, keepdims: bool)
    ensures Product(shape) == Times(Product(ReducedShape(shape, dims, keepdims)), ReducedExtent(shape, dims))
  {
    if shape != [] {
      var n := |shape| - 1;
      var rest := ReducedShape(shape[..n], dims, keepdims);
      CellsTimesFibre(shape[..n], dims, keepdims);
      ProductFromSnoc(shape, 0);
      if n in dims {
        ProductSnoc(rest, 1);
        TimesCommutes(Product(rest), 1);
        Associate(Product(rest), ReducedExtent(shape[..n], dims), shape[n]);
      } else {
        ProductSnoc(rest, shape[n]);
        SwapFactors(Product(rest), ReducedExtent(shape[..n], dims), shape[n]);
      }
    }
  }

  lemma SwapFactors(a: nat, b: nat, c: nat)
    ensures (a * b) * c == (a * c) * (b * 1)
  {
    assert (a * b) * c == a * (b * c) == a * (c * b) == (a * c) * b;
  }

  /** The sizes of the fibres of the first `cells` cells together. */
  function FibreTotal(cells: nat, n: nat, shape: Shape, dims: set<nat>): nat
    decreases cells
  {
    if cells == 0 then 0 else FibreTotal(cells - 1, n, shape, dims) + FibreSize(n, cells - 1, shape, dims)
  }

  /** One more element lands in exactly one cell. */
  lemma {:induction false} TotalStep(cells: nat, n: nat, shape: Shape, dims: set<nat>)
    ensures FibreTotal(cells, n + 1, shape, dims) == FibreTotal(cells, n, shape, dims) + if OutputIndex(n, shape, dims) < cells then 1 else 0
    decreases cells
  {
    if cells > 0 {
      TotalStep(cells - 1, n, shape, dims);
    }
  }

  lemma {:induction false} EveryElementLands(cells: nat, n: nat, shape: Shape, dims: set<nat>)
    requires forall i :: 0 <= i < n ==> OutputIndex(i, shape, dims) < cells
    ensures FibreTotal(cells, n, shape, dims) == n
    decreases n
  {
    if n > 0 {
      EveryElementLands(cells, n - 1, shape, dims);
      TotalStep(cells, n - 1, shape, dims);
    } else {
      NothingLands(cells, shape, dims);
    }
  }

  lemma {:induction false} NothingLands(cells: nat, shape: Shape, dims: set<nat>)
    ensures FibreTotal(cells, 0, shape, dims) == 0
    decreases cells
  {
    if cells > 0 {
      NothingLands(cells - 1, shape, dims);
    }
  }

  /** The fibres partition the input: every element lies in the fibre of one output cell. */
  lemma FibresPartition(shape: Shape, dims: set<nat>, keepdims: bool)
    ensures FibreTotal(Product(ReducedShape(shape, dims, keepdims)), Product(shape), shape, dims) == Product(shape)
  {
    forall i: nat | i < Product(shape)
      ensures OutputIndex(i, shape, dims) < Product(ReducedShape(shape, dims, keepdims))
    {
      OutputIndexIsRowMajor(i, shape, dims, keepdims);
    }
    EveryElementLands(Product(ReducedShape(shape, dims, keepdims)), Product(shape), shape, dims);
  }

  lemma ProductSnoc(shape: Shape, w: nat)
    ensures Product(shape + [w]) == Times(Product(shape), w)
  {
    ProductFromSnoc(shape + [w], 0);
    assert (shape + [w])[..|shape|] == shape;
  }
}
