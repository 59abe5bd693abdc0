/**
 * Undoing broadcasts in adjoints. Tensors are flat sequences of reals in row-major order; summing over the broadcast
 * dimensions is the transpose of broadcasting, and expanding a reduced cotangent the transpose of summing.
 */
module Broadcasting {
  import opened Wrappers
  import opened InnerProduct
  import opened Strides
  import opened Tensors
  import opened Reduction

  datatype ShapeError = HigherRank | ReshapeMismatch | BroadcastMismatch

  // ----- Copying and summing along a map of places

  /** The entries of `xs` at the given places. */
  function Copied(xs: seq<real>, places: seq<nat>): seq<real>
    requires forall i :: 0 <= i < |places| ==> places[i] < |xs|
  {
    seq(|places|, i requires 0 <= i < |places| => xs[places[i]])
  }

  /** The sum of the first `n` entries that belong at `o`. */
  function SumAt(data: seq<real>, places: seq<nat>, o: nat, n: nat): real
    requires n <= |data| == |places|
  {
    if n == 0 then 0.0 else SumAt(data, places, o, n - 1) + if places[n - 1] == o then data[n - 1] else 0.0
  }

  /** Every entry added up at its place. */
  function SumsTo(data: seq<real>, places: seq<nat>, count: nat, n: nat): (r: seq<real>)
    requires n <= |data| == |places|
    ensures |r| == count
  {
    seq(count, o requires 0 <= o < count => SumAt(data, places, o, n))
  }

  /** One more entry raises the sum at its place. */
  lemma SumsGrow(data: seq<real>, places: seq<nat>, count: nat, n: nat)
    requires 0 < n <= |data| == |places| && places[n - 1] < count
    ensures var (before, after) := (SumsTo(data, places, count, n - 1), SumsTo(data, places, count, n));
            && after[places[n - 1]] == before[places[n - 1]] + data[n - 1]
            && forall o :: 0 <= o < count && o != places[n - 1] ==> after[o] == before[o]
  {
  }

  /** Adding up at places is the transpose of copying from them. */
  lemma {:induction false} SumsTranspose(data: seq<real>, places: seq<nat>, xs: seq<real>, n: nat)
    requires n <= |data| == |places| && forall i :: 0 <= i < |places| ==> places[i] < |xs|
    ensures Dot(SumsTo(data, places, |xs|, n), xs) == DotTo(data, Copied(xs, places), n)
  {
    var sums := SumsTo(data, places, |xs|, n);
    if n == 0 {
      DotOfZeros(sums, xs, |xs|);
    } else {
      SumsTranspose(data, places, xs, n - 1);
      SumsGrow(data, places, |xs|, n);
      DotChanges(SumsTo(data, places, |xs|, n - 1), xs, sums, places[n - 1], data[n - 1], |xs|);
      assert Copied(xs, places)[n - 1] == xs[places[n - 1]];
    }
  }

  // ----- Broadcasting and reducing

  /** Where each element of `out` is read from when `lane` broadcasts into it. */
  function LanePlaces(lane: Shape, out: Shape): (r: seq<nat>)
    requires |lane| <= |out|
    ensures |r| == Product(out)
  {
    seq(Product(out), i requires 0 <= i < Product(out) => RowMajor(lane, LaneCoordinates(lane, out, Coordinates(i, out))))
  }

  /** Where each element goes in a reduction over `dims`. */
  function ReducedPlaces(shape: Shape, dims: set<nat>): (r: seq<nat>)
    ensures |r| == Product(shape)
  {
    seq(Product(shape), i requires 0 <= i < Product(shape) => OutputIndex(i, shape, dims))
  }

  lemma LanePlacesInBounds(lane: Shape, out: Shape)
    requires Broadcasts(lane, out)
    ensures forall i :: 0 <= i < Product(out) ==> LanePlaces(lane, out)[i] < Product(lane)
  {
    forall i | 0 <= i < Product(out)
      ensures LanePlaces(lane, out)[i] < Product(lane)
    {
      CoordinatesInvert(i, out);
      LaneCoordinatesInShape(lane, out, Coordinates(i, out));
      RowMajorInBounds(lane, LaneCoordinates(lane, out, Coordinates(i, out)));
    }
  }

  /** The tensor repeated to a larger shape. */
  function Broadcast(x: Tensor, shape: Shape): (r: Tensor)
    requires x.Valid() && Broadcasts(x.shape, shape)
    ensures r.Valid() && r.shape == shape
  {
    LanePlacesInBounds(x.shape, shape);
    Tensor(shape, Copied(x.data, LanePlaces(x.shape, shape)))
  }

  /** The sum over some dimensions. */
  function Sum(x: Tensor, dims: set<nat>, keepdims: bool): (r: Tensor)
    requires x.Valid()
    ensures r.Valid() && r.shape == ReducedShape(x.shape, dims, keepdims)
  {
    var shape := ReducedShape(x.shape, dims, keepdims);
    Tensor(shape, SumsTo(x.data, ReducedPlaces(x.shape, dims), Product(shape), |x.data|))
  }

  /** The dimensions of `out` that a broadcast of `lane` repeats. */
  ghost predicate Repeats(lane: Shape, out: Shape, dims: set<nat>) {
    && |lane| <= |out|
    && var extra := |out| - |lane|;
       forall j :: 0 <= j < |out| ==>
         if j in dims then j < extra || lane[j - extra] == 1 else j >= extra && lane[j - extra] == out[j]
  }

  /** Reading a broadcast lane and reducing the repeated dimensions use the same places. */
  lemma {:induction false} SamePlace(lane: Shape, out: Shape, dims: set<nat>, i: nat)
    requires Broadcasts(lane, out) && Repeats(lane, out, dims) && i < Product(out)
    ensures RowMajor(lane, LaneCoordinates(lane, out, Coordinates(i, out))) == OutputIndex(i, out, dims)
    decreases |out|
  {
    if out != [] {
      var n := |out| - 1;
      LastDimension(i, out);
      if lane == [] {
        SamePlace([], out[..n], dims, i / out[n]);
      } else {
        var m := |lane| - 1;
        LaneCoordinatesSnoc(lane, out, i);
        SamePlace(lane[..m], out[..n], dims, i / out[n]);
      }
    }
  }

  lemma SamePlaces(lane: Shape, out: Shape, dims: set<nat>)
    requires Broadcasts(lane, out) && Repeats(lane, out, dims)
    ensures LanePlaces(lane, out) == ReducedPlaces(out, dims)
  {
    forall i | 0 <= i < Product(out)
      ensures LanePlaces(lane, out)[i] == ReducedPlaces(out, dims)[i]
    {
      SamePlace(lane, out, dims, i);
    }
  }

  /** Reducing the repeated dimensions leaves as many elements as the lane has. */
  lemma {:induction false} SameSize(lane: Shape, out: Shape, dims: set<nat>)
    requires Repeats(lane, out, dims)
    ensures Product(ReducedShape(out, dims, true)) == Product(lane)
    decreases |out|
  {
    if out != [] {
      var n := |out| - 1;
      var reduced := ReducedShape(out, dims, true);
      var rest := ReducedShape(out[..n], dims, true);
      assert reduced[..|reduced| - 1] == rest;
      ProductFromSnoc(reduced, 0);
      if lane == [] {
        SameSize([], out[..n], dims);
      } else {
        SameSize(lane[..|lane| - 1], out[..n], dims);
        ProductFromSnoc(lane, 0);
      }
    }
  }

  // ----- Summing a cotangent down to an operand's shape

  /** The dimensions to sum: the leading ones, and those the target has as one and the cotangent has not. */
  method RepeatedDims(shape: Shape, target: Shape) returns (dims: set<nat>)
    requires |target| <= |shape|
    ensures forall j: nat :: j in dims <==>
      j < |shape| - |target| || (j < |shape| && target[j - (|shape| - |target|)] == 1 && shape[j] != 1)
  {
    var extra := |shape| - |target|;
    dims := {};
    for j := 0 to extra
      invariant forall d: nat :: d in dims <==> d < j
    {
      dims := dims + {j};
    }
    for i := extra to |shape|
      invariant forall j: nat :: j in dims <==> j < extra || (j < i && target[j - extra] == 1 && shape[j] != 1)
    {
      if target[i - extra] == 1 && shape[i] != 1 {
        dims := dims + {i};
      }
    }
  }

  function Reshaped(x: Tensor, shape: Shape): (r: Result<Tensor, ShapeError>)
    requires x.Valid()
    ensures r.Success? ==> r.value.Valid() && r.value.shape == shape && r.value.data == x.data
  {
    if x.shape == shape then Success(x)
    else if Product(x.shape) == Product(shape) then Success(Tensor(shape, x.data))
    else Failure(ReshapeMismatch)
  }

  /** `r` is to `target` what `g` is to its own shape: pairing with any tensor before or after broadcasting agrees. */
  ghost predicate PullsBack(g: Tensor, target: Shape, r: Tensor)
    requires g.Valid() && Broadcasts(target, g.shape)
  {
    && r.Valid() && r.shape == target
    && forall x: Tensor :: x.Valid() && x.shape == target ==> Dot(r.data, x.data) == Dot(g.data, Broadcast(x, g.shape).data)
  }

  lemma SummedPullsBack(g: Tensor, target: Shape, dims: set<nat>, r: Tensor)
    requires g.Valid() && Broadcasts(target, g.shape) && Repeats(target, g.shape, dims)
    requires r.Valid() && r.shape == target && r.data == Sum(g, dims, true).data
    ensures PullsBack(g, target, r)
  {
    LanePlacesInBounds(target, g.shape);
    SamePlaces(target, g.shape, dims);
    forall x: Tensor | x.Valid() && x.shape == target
      ensures Dot(r.data, x.data) == Dot(g.data, Broadcast(x, g.shape).data)
    {
      SumsTranspose(g.data, ReducedPlaces(g.shape, dims), x.data, |g.data|);
    }
  }

  /** Summing over nothing changes nothing. */
  lemma SumOverNothing(g: Tensor)
    requires g.Valid()
    ensures Sum(g, {}, true) == g
  {
    KeepsAll(g.shape);
    forall o | 0 <= o < |g.data|
      ensures Sum(g, {}, true).data[o] == g.data[o]
    {
      OwnPlace(g, o, |g.data|);
    }
  }

  lemma {:induction false} KeepsAll(shape: Shape)
    ensures ReducedShape(shape, {}, true) == shape
    ensures forall i :: 0 <= i < Product(shape) ==> OutputIndex(i, shape, {}) == i
  {
    if shape != [] {
      var n := |shape| - 1;
      KeepsAll(shape[..n]);
      forall i | 0 <= i < Product(shape)
        ensures OutputIndex(i, shape, {}) == i
      {
        LastDimension(i, shape);
      }
    }
  }

  lemma {:induction false} OwnPlace(g: Tensor, o: nat, n: nat)
    requires g.Valid() && n <= |g.data| && o < |g.data|
    ensures SumAt(g.data, ReducedPlaces(g.shape, {}), o, n) == if o < n then g.data[o] else 0.0
  {
    if n > 0 {
      OwnPlace(g, o, n - 1);
      KeepsAll(g.shape);
    }
  }

  /** Sums a cotangent down to the shape of the operand it belongs to. */
  method SumToShape(g: Tensor, target: Shape) returns (r: Result<Tensor, ShapeError>)
    requires g.Valid()
    ensures r.Success? ==> r.value.Valid() && r.value.shape == target
    ensures |target| > |g.shape| ==> r == Failure(HigherRank)
    ensures Broadcasts(target, g.shape) ==> r.Success? && PullsBack(g, target, r.value)
  {
    SumOverNothing(g);
    if g.shape == target {
      assert Repeats(target, g.shape, {});
      SummedPullsBack(g, target, {}, g);
      return Success(g);
    }
    if |g.shape| < |target| {
      return Failure(HigherRank);
    }
    var dims := RepeatedDims(g.shape, target);
    var summed := if dims == {} then g else Sum(g, dims, true);
    r := Reshaped(summed, target);
    if Broadcasts(target, g.shape) {
      SameSize(target, g.shape, dims);
      SummedPullsBack(g, target, dims, r.value);
    }
  }

  // ----- Expanding the cotangent of a reduction

  /** The reduced shape with the reduced dimensions kept as ones. */
  function KeptShape(shape: Shape, dims: set<nat>): (r: Shape)
    ensures |r| == |shape|
  {
    seq(|shape|, i requires 0 <= i < |shape| => if i in dims then 1 else shape[i])
  }

  lemma {:induction false} KeptShapeIs(shape: Shape, dims: set<nat>)
    ensures KeptShape(shape, dims) == ReducedShape(shape, dims, true)
    ensures Broadcasts(KeptShape(shape, dims), shape) && Repeats(KeptShape(shape, dims), shape, dims)
  {
    if shape != [] {
      var n := |shape| - 1;
      KeptShapeIs(shape[..n], dims);
      assert KeptShape(shape, dims) == KeptShape(shape[..n], dims) + [if n in dims then 1 else shape[n]];
    }
  }

  /** Repeats the cotangent of a reduction over the reduced dimensions. */
  function ExpandReduced(g: Tensor, dims: set<nat>, keepdims: bool, target: Shape): (r: Tensor)
    requires g.Valid() && g.shape == ReducedShape(target, dims, keepdims)
    ensures r.Valid() && r.shape == target
  {
    KeptShapeIs(target, dims);
    KeptCells(target, dims);
    Broadcast(Tensor(KeptShape(target, dims), g.data), target)
  }

  /** Expanding is the transpose of summing, with and without kept dimensions. */
  lemma ExpandingTransposesSum(g: Tensor, x: Tensor, dims: set<nat>, keepdims: bool)
    requires g.Valid() && x.Valid() && g.shape == ReducedShape(x.shape, dims, keepdims)
    ensures Dot(Sum(x, dims, keepdims).data, g.data) == Dot(x.data, ExpandReduced(g, dims, keepdims, x.shape).data)
  {
    KeptShapeIs(x.shape, dims);
    KeptCells(x.shape, dims);
    LanePlacesInBounds(KeptShape(x.shape, dims), x.shape);
    SamePlaces(KeptShape(x.shape, dims), x.shape, dims);
    SumsTranspose(x.data, ReducedPlaces(x.shape, dims), g.data, |x.data|);
  }

  // ----- The product rule with broadcasting

  function Times(x: Tensor, y: Tensor): (r: Tensor)
    requires x.Valid() && y.Valid() && x.shape == y.shape
    ensures r.Valid() && r.shape == x.shape
  {
    Tensor(x.shape, seq(|x.data|, i requires 0 <= i < |x.data| => x.data[i] * y.data[i]))
  }

  lemma {:induction false} FactorMoves(g: seq<real>, b: seq<real>, y: seq<real>, gb: seq<real>, bys: seq<real>, n: nat)
    requires |g| == |b| == |y| == |gb| == |bys| && n <= |g|
    requires forall i :: 0 <= i < |g| ==> gb[i] == g[i] * b[i] && bys[i] == b[i] * y[i]
    ensures DotTo(gb, y, n) == DotTo(g, bys, n)
  {
    if n > 0 {
      FactorMoves(g, b, y, gb, bys, n - 1);
      FactorsAssociate(g[n - 1], b[n - 1], y[n - 1]);
    }
  }

  lemma FactorsAssociate(g: real, b: real, y: real)
    ensures (g * b) * y == g * (b * y)
  {
  }

  /**
   * For a product of broadcast operands, the cotangent times the other operand, summed down to the operand's shape,
   * pairs with a change of the operand as the cotangent does with the change of the product.
   */
  lemma ProductPullsBack(g: Tensor, other: Tensor, change: Tensor, r: Tensor)
    requires g.Valid() && other.Valid() && change.Valid() && other.shape == g.shape && Broadcasts(change.shape, g.shape)
    requires PullsBack(Times(g, other), change.shape, r)
    ensures Dot(r.data, change.data) == Dot(g.data, Times(other, Broadcast(change, g.shape)).data)
  {
    var y := Broadcast(change, g.shape);
    FactorMoves(g.data, other.data, y.data, Times(g, other).data, Times(other, y).data, |g.data|);
  }
}
