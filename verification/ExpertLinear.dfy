/**
 * Expert projection row by row: every row of activations is multiplied with the weight matrix its route selects. The
 * element type and the accumulator arithmetic are parameters.
 */
module ExpertLinear {
  import opened Sequences
  import opened Wrappers

  /** `n` steps of the same size, which is their product. */
  function Steps(n: nat, size: nat): nat {
    if n == 0 then 0 else Steps(n - 1, size) + size
  }

  lemma {:induction false} StepsAreProduct(n: nat, size: nat)
    ensures Steps(n, size) == n * size
  {
    if n > 0 {
      StepsAreProduct(n - 1, size);
    }
  }

  lemma {:induction false} StepsMonotone(a: nat, b: nat, size: nat)
    requires a <= b
    ensures Steps(a, size) <= Steps(b, size)
    decreases b - a
  {
    if a < b {
      StepsMonotone(a, b - 1, size);
    }
  }

  // ----- Strided views

  datatype View<T> = View(storage: seq<T>, offset: nat, strides: seq<nat>, shape: seq<nat>)

  function At1<T>(v: View<T>, i: nat): nat
    requires |v.strides| == 1
  {
    v.offset + Steps(i, v.strides[0])
  }

  function At2<T>(v: View<T>, i: nat, j: nat): nat
    requires |v.strides| == 2
  {
    v.offset + Steps(i, v.strides[0]) + Steps(j, v.strides[1])
  }

  function At3<T>(v: View<T>, i: nat, j: nat, k: nat): nat
    requires |v.strides| == 3
  {
    v.offset + Steps(i, v.strides[0]) + Steps(j, v.strides[1]) + Steps(k, v.strides[2])
  }

  /** Every logical index of the view, up to rank three, falls inside its storage. */
  ghost predicate Fits<T>(v: View<T>) {
    && |v.strides| == |v.shape|
    && (|v.shape| == 1 ==> forall i: nat :: i < v.shape[0] ==> At1(v, i) < |v.storage|)
    && (|v.shape| == 2 ==> forall i: nat, j: nat :: i < v.shape[0] && j < v.shape[1] ==> At2(v, i, j) < |v.storage|)
    && (|v.shape| == 3 ==> forall i: nat, j: nat, k: nat ::
          i < v.shape[0] && j < v.shape[1] && k < v.shape[2] ==> At3(v, i, j, k) < |v.storage|)
  }

  // ----- Rows as blocks of a flat array

  /** Equally long rows, one after the other. */
  function Flat<T>(rows: seq<seq<T>>): seq<T> {
    if rows == [] then [] else Flat(rows[..|rows| - 1]) + rows[|rows| - 1]
  }

  ghost predicate HaveLength<T>(rows: seq<seq<T>>, columns: nat) {
    forall r :: 0 <= r < |rows| ==> |rows[r]| == columns
  }

  /** Row `r` of a flat array. */
  function Block<T>(s: seq<T>, r: nat, columns: nat): seq<T>
    requires Steps(r, columns) + columns <= |s|
  {
    s[Steps(r, columns)..Steps(r, columns) + columns]
  }

  lemma {:induction false} FlatLength<T>(rows: seq<seq<T>>, columns: nat)
    requires HaveLength(rows, columns)
    ensures |Flat(rows)| == Steps(|rows|, columns)
  {
    if rows != [] {
      FlatLength(rows[..|rows| - 1], columns);
    }
  }

  lemma SliceOfPrefix<T>(s: seq<T>, end: nat, lo: nat, hi: nat)
    requires lo <= hi <= end <= |s|
    ensures s[..end][lo..hi] == s[lo..hi]
  {
  }

  /** The flat array holds these rows. */
  ghost predicate HoldsRows<T>(s: seq<T>, rows: seq<seq<T>>, columns: nat) {
    forall r: nat :: r < |rows| ==> Steps(r, columns) + columns <= |s| && Block(s, r, columns) == rows[r]
  }

  lemma PrefixHoldsRows<T>(s: seq<T>, rows: seq<seq<T>>, columns: nat)
    requires HoldsRows(s, rows, columns) && rows != []
    ensures Steps(|rows| - 1, columns) <= |s|
    ensures HoldsRows(s[..Steps(|rows| - 1, columns)], rows[..|rows| - 1], columns)
  {
    var last := |rows| - 1;
    assert Block(s, last, columns) == rows[last];
    forall r: nat | r < last
      ensures Steps(r, columns) + columns <= Steps(last, columns)
      ensures Block(s[..Steps(last, columns)], r, columns) == rows[r]
    {
      StepsMonotone(r + 1, last, columns);
      assert Block(s, r, columns) == rows[r];
      SliceOfPrefix(s, Steps(last, columns), Steps(r, columns), Steps(r, columns) + columns);
    }
  }

  /** A flat array is known by its rows. */
  lemma {:induction false} FlatOfBlocks<T>(s: seq<T>, rows: seq<seq<T>>, columns: nat)
    requires |s| == Steps(|rows|, columns) && HoldsRows(s, rows, columns)
    ensures s == Flat(rows)
    decreases |rows|
  {
    if rows != [] {
      var last := |rows| - 1;
      PrefixHoldsRows(s, rows, columns);
      FlatOfBlocks(s[..Steps(last, columns)], rows[..last], columns);
      assert Block(s, last, columns) == rows[last];
    }
  }

  // ----- The projection of one row

  /** Element and accumulator arithmetic: conversion both ways and the fused multiply-add `a * b + c`. */
  datatype Scalars<!T, !F> = Scalars(zero: F, widen: T -> F, narrow: F -> T, mulAdd: (F, F, F) -> F)

  /** The multiply-add chain over the first `n` pairs, in increasing order. */
  function Chain<T, F>(k: Scalars<T, F>, xs: seq<T>, ws: seq<T>, n: nat): F
    requires n <= |xs| && n <= |ws|
  {
    if n == 0 then k.zero
    else k.mulAdd(k.widen(xs[n - 1]), k.widen(ws[n - 1]), Chain(k, xs, ws, n - 1))
  }

  /** The element arithmetic of the row-by-row form: the narrowed chain over all pairs. */
  function ChainDot<T, F>(k: Scalars<T, F>): (seq<T>, seq<T>) -> T {
    (xs: seq<T>, ws: seq<T>) => k.narrow(Chain(k, xs, ws, if |xs| < |ws| then |xs| else |ws|))
  }

  /** Matching shapes: activations [rows, inner], weights [experts, columns, inner], one route per row. */
  predicate Shaped<T>(x: View<T>, weight: View<T>, indexes: View<nat>) {
    && |x.shape| == 2 && |weight.shape| == 3
    && indexes.shape == [x.shape[0]]
    && weight.shape[2] == x.shape[1]
    && 0 < weight.shape[0] <= 0xFFFF_FFFF
  }

  ghost predicate Usable<T>(x: View<T>, weight: View<T>, indexes: View<nat>) {
    Shaped(x, weight, indexes) && Fits(x) && Fits(weight) && Fits(indexes)
  }

  /** Activations of some width, experts of that width between one and the largest route, and a route for each row. */
  lemma ShapesMatch<T>(x: View<T>, weight: View<T>, indexes: View<nat>)
    ensures Shaped(x, weight, indexes) <==>
            exists rows: nat, inner: nat, experts: nat, columns: nat ::
              x.shape == [rows, inner] && weight.shape == [experts, columns, inner] && indexes.shape == [rows] && 1 <= experts < 0x1_0000_0000
  {
    if Shaped(x, weight, indexes) {
      assert x.shape == [x.shape[0], x.shape[1]] && weight.shape == [weight.shape[0], weight.shape[1], x.shape[1]];
    }
  }

  function Route(indexes: View<nat>, row: nat): nat
    requires Fits(indexes) && |indexes.shape| == 1 && row < indexes.shape[0]
  {
    indexes.storage[At1(indexes, row)]
  }

  ghost function RowOf<T>(x: View<T>, row: nat): (xs: seq<T>)
    requires Fits(x) && |x.shape| == 2 && row < x.shape[0]
    ensures |xs| == x.shape[1]
  {
    seq(x.shape[1], i requires 0 <= i < x.shape[1] => x.storage[At2(x, row, i)])
  }

  ghost function WeightsOf<T>(weight: View<T>, expert: nat, column: nat): (ws: seq<T>)
    requires Fits(weight) && |weight.shape| == 3 && expert < weight.shape[0] && column < weight.shape[1]
    ensures |ws| == weight.shape[2]
  {
    seq(weight.shape[2], i requires 0 <= i < weight.shape[2] => weight.storage[At3(weight, expert, column, i)])
  }

  /** A row of activations through one expert; `dot` multiplies a row with a row of weights. */
  ghost function Projected<T>(dot: (seq<T>, seq<T>) -> T, xs: seq<T>, weight: View<T>, expert: nat): (row: seq<T>)
    requires Fits(weight) && |weight.shape| == 3 && expert < weight.shape[0]
    ensures |row| == weight.shape[1]
  {
    seq(weight.shape[1], column requires 0 <= column < weight.shape[1] => dot(xs, WeightsOf(weight, expert, column)))
  }

  /** Every route names an expert. */
  ghost predicate RoutesInRange(indexes: View<nat>, experts: nat)
    requires Fits(indexes) && |indexes.shape| == 1
  {
    forall row: nat :: row < indexes.shape[0] ==> Route(indexes, row) < experts
  }

  /** The whole result: each row of activations through the expert its own route selects. */
  ghost function Routed<T>(dot: (seq<T>, seq<T>) -> T, x: View<T>, weight: View<T>, indexes: View<nat>): (rows: seq<seq<T>>)
    requires Usable(x, weight, indexes) && RoutesInRange(indexes, weight.shape[0])
    ensures |rows| == x.shape[0] && HaveLength(rows, weight.shape[1])
  {
    seq(x.shape[0], row requires 0 <= row < x.shape[0] => Projected(dot, RowOf(x, row), weight, Route(indexes, row)))
  }

  // ----- The loops

  datatype ExpertError = InvalidShapes | MetadataDiffers | ScratchDiffers | RouteOutOfRange(row: nat) | DestinationShape

  method DotElement<T, F>(k: Scalars<T, F>, x: View<T>, weight: View<T>, row: nat, expert: nat, column: nat) returns (value: T)
    requires Fits(x) && |x.shape| == 2 && row < x.shape[0]
    requires Fits(weight) && |weight.shape| == 3 && weight.shape[2] == x.shape[1]
    requires expert < weight.shape[0] && column < weight.shape[1]
    ensures value == ChainDot(k)(RowOf(x, row), WeightsOf(weight, expert, column))
  {
    var sum := k.zero;
    ghost var xs, ws := RowOf(x, row), WeightsOf(weight, expert, column);
    for i := 0 to x.shape[1]
      invariant sum == Chain(k, xs, ws, i)
    {
      var a := k.widen(x.storage[At2(x, row, i)]);
      var b := k.widen(weight.storage[At3(weight, expert, column, i)]);
      sum := k.mulAdd(a, b, sum);
    }
    value := k.narrow(sum);
  }

  /** What is written so far: something before, then the first elements of a row. */
  ghost predicate Writing<T>(output: array<T>, before: seq<T>, row: seq<T>, count: nat)
    reads output
  {
    count <= |row| && |before| + |row| <= output.Length && output[..|before| + count] == before + row[..count]
  }

  method WriteElement<T>(output: array<T>, at: nat, value: T, ghost before: seq<T>, ghost row: seq<T>, ghost count: nat)
    requires Writing(output, before, row, count) && count < |row| && row[count] == value && at == |before| + count
    modifies output
    ensures Writing(output, before, row, count + 1)
  {
    output[at] := value;
    assert output[..at + 1] == output[..at] + [value];
    PrefixSnoc(row, count);
  }

  /** Writes one row of the result at `base`, behind what has been written already. */
  method WriteRow<T, F>(k: Scalars<T, F>, x: View<T>, weight: View<T>, row: nat, expert: nat, output: array<T>, base: nat,
                        ghost before: seq<T>, ghost result: seq<T>)
    requires Fits(x) && |x.shape| == 2 && row < x.shape[0]
    requires Fits(weight) && |weight.shape| == 3 && weight.shape[2] == x.shape[1] && expert < weight.shape[0]
    requires result == Projected(ChainDot(k), RowOf(x, row), weight, expert)
    requires Writing(output, before, result, 0) && |before| == base
    modifies output
    ensures Writing(output, before, result, |result|)
  {
    for column := 0 to weight.shape[1]
      invariant Writing(output, before, result, column)
    {
      var value := DotElement(k, x, weight, row, expert, column);
      WriteElement(output, base + column, value, before, result, column);
    }
  }

  lemma FlatSnoc<T>(rows: seq<seq<T>>, r: nat)
    requires r < |rows|
    ensures Flat(rows[..r + 1]) == Flat(rows[..r]) + rows[r]
  {
    assert rows[..r + 1][..r] == rows[..r];
  }

  /** The first rows of the result have been written. */
  ghost predicate RowsWritten<T>(output: array<T>, rows: seq<seq<T>>, count: nat, columns: nat)
    reads output
  {
    && HaveLength(rows, columns) && output.Length == Steps(|rows|, columns)
    && count <= |rows| && Steps(count, columns) <= output.Length
    && output[..Steps(count, columns)] == Flat(rows[..count])
  }

  lemma NextRow<T>(output: array<T>, rows: seq<seq<T>>, count: nat, columns: nat)
    requires RowsWritten(output, rows, count, columns) && count < |rows|
    ensures Writing(output, output[..Steps(count, columns)], rows[count], 0)
  {
    StepsMonotone(count + 1, |rows|, columns);
  }

  lemma RowDone<T>(output: array<T>, rows: seq<seq<T>>, count: nat, columns: nat, before: seq<T>)
    requires HaveLength(rows, columns) && output.Length == Steps(|rows|, columns) && count < |rows|
    requires before == Flat(rows[..count]) && |before| == Steps(count, columns)
    requires Writing(output, before, rows[count], |rows[count]|)
    ensures RowsWritten(output, rows, count + 1, columns)
  {
    FlatSnoc(rows, count);
    WholePrefix(rows[count]);
  }

  /** Writes all rows in order. */
  method WriteRows<T, F>(k: Scalars<T, F>, x: View<T>, weight: View<T>, indexes: View<nat>, output: array<T>,
                         ghost result: seq<seq<T>>)
    requires Usable(x, weight, indexes) && RoutesInRange(indexes, weight.shape[0])
    requires result == Routed(ChainDot(k), x, weight, indexes)
    requires output.Length == Steps(x.shape[0], weight.shape[1])
    modifies output
    ensures RowsWritten(output, result, |result|, weight.shape[1])
  {
    for row := 0 to x.shape[0]
      invariant RowsWritten(output, result, row, weight.shape[1])
    {
      ghost var before := output[..Steps(row, weight.shape[1])];
      NextRow(output, result, row, weight.shape[1]);
      WriteRow(k, x, weight, row, Route(indexes, row), output, Steps(row, weight.shape[1]), before, result[row]);
      RowDone(output, result, row, weight.shape[1], before);
    }
  }

  /** The rows of the result, each through its own expert; fails before any write when a route is out of range. */
  method ExpertLinearRowsInto<T, F>(k: Scalars<T, F>, x: View<T>, weight: View<T>, indexes: View<nat>,
                                    output: array<T>, outputShape: (nat, nat))
    returns (r: Result<(), ExpertError>)
    requires Fits(x) && Fits(weight) && Fits(indexes) && output.Length == Steps(outputShape.0, outputShape.1)
    modifies output
    ensures r.Failure? ==> output[..] == old(output[..])
    ensures r == Failure(InvalidShapes) <==> !Shaped(x, weight, indexes)
    ensures r.Success? <==> Shaped(x, weight, indexes) && RoutesInRange(indexes, weight.shape[0])
                            && outputShape == (x.shape[0], weight.shape[1])
    ensures r.Success? ==> output[..] == Flat(Routed(ChainDot(k), x, weight, indexes))
  {
    if !Shaped(x, weight, indexes) {
      return Failure(InvalidShapes);
    }
    for row := 0 to x.shape[0]
      invariant forall earlier: nat :: earlier < row ==> Route(indexes, earlier) < weight.shape[0]
    {
      if Route(indexes, row) >= weight.shape[0] {
        return Failure(RouteOutOfRange(row));
      }
    }
    if outputShape != (x.shape[0], weight.shape[1]) {
      return Failure(DestinationShape);
    }
    ghost var result := Routed(ChainDot(k), x, weight, indexes);
    WriteRows(k, x, weight, indexes, output, result);
    WholePrefix(result);
    WholePrefix(output[..]);
    return Success(());
  }
}
