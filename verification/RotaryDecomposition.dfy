/** Rotary embedding at explicit positions, written out in plain operations. */
module RotaryDecomposition {
  import opened DTypes
  import opened NodeInfo
  import opened Wrappers
  import opened Dag
  import opened Arithmetic
  import opened Strides
  import opened Tensors
  import opened TensorGraph

  // ----- The operands

  function Batch(x: Shape): Shape {
    Front(x, 3)
  }

  /** What constructing the configured node checks of its operands' shapes. */
  ghost predicate RotaryFits(x: Shape, positions: Shape, frequencies: Shape) {
    && |x| >= 2 && Back(x, 1) > 0 && Back(x, 1) % 2 == 0
    && |positions| == |Batch(x)| + 1 && Back(positions, 1) == Back(x, 2)
    && (forall k :: 0 <= k < |Batch(x)| ==> positions[k] == 1 || positions[k] == x[k])
    && frequencies == [Back(x, 1) / 2]
  }

  // ----- Angles

  function Angles(positions: Term, frequencies: Term, id: nat): Term {
    var p, f := ShapeOf(positions), ShapeOf(frequencies);
    var floats := Make(Cast, p, F32, positions, id, [positions]);
    var column := Make(Reshape, p + [1], F32, positions, id + 1, [floats]);
    var line := Make(Cast, f, F32, frequencies, id + 2, [frequencies]);
    Make(Binary(Mul), p + f, F32, positions, id + 3, [column, line])
  }

  lemma AnglesMean(run: Run, positions: Term, frequencies: Term, id: nat, c: seq<nat>, half: nat, m: nat)
    requires Computes(run)
    requires ShapeOf(frequencies) == [half] && InShape(ShapeOf(positions), c) && m < half
    ensures At(Value(run, Angles(positions, frequencies, id)), c + [m])
            == run.world.arithmetic.binary(Mul, F32, run.world.arithmetic.cast(F32, At(Value(run, positions), c)),
                                   run.world.arithmetic.cast(F32, At(Value(run, frequencies), [m])))
  {
    var p, angles := ShapeOf(positions), Angles(positions, frequencies, id);
    var column, line := angles.args[0], angles.args[1];
    BinaryAt(run, angles, Mul, c + [m]);
    assert LaneCoordinates(p + [1], p + [half], c + [m]) == c + [0];
    assert LaneCoordinates([half], p + [half], c + [m]) == [m];
    UnitPlace(p, c);
    ReshapeAt(run, column, c + [0], c);
    CastAt(run, column.args[0], c);
    CastAt(run, line, [m]);
  }

  // ----- One angle for each element

  function Doubled(layout: RotaryLayout, angles: Term, batch: Shape, half: nat, id: nat): Term {
    match layout
    case HalfSplit => Make(Concat(|batch|), batch + [2 * half], F32, angles, id, [angles, angles])
    case InterleavedPairs =>
      var columns := Make(Reshape, batch + [half, 1], F32, angles, id, [angles]);
      var pairs := Make(BroadcastTo, batch + [half, 2], F32, angles, id + 1, [columns]);
      Make(Reshape, batch + [2 * half], F32, angles, id + 2, [pairs])
  }

  function DoubledNodes(layout: RotaryLayout): nat {
    if layout.HalfSplit? then 1 else 3
  }

  /** A pair index and a side make up the place of an element. */
  lemma PairPlace(batch: Shape, half: nat, c: seq<nat>, m: nat, side: nat)
    requires InShape(batch, c) && m < half && side < 2
    ensures RowMajor(batch + [half, 2], c + [m, side]) == RowMajor(batch + [2 * half], c + [2 * m + side])
    ensures InShape(batch + [half, 2], c + [m, side]) && InShape(batch + [2 * half], c + [2 * m + side])
  {
    assert [half, 2][..1] == [half] && [m, side][..1] == [m] && [half][..0] == [] && [m][..0] == [];
    assert RowMajor([half], [m]) == m;
    assert RowMajor([half, 2], [m, side]) == m * 2 + side;
    assert [2 * half][..0] == [] && [2 * m + side][..0] == [];
    assert RowMajor([2 * half], [2 * m + side]) == 2 * m + side;
    assert Product([half, 2]) == Product([2 * half]) by {
      ProductOfTwo(half, 2);
      ProductOfOne(2 * half);
    }
    MiddlePlace(batch, [half, 2], [2 * half], [], c, [m, side], [2 * m + side], []);
    assert [half, 2] + [] == [half, 2] && [2 * half] + [] == [2 * half] && [m, side] + [] == [m, side] && [2 * m + side] + [] == [2 * m + side];
  }

  lemma HalfSplitDoubles(run: Run, angles: Term, batch: Shape, half: nat, id: nat, c: seq<nat>, j: nat)
    requires Computes(run)
    requires ShapeOf(angles) == batch + [half] && InShape(batch, c) && j < 2 * half
    ensures At(Value(run, Doubled(HalfSplit, angles, batch, half, id)), c + [j])
            == At(Value(run, angles), c + [PairOf(HalfSplit, 2 * half, j)])
  {
    var doubled := Doubled(HalfSplit, angles, batch, half, id);
    ConcatAt(run, doubled, |batch|, c + [j]);
    if j >= half {
      assert (c + [j])[|batch| := j - half] == c + [j - half];
    }
  }

  lemma InterleavedDoubles(run: Run, angles: Term, batch: Shape, half: nat, id: nat, c: seq<nat>, j: nat)
    requires Computes(run)
    requires ShapeOf(angles) == batch + [half] && InShape(batch, c) && j < 2 * half
    ensures At(Value(run, Doubled(InterleavedPairs, angles, batch, half, id)), c + [j])
            == At(Value(run, angles), c + [PairOf(InterleavedPairs, 2 * half, j)])
  {
    var doubled := Doubled(InterleavedPairs, angles, batch, half, id);
    var pairs := doubled.args[0];
    var columns := pairs.args[0];
    var m, side := j / 2, j % 2;
    PairPlace(batch, half, c, m, side);
    ReshapeAt(run, doubled, c + [j], c + [m, side]);
    BroadcastAt(run, pairs, c + [m, side]);
    assert LaneCoordinates(batch + [half, 1], batch + [half, 2], c + [m, side]) == c + [m, 0];
    UnitPlace(batch + [half], c + [m]);
    assert (batch + [half]) + [1] == batch + [half, 1] && (c + [m]) + [0] == c + [m, 0];
    ReshapeAt(run, columns, c + [m, 0], c + [m]);
  }

  lemma DoubledMeans(run: Run, layout: RotaryLayout, angles: Term, batch: Shape, half: nat, id: nat, c: seq<nat>, j: nat)
    requires Computes(run)
    requires ShapeOf(angles) == batch + [half] && InShape(batch, c) && j < 2 * half
    ensures At(Value(run, Doubled(layout, angles, batch, half, id)), c + [j]) == At(Value(run, angles), c + [PairOf(layout, 2 * half, j)])
  {
    if layout.HalfSplit? {
      HalfSplitDoubles(run, angles, batch, half, id, c, j);
    } else {
      InterleavedDoubles(run, angles, batch, half, id, c, j);
    }
  }

  // ----- Cosine and sine tables

  /** With heads the tables get a dimension of one for them, before the tokens. */
  function HeadUnit(x: Shape): Shape {
    if |x| >= 3 then [1] else []
  }

  function TableShape(x: Shape, positions: Shape): Shape {
    Front(positions, 1) + (HeadUnit(x) + [Back(positions, 1), Back(x, 1)])
  }

  function Table(unary: UnaryOp, x: Term, positions: Shape, doubled: Term, id: nat): Term {
    var table := Make(Unary(unary), ShapeOf(doubled), F32, doubled, id, [doubled]);
    var rounded := Make(Cast, ShapeOf(doubled), x.op.info.dtype, doubled, id + 1, [table]);
    Make(Reshape, TableShape(ShapeOf(x), positions), x.op.info.dtype, doubled, id + 2, [rounded])
  }

  /** Where an element of the input finds its position, and its table entry. */
  function PositionPlace(x: Shape, positions: Shape, c: seq<nat>): seq<nat>
    requires |c| == |x| >= 2 && |positions| == |Batch(x)| + 1
  {
    LaneCoordinates(positions, Batch(x) + [Back(x, 2)], Front(c, 3) + [Back(c, 2)])
  }

  lemma PositionsSplit(x: Shape, positions: Shape, frequencies: Shape)
    requires RotaryFits(x, positions, frequencies)
    ensures var n := |positions| - 1;
            positions == positions[..n] + [Back(x, 2)] && Front(positions, 1) == positions[..n] && n == |Batch(x)|
  {
  }

  lemma PositionPlaceAt(x: Shape, positions: Shape, frequencies: Shape, c: seq<nat>, k: nat)
    requires RotaryFits(x, positions, frequencies) && InShape(x, c) && k < |positions|
    ensures PositionPlace(x, positions, c)[k]
            == if k == |positions| - 1 then Back(c, 2) else if positions[k] == 1 then 0 else c[k]
    ensures PositionPlace(x, positions, c)[k] < positions[k]
  {
    assert c[|x| - 2] < x[|x| - 2];
    if k < |positions| - 1 {
      assert c[k] < x[k];
    }
  }

  lemma PositionPlaceIs(x: Shape, positions: Shape, frequencies: Shape, c: seq<nat>)
    requires RotaryFits(x, positions, frequencies) && InShape(x, c)
    ensures var (place, n) := (PositionPlace(x, positions, c), |positions| - 1);
            && InShape(positions, place) && place[n] == Back(c, 2) && positions == positions[..n] + [Back(x, 2)]
            && place == place[..n] + [Back(c, 2)]
            && InShape(positions[..n], place[..n]) && Front(positions, 1) == positions[..n]
  {
    PositionsSplit(x, positions, frequencies);
    forall k: nat | k < |positions|
      ensures PositionPlace(x, positions, c)[k] < positions[k]
    {
      PositionPlaceAt(x, positions, frequencies, c, k);
    }
    PositionPlaceAt(x, positions, frequencies, c, |positions| - 1);
  }

  /** The table has the entry of the angle under its function, rounded. */
  lemma TableMeans(run: Run, unary: UnaryOp, x: Term, positions: Shape, frequencies: Shape, doubled: Term, id: nat, c: seq<nat>)
    requires Computes(run)
    requires RotaryFits(ShapeOf(x), positions, frequencies) && InShape(ShapeOf(x), c)
    requires ShapeOf(doubled) == positions + [Back(ShapeOf(x), 1)]
    ensures var place := PositionPlace(ShapeOf(x), positions, c);
            Broadcasted(Value(run, Table(unary, x, positions, doubled, id)), ShapeOf(x), c)
            == run.world.arithmetic.cast(x.op.info.dtype, run.world.arithmetic.unary(unary, F32, At(Value(run, doubled), place + [Back(c, 1)])))
  {
    var table := Table(unary, x, positions, doubled, id);
    var place := PositionPlace(ShapeOf(x), positions, c);
    var n := |positions| - 1;
    var zero := if |ShapeOf(x)| >= 3 then [0] else [];
    var unit, tail, rest := HeadUnit(ShapeOf(x)), [Back(ShapeOf(x), 2), Back(ShapeOf(x), 1)], [Back(c, 2), Back(c, 1)];
    PositionPlaceIs(ShapeOf(x), positions, frequencies, c);
    UnitInserted(positions[..n], unit, tail, place[..n], zero, rest);
    assert positions[..n] + tail == positions + [Back(ShapeOf(x), 1)] && place[..n] + rest == place + [Back(c, 1)];
    TableLane(ShapeOf(x), positions, frequencies, c);
    ReshapeAt(run, table, place[..n] + (zero + rest), place + [Back(c, 1)]);
    CastAt(run, table.args[0], place + [Back(c, 1)]);
    UnaryAt(run, table.args[0].args[0], unary, place + [Back(c, 1)]);
  }

  /** Where the broadcast of the table is read. */
  function TablePlace(x: Shape, positions: Shape, c: seq<nat>): seq<nat>
    requires |c| == |x| >= 2 && |positions| == |Batch(x)| + 1
  {
    PositionPlace(x, positions, c)[..|positions| - 1] + ((if |x| >= 3 then [0] else []) + [Back(c, 2), Back(c, 1)])
  }

  lemma TableLaneAt(x: Shape, positions: Shape, frequencies: Shape, c: seq<nat>, k: nat)
    requires RotaryFits(x, positions, frequencies) && InShape(x, c) && k < |x|
    ensures |TableShape(x, positions)| == |x| == |TablePlace(x, positions, c)|
    ensures (if TableShape(x, positions)[k] == 1 then 0 else c[k]) == TablePlace(x, positions, c)[k]
  {
    PositionsSplit(x, positions, frequencies);
    var n := |positions| - 1;
    if k < n {
      PositionPlaceAt(x, positions, frequencies, c, k);
      assert TableShape(x, positions)[k] == positions[k] && TablePlace(x, positions, c)[k] == PositionPlace(x, positions, c)[k];
    } else {
      assert c[k] < x[k];
      TableEnd(positions[..n], HeadUnit(x), Back(positions, 1), Back(x, 1), k);
      TableEnd(PositionPlace(x, positions, c)[..n], if |x| >= 3 then [0] else [], Back(c, 2), Back(c, 1), k);
    }
  }

  lemma TableEnd(front: seq<nat>, unit: seq<nat>, a: nat, b: nat, k: nat)
    requires |front| <= k < |front| + |unit| + 2
    ensures var s := front + (unit + [a, b]);
            s[k] == if k < |front| + |unit| then unit[k - |front|] else if k == |front| + |unit| then a else b
  {
  }

  /** What the broadcast of the table reads for an element of the input. */
  lemma TableLane(x: Shape, positions: Shape, frequencies: Shape, c: seq<nat>)
    requires RotaryFits(x, positions, frequencies) && InShape(x, c)
    ensures |TableShape(x, positions)| == |x|
    ensures LaneCoordinates(TableShape(x, positions), x, c) == TablePlace(x, positions, c)
  {
    TableLaneAt(x, positions, frequencies, c, 0);
    forall k: nat | k < |x|
      ensures LaneCoordinates(TableShape(x, positions), x, c)[k] == TablePlace(x, positions, c)[k]
    {
      TableLaneAt(x, positions, frequencies, c, k);
    }
  }

  // ----- The turned input

  function Pairs(layout: RotaryLayout, x: Term, id: nat): Term {
    match layout
    case HalfSplit => x
    case InterleavedPairs =>
      Make(Reshape, Front(ShapeOf(x), 1) + [Back(ShapeOf(x), 1) / 2, 2], x.op.info.dtype, x, id, [x])
  }

  function PairNodes(layout: RotaryLayout): nat {
    if layout.HalfSplit? then 0 else 1
  }

  /** The whole of all dimensions but the last, of which a part. */
  function LastRange(shape: Shape, start: nat, stop: nat): seq<(nat, nat, nat)> {
    seq(|shape|, k requires 0 <= k < |shape| => if k == |shape| - 1 then (start, stop, 1) else (0, shape[k], 1))
  }

  function Half(pairs: Term, start: nat, stop: nat, id: nat): Term {
    Make(Slice(LastRange(ShapeOf(pairs), start, stop)), Front(ShapeOf(pairs), 1) + [if start < stop then stop - start else 0],
         pairs.op.info.dtype, pairs, id, [pairs])
  }

  function LastDimension(shape: Shape): nat {
    if shape == [] then 0 else |shape| - 1
  }

  /** The second half of the last dimension negated, then the first. */
  function HalvesTurned(pairs: Term, id: nat): Term {
    var dtype, half := pairs.op.info.dtype, Back(ShapeOf(pairs), 1) / 2;
    var first := Half(pairs, 0, half, id);
    var second := Half(pairs, half, half * 2, id + 1);
    var negated := Make(Unary(Neg), ShapeOf(second), dtype, pairs, id + 2, [second]);
    Make(Concat(LastDimension(ShapeOf(pairs))), Front(ShapeOf(pairs), 1) + [half + half], dtype, pairs, id + 3, [negated, first])
  }

  /** Every element replaced by the other one of its pair, negated where that is the second. */
  function Turned(layout: RotaryLayout, x: Term, id: nat): Term {
    var joined := HalvesTurned(Pairs(layout, x, id), id + PairNodes(layout));
    Make(Reshape, ShapeOf(x), x.op.info.dtype, x, id + PairNodes(layout) + 4, [joined])
  }

  lemma HalfMeans(run: Run, pairs: Term, front: Shape, width: nat, start: nat, stop: nat, id: nat, c: seq<nat>, j: nat)
    requires Computes(run)
    requires ShapeOf(pairs) == front + [width] && InShape(front, c) && start + j < stop <= width
    ensures ShapeOf(Half(pairs, start, stop, id)) == front + [stop - start]
    ensures At(Value(run, Half(pairs, start, stop, id)), c + [j]) == At(Value(run, pairs), c + [start + j])
  {
    var half := Half(pairs, start, stop, id);
    assert Front(ShapeOf(pairs), 1) == front;
    assert SliceCoordinates(LastRange(ShapeOf(pairs), start, stop), c + [j]) == c + [start + j];
    SliceAt(run, half, LastRange(ShapeOf(pairs), start, stop), c + [j]);
  }

  lemma HalvesShape(pairs: Term, id: nat, front: Shape, half: nat)
    requires ShapeOf(pairs) == front + [2 * half]
    ensures var joined := HalvesTurned(pairs, id);
            && IsPlain(joined, Concat(|front|), 2) && ShapeOf(joined) == front + [half + half]
            && IsPlain(joined.args[0], Unary(Neg), 1) && ShapeOf(joined.args[0]) == front + [half]
            && joined.args[0].op.info.dtype == pairs.op.info.dtype
            && joined.args[0].args[0] == Half(pairs, half, half * 2, id + 1) && joined.args[1] == Half(pairs, 0, half, id)
  {
    assert Back(ShapeOf(pairs), 1) == 2 * half && Front(ShapeOf(pairs), 1) == front;
  }

  lemma FirstTurned(run: Run, pairs: Term, id: nat, front: Shape, half: nat, c: seq<nat>, j: nat)
    requires Computes(run)
    requires ShapeOf(pairs) == front + [2 * half] && InShape(front, c) && j < half
    ensures At(Value(run, HalvesTurned(pairs, id)), c + [j])
            == run.world.arithmetic.unary(Neg, pairs.op.info.dtype, At(Value(run, pairs), c + [half + j]))
  {
    var joined := HalvesTurned(pairs, id);
    HalvesShape(pairs, id, front, half);
    ConcatAt(run, joined, |front|, c + [j]);
    HalfMeans(run, pairs, front, 2 * half, half, half * 2, id + 1, c, j);
    UnaryAt(run, joined.args[0], Neg, c + [j]);
  }

  lemma SecondTurned(run: Run, pairs: Term, id: nat, front: Shape, half: nat, c: seq<nat>, j: nat)
    requires Computes(run)
    requires ShapeOf(pairs) == front + [2 * half] && InShape(front, c) && half <= j < 2 * half
    ensures At(Value(run, HalvesTurned(pairs, id)), c + [j]) == At(Value(run, pairs), c + [j - half])
  {
    var joined := HalvesTurned(pairs, id);
    HalvesShape(pairs, id, front, half);
    ConcatAt(run, joined, |front|, c + [j]);
    assert (c + [j])[|front| := j - half] == c + [j - half];
    HalfMeans(run, pairs, front, 2 * half, 0, half, id, c, j - half);
  }

  /** Element `j` of the input turned: its partner, with the sign of the rotation. */
  ghost function TurnedElement(w: World, layout: RotaryLayout, dtype: DType, x: Tensor, front: seq<nat>, j: nat): real {
    var other := At(x, front + [Partner(layout, Back(x.shape, 1), j)]);
    if IsFirst(layout, Back(x.shape, 1), j) then w.arithmetic.unary(Neg, dtype, other) else other
  }

  lemma HalfSplitTurned(run: Run, x: Term, id: nat, front: Shape, half: nat, c: seq<nat>, j: nat)
    requires Computes(run)
    requires ShapeOf(x) == front + [2 * half] && InShape(front, c) && j < 2 * half
    ensures At(Value(run, Turned(HalfSplit, x, id)), c + [j]) == TurnedElement(run.world, HalfSplit, x.op.info.dtype, Value(run, x), c, j)
  {
    var turned := Turned(HalfSplit, x, id);
    HalvesShape(x, id, front, half);
    ReshapeAt(run, turned, c + [j], c + [j]);
    if j < half {
      FirstTurned(run, x, id, front, half, c, j);
    } else {
      SecondTurned(run, x, id, front, half, c, j);
    }
  }

  /** The input reshaped to pairs holds element `j` on side `j % 2` of pair `j / 2`. */
  lemma PairsMean(run: Run, x: Term, id: nat, front: Shape, half: nat, c: seq<nat>, m: nat, side: nat)
    requires Computes(run)
    requires ShapeOf(x) == front + [2 * half] && InShape(front, c) && m < half && side < 2
    ensures At(Value(run, Pairs(InterleavedPairs, x, id)), (c + [m]) + [side]) == At(Value(run, x), c + [2 * m + side])
  {
    var pairs := Pairs(InterleavedPairs, x, id);
    assert Front(ShapeOf(x), 1) == front && ShapeOf(pairs) == front + [half, 2];
    PairPlace(front, half, c, m, side);
    assert (c + [m]) + [side] == c + [m, side];
    ReshapeAt(run, pairs, c + [m, side], c + [2 * m + side]);
  }

  lemma PairsShape(x: Term, id: nat, front: Shape, half: nat)
    requires ShapeOf(x) == front + [2 * half]
    ensures ShapeOf(Pairs(InterleavedPairs, x, id)) == (front + [half]) + [2]
  {
    assert Front(ShapeOf(x), 1) == front;
  }

  /** The turned pairs, before they get the input's shape back. */
  lemma SideTurned(run: Run, x: Term, id: nat, front: Shape, half: nat, c: seq<nat>, m: nat, side: nat)
    requires Computes(run)
    requires ShapeOf(x) == front + [2 * half] && InShape(front, c) && m < half && side < 2
    ensures At(Value(run, HalvesTurned(Pairs(InterleavedPairs, x, id), id + 1)), (c + [m]) + [side])
            == if side == 0 then run.world.arithmetic.unary(Neg, x.op.info.dtype, At(Value(run, x), c + [2 * m + 1]))
               else At(Value(run, x), c + [2 * m])
  {
    var pairs := Pairs(InterleavedPairs, x, id);
    PairsShape(x, id, front, half);
    if side == 0 {
      FirstTurned(run, pairs, id + 1, front + [half], 1, c + [m], 0);
      PairsMean(run, x, id, front, half, c, m, 1);
    } else {
      SecondTurned(run, pairs, id + 1, front + [half], 1, c + [m], 1);
      PairsMean(run, x, id, front, half, c, m, 0);
    }
  }

  lemma TurnedReads(run: Run, x: Term, id: nat, front: Shape, half: nat, c: seq<nat>, m: nat, side: nat)
    requires Computes(run)
    requires ShapeOf(x) == front + [2 * half] && InShape(front, c) && m < half && side < 2
    ensures At(Value(run, Turned(InterleavedPairs, x, id)), c + [2 * m + side])
            == At(Value(run, HalvesTurned(Pairs(InterleavedPairs, x, id), id + 1)), (c + [m]) + [side])
  {
    var turned := Turned(InterleavedPairs, x, id);
    PairsShape(x, id, front, half);
    HalvesShape(Pairs(InterleavedPairs, x, id), id + 1, front + [half], 1);
    PairPlace(front, half, c, m, side);
    assert (c + [m]) + [side] == c + [m, side] && (front + [half]) + [1 + 1] == front + [half, 2];
    ReshapeAt(run, turned, c + [2 * m + side], c + [m, side]);
  }

  lemma InterleavedTurned(run: Run, x: Term, id: nat, front: Shape, half: nat, c: seq<nat>, j: nat)
    requires Computes(run)
    requires ShapeOf(x) == front + [2 * half] && InShape(front, c) && j < 2 * half
    ensures At(Value(run, Turned(InterleavedPairs, x, id)), c + [j])
            == TurnedElement(run.world, InterleavedPairs, x.op.info.dtype, Value(run, x), c, j)
  {
    var m, side := j / 2, j % 2;
    TurnedReads(run, x, id, front, half, c, m, side);
    SideTurned(run, x, id, front, half, c, m, side);
  }

  lemma TurnedMeans(run: Run, layout: RotaryLayout, x: Term, id: nat, front: Shape, half: nat, c: seq<nat>, j: nat)
    requires Computes(run)
    requires ShapeOf(x) == front + [2 * half] && InShape(front, c) && j < 2 * half
    ensures At(Value(run, Turned(layout, x, id)), c + [j]) == TurnedElement(run.world, layout, x.op.info.dtype, Value(run, x), c, j)
  {
    if layout.HalfSplit? {
      HalfSplitTurned(run, x, id, front, half, c, j);
    } else {
      InterleavedTurned(run, x, id, front, half, c, j);
    }
  }

  // ----- The whole rotation

  function AnglesFor(positions: Term, frequencies: Term, layout: RotaryLayout, id: nat): Term {
    Doubled(layout, Angles(positions, frequencies, id), ShapeOf(positions), Back(ShapeOf(frequencies), 1), id + 4)
  }

  function SumOfProducts(x: Term, cosine: Term, turned: Term, sine: Term, id: nat): Term {
    var dtype, shape := x.op.info.dtype, ShapeOf(x);
    var direct := Make(Binary(Mul), shape, dtype, x, id, [x, cosine]);
    var cross := Make(Binary(Mul), shape, dtype, x, id + 1, [turned, sine]);
    Make(Binary(Add), shape, dtype, x, id + 2, [direct, cross])
  }

  /** The plain operations that replace a rotary embedding, numbered from `id` on; their number is `RotaryNodes`. */
  function RotaryGraph(layout: RotaryLayout, x: Term, positions: Term, frequencies: Term, id: nat): Term {
    var doubled := AnglesFor(positions, frequencies, layout, id);
    var next := id + 4 + DoubledNodes(layout);
    var cosine := Table(Cos, x, ShapeOf(positions), doubled, next);
    var sine := Table(Sin, x, ShapeOf(positions), doubled, next + 3);
    var turned := Turned(layout, x, next + 6);
    SumOfProducts(x, cosine, turned, sine, next + 11 + PairNodes(layout))
  }

  function RotaryNodes(layout: RotaryLayout): nat {
    18 + DoubledNodes(layout) + PairNodes(layout)
  }

  lemma AngleMeans(run: Run, layout: RotaryLayout, positions: Term, frequencies: Term, id: nat, place: seq<nat>, half: nat, j: nat)
    requires Computes(run)
    requires ShapeOf(frequencies) == [half] && InShape(ShapeOf(positions), place) && j < 2 * half
    ensures ShapeOf(AnglesFor(positions, frequencies, layout, id)) == ShapeOf(positions) + [2 * half]
    ensures At(Value(run, AnglesFor(positions, frequencies, layout, id)), place + [j])
            == run.world.arithmetic.binary(Mul, F32, run.world.arithmetic.cast(F32, At(Value(run, positions), place)),
                                           run.world.arithmetic.cast(F32, At(Value(run, frequencies), [PairOf(layout, 2 * half, j)])))
  {
    DoubledMeans(run, layout, Angles(positions, frequencies, id), ShapeOf(positions), half, id + 4, place, j);
    AnglesMean(run, positions, frequencies, id, place, half, PairOf(layout, 2 * half, j));
  }

  lemma PairWidth(x: Shape, positions: Shape, frequencies: Shape, c: seq<nat>)
    requires RotaryFits(x, positions, frequencies) && InShape(x, c)
    ensures frequencies == [Back(x, 1) / 2] && Back(x, 1) == 2 * (Back(x, 1) / 2) && Back(c, 1) < Back(x, 1)
  {
    assert c[|x| - 1] < x[|x| - 1];
  }

  lemma ElementAngle(run: Run, layout: RotaryLayout, x: Term, positions: Term, frequencies: Term, id: nat, c: seq<nat>)
    requires Computes(run)
    requires RotaryFits(ShapeOf(x), ShapeOf(positions), ShapeOf(frequencies)) && InShape(ShapeOf(x), c)
    ensures var (place, width) := (PositionPlace(ShapeOf(x), ShapeOf(positions), c), Back(ShapeOf(x), 1));
            && ShapeOf(AnglesFor(positions, frequencies, layout, id)) == ShapeOf(positions) + [width]
            && At(Value(run, AnglesFor(positions, frequencies, layout, id)), place + [Back(c, 1)])
               == AngleOf(run.world, layout, ShapeOf(x), Value(run, positions), Value(run, frequencies), c)
  {
    var place := PositionPlace(ShapeOf(x), ShapeOf(positions), c);
    PositionPlaceIs(ShapeOf(x), ShapeOf(positions), ShapeOf(frequencies), c);
    PairWidth(ShapeOf(x), ShapeOf(positions), ShapeOf(frequencies), c);
    AngleMeans(run, layout, positions, frequencies, id, place, Back(ShapeOf(x), 1) / 2, Back(c, 1));
  }

  lemma ProductMeans(run: Run, n: Term, a: Term, b: Term, c: seq<nat>)
    requires Computes(run)
    requires IsPlain(n, Binary(Mul), 2) && n.args == [a, b] && ShapeOf(a) == ShapeOf(n) && InShape(ShapeOf(n), c)
    ensures At(Value(run, n), c) == Combine(run.world, Mul, n.op.info.dtype, At(Value(run, a), c), Broadcasted(Value(run, b), ShapeOf(n), c))
    ensures Broadcasted(Value(run, n), ShapeOf(n), c) == At(Value(run, n), c)
  {
    BinaryAt(run, n, Mul, c);
    OwnAt(Value(run, a), ShapeOf(n), c);
    OwnAt(Value(run, n), ShapeOf(n), c);
  }

  lemma SumOfProductsMeans(run: Run, x: Term, cosine: Term, turned: Term, sine: Term, id: nat, c: seq<nat>)
    requires Computes(run)
    requires ShapeOf(turned) == ShapeOf(x) && InShape(ShapeOf(x), c)
    ensures var (dtype, shape) := (x.op.info.dtype, ShapeOf(x));
            At(Value(run, SumOfProducts(x, cosine, turned, sine, id)), c)
            == Combine(run.world, Add, dtype,
                       Combine(run.world, Mul, dtype, At(Value(run, x), c), Broadcasted(Value(run, cosine), shape, c)),
                       Combine(run.world, Mul, dtype, At(Value(run, turned), c), Broadcasted(Value(run, sine), shape, c)))
  {
    var sum := SumOfProducts(x, cosine, turned, sine, id);
    BinaryAt(run, sum, Add, c);
    ProductMeans(run, sum.args[0], x, cosine, c);
    ProductMeans(run, sum.args[1], turned, sine, c);
  }

  ghost function AngleOf(w: World, layout: RotaryLayout, x: Shape, positions: Tensor, frequencies: Tensor, c: seq<nat>): real {
    w.arithmetic.binary(Mul, F32, w.arithmetic.cast(F32, PositionAt(x, positions, c)),
                        w.arithmetic.cast(F32, At(frequencies, [PairOf(layout, Back(x, 1), Back(c, 1))])))
  }

  /** A table of the graph holds its function of the element's angle. */
  lemma FunctionMeans(run: Run, unary: UnaryOp, layout: RotaryLayout, x: Term, positions: Term, frequencies: Term, id: nat, tableId: nat, c: seq<nat>)
    requires Computes(run)
    requires RotaryFits(ShapeOf(x), ShapeOf(positions), ShapeOf(frequencies)) && InShape(ShapeOf(x), c)
    ensures var table := Table(unary, x, ShapeOf(positions), AnglesFor(positions, frequencies, layout, id), tableId);
            Broadcasted(Value(run, table), ShapeOf(x), c)
            == run.world.arithmetic.cast(x.op.info.dtype,
                                 run.world.arithmetic.unary(unary, F32, AngleOf(run.world, layout, ShapeOf(x), Value(run, positions),
                                                                      Value(run, frequencies), c)))
  {
    ElementAngle(run, layout, x, positions, frequencies, id, c);
    TableMeans(run, unary, x, ShapeOf(positions), ShapeOf(frequencies), AnglesFor(positions, frequencies, layout, id), tableId, c);
  }

  lemma ElementTurned(run: Run, layout: RotaryLayout, x: Term, positions: Shape, frequencies: Shape, id: nat, c: seq<nat>)
    requires Computes(run)
    requires RotaryFits(ShapeOf(x), positions, frequencies) && InShape(ShapeOf(x), c)
    ensures At(Value(run, Turned(layout, x, id)), c) == TurnedElement(run.world, layout, x.op.info.dtype, Value(run, x), Front(c, 1), Back(c, 1))
  {
    var shape, half, j := ShapeOf(x), Back(ShapeOf(x), 1) / 2, Back(c, 1);
    assert shape == Front(shape, 1) + [2 * half] && c == Front(c, 1) + [j];
    InShapeConcat(Front(shape, 1), [2 * half], Front(c, 1), [j]);
    PairWidth(shape, positions, frequencies, c);
    TurnedMeans(run, layout, x, id, Front(shape, 1), half, Front(c, 1), j);
  }

  /** Element by element the graph computes the rotation. */
  lemma RotaryGraphMeans(run: Run, layout: RotaryLayout, x: Term, positions: Term, frequencies: Term, id: nat, c: seq<nat>)
    requires Computes(run)
    requires RotaryFits(ShapeOf(x), ShapeOf(positions), ShapeOf(frequencies)) && InShape(ShapeOf(x), c)
    ensures At(Value(run, RotaryGraph(layout, x, positions, frequencies, id)), c)
            == RotaryElement(run.world, layout, x.op.info.dtype, Value(run, x), Value(run, positions), Value(run, frequencies), c)
  {
    var doubled := AnglesFor(positions, frequencies, layout, id);
    var next := id + 4 + DoubledNodes(layout);
    var cosine, sine := Table(Cos, x, ShapeOf(positions), doubled, next), Table(Sin, x, ShapeOf(positions), doubled, next + 3);
    FunctionMeans(run, Cos, layout, x, positions, frequencies, id, next, c);
    FunctionMeans(run, Sin, layout, x, positions, frequencies, id, next + 3, c);
    ElementTurned(run, layout, x, ShapeOf(positions), ShapeOf(frequencies), next + 6, c);
    SumOfProductsMeans(run, x, cosine, Turned(layout, x, next + 6), sine, next + 11 + PairNodes(layout), c);
  }
}
