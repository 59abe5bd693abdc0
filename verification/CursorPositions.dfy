/** What cursor-indexed positions read: token `t` of a row takes the weight's row at that row's cursor plus `t`. */
module CursorPositions {
  import opened Wrappers
  import opened Arithmetic
  import opened Dag
  import opened NodeInfo
  import opened SemanticGraph
  import opened DecodeSteps
  import opened Strides

  function ShapeOf(n: Term): Shape {
    n.op.info.shape
  }

  /** The coordinates a broadcast operand is read at. */
  function OperandCoordinates(operand: Term, n: Term, c: seq<nat>): seq<nat> {
    if |ShapeOf(operand)| <= |ShapeOf(n)| == |c| then LaneCoordinates(ShapeOf(operand), ShapeOf(n), c) else []
  }

  /** The coordinates a reshaped operand is read at: the same place in row-major order. */
  function ReshapedCoordinates(operand: Term, n: Term, c: seq<nat>): seq<nat> {
    if |c| == |ShapeOf(n)| then Coordinates(RowMajor(ShapeOf(n), c), ShapeOf(operand)) else []
  }

  function First(c: seq<nat>): nat {
    if c == [] then 0 else c[0]
  }

  /** An element of an index tensor, when row `r` starts at `cursors(r)`. */
  function IndexAt(cursors: nat -> nat, n: Term, c: seq<nat>): nat
    decreases n
  {
    match n.op.kind
    case Input(_, _) => cursors(First(c))
    case ScalarInput(_) => cursors(0)
    case Reshape => if |n.args| == 1 then IndexAt(cursors, n.args[0], ReshapedCoordinates(n.args[0], n, c)) else 0
    case Other(tag) =>
      if tag == ARANGE then First(c)
      else if tag == BROADCAST && |n.args| == 1 then IndexAt(cursors, n.args[0], OperandCoordinates(n.args[0], n, c))
      else if tag == ADD && |n.args| == 2 then
        IndexAt(cursors, n.args[0], OperandCoordinates(n.args[0], n, c)) + IndexAt(cursors, n.args[1], OperandCoordinates(n.args[1], n, c))
      else 0
    case _ => 0
  }

  /** The coordinates of the gathered tensor an element is copied from. */
  function Source(cursors: nat -> nat, n: Term, c: seq<nat>): Option<(Term, seq<nat>)>
    decreases n
  {
    if n.op.kind.Reshape? && |n.args| == 1 then Source(cursors, n.args[0], ReshapedCoordinates(n.args[0], n, c))
    else if n.op.kind == Other(GATHER) && |n.args| == 2 && |c| == 2 then Some((n.args[0], [IndexAt(cursors, n.args[1], c), c[1]]))
    else None
  }

  /** Splitting a leading dimension keeps the place. */
  lemma SplitsLeading(a: nat, b: nat, rest: Shape, i: nat, j: nat, c: seq<nat>)
    requires i < a && j < b && InShape(rest, c)
    ensures RowMajor([a, b] + rest, [i, j] + c) == RowMajor([a * b] + rest, [i * b + j] + c)
    ensures InShape([a * b] + rest, [i * b + j] + c)
    decreases |rest|
  {
    BlockBound(i, a, b, j);
    var whole, split, at, place := [a * b] + rest, [a, b] + rest, [i * b + j] + c, [i, j] + c;
    if rest == [] {
      assert whole[..0] == [] && at[..0] == [] && split[..1] == [a] && place[..1] == [i];
      assert split[..1][..0] == [] && place[..1][..0] == [];
      assert RowMajor([a], [i]) == i;
    } else {
      var n := |rest| - 1;
      SplitsLeading(a, b, rest[..n], i, j, c[..n]);
      assert whole[..n + 1] == [a * b] + rest[..n] && at[..n + 1] == [i * b + j] + c[..n];
      assert split[..n + 2] == [a, b] + rest[..n] && place[..n + 2] == [i, j] + c[..n];
    }
  }

  lemma SinglePlace(a: nat, i: nat)
    requires i < a
    ensures RowMajor([a], [i]) == i && Coordinates(i, [a]) == [i]
  {
    assert [a][..0] == [] && [i][..0] == [];
    RowMajorInverts([a], [i]);
  }

  lemma LastPlace(a: nat, b: nat, i: nat, j: nat, place: nat)
    requires i < a && RowMajor([a], [i]) == i && place == Times(i, b) + j
    ensures RowMajor([a, b], [i, j]) == place
  {
    assert [a, b][..1] == [a] && [i, j][..1] == [i];
  }

  /** A unit dimension after or before keeps the place. */
  lemma TrailingUnit(a: nat, i: nat)
    requires i < a
    ensures RowMajor([a, 1], [i, 0]) == i && RowMajor([a], [i]) == i && RowMajor([1, a], [0, i]) == i
    ensures Coordinates(i, [a]) == [i] && Coordinates(i, [a, 1]) == [i, 0]
  {
    SinglePlace(a, i);
    SinglePlace(1, 0);
    LastPlace(a, 1, i, 0, i);
    LastPlace(1, a, 0, i, i);
    RowMajorInverts([a, 1], [i, 0]);
  }

  lemma OwnCoordinates(shape: Shape, c: seq<nat>)
    requires InShape(shape, c)
    ensures LaneCoordinates(shape, shape, c) == c
  {
  }

  lemma ColumnCoordinates(m: nat, width: nat, i: nat, k: nat)
    requires i < m
    ensures LaneCoordinates([m, 1], [m, width], [i, k]) == [i, 0]
  {
  }

  lemma LineCoordinates(m: nat, width: nat, i: nat, k: nat)
    requires k < width
    ensures LaneCoordinates([1, width], [m, width], [i, k]) == [0, k]
  {
  }

  /** A column broadcast over a width. */
  lemma ColumnIndex(cursors: nat -> nat, indexes: Term, m: nat, width: nat, i: nat, k: nat)
    requires indexes.op.kind == Other(BROADCAST) && |indexes.args| == 1 && ShapeOf(indexes) == [m, width] && i < m
    requires var column := indexes.args[0];
             && column.op.kind.Reshape? && |column.args| == 1 && ShapeOf(column) == [m, 1]
    ensures var column := indexes.args[0];
            IndexAt(cursors, indexes, [i, k]) == IndexAt(cursors, column.args[0], Coordinates(i, ShapeOf(column.args[0])))
  {
    ColumnCoordinates(m, width, i, k);
    TrailingUnit(m, i);
  }

  lemma ScalarIndex(cursors: nat -> nat, n: Term, weight: Term, slot: nat, id: nat, t: nat, k: nat)
    requires n.op.kind.PositionEmbedding? && Typed(n) && t < n.op.kind.seqLen
    ensures IndexAt(cursors, ScalarPositions(n, weight, slot, id).args[1], [t, k]) == cursors(0) + t
  {
    var tokens, indexes := n.op.kind.seqLen, ScalarPositions(n, weight, slot, id).args[1];
    var positions := indexes.args[0].args[0];
    ColumnIndex(cursors, indexes, tokens, ShapeOf(indexes)[1], t, k);
    TrailingUnit(tokens, t);
    OwnCoordinates([tokens], [t]);
    assert IndexAt(cursors, positions.args[0], [t]) == t;
    assert IndexAt(cursors, positions, [t]) == t + cursors(0);
  }

  /** One row: token `t` reads the weight's row at the cursor plus `t`. */
  lemma ScalarPositionsRead(cursors: nat -> nat, n: Term, weight: Term, slot: nat, id: nat, t: nat, k: nat)
    requires n.op.kind.PositionEmbedding? && Typed(n) && t < n.op.kind.seqLen && k < ShapeOf(n.args[0])[1]
    ensures Source(cursors, ScalarPositions(n, weight, slot, id), [t, k]) == Some((weight, [cursors(0) + t, k]))
  {
    ScalarIndex(cursors, n, weight, slot, id, t, k);
  }

  /** Cursors under each other: every column holds them. */
  lemma StartIndex(cursors: nat -> nat, starts: Term, rows: nat, r: nat)
    requires starts.op.kind.Reshape? && |starts.args| == 1 && ShapeOf(starts) == [rows, 1] && r < rows
    requires starts.args[0].op.kind.Input? && ShapeOf(starts.args[0]) == [rows]
    ensures IndexAt(cursors, starts, [r, 0]) == cursors(r)
  {
    TrailingUnit(rows, r);
  }

  /** The token range as one row. */
  lemma RangeIndex(cursors: nat -> nat, line: Term, tokens: nat, t: nat)
    requires line.op.kind.Reshape? && |line.args| == 1 && ShapeOf(line) == [1, tokens] && t < tokens
    requires line.args[0].op.kind == Other(ARANGE) && ShapeOf(line.args[0]) == [tokens]
    ensures IndexAt(cursors, line, [0, t]) == t
  {
    TrailingUnit(tokens, t);
    assert ReshapedCoordinates(line.args[0], line, [0, t]) == [t];
    assert IndexAt(cursors, line.args[0], [t]) == t;
  }

  /** The token range beside itself: every row holds it. */
  lemma LineIndex(cursors: nat -> nat, lines: Term, rows: nat, tokens: nat, r: nat, t: nat)
    requires lines.op.kind == Other(BROADCAST) && |lines.args| == 1 && ShapeOf(lines) == [rows, tokens] && t < tokens
    requires var line := lines.args[0];
             && line.op.kind.Reshape? && |line.args| == 1 && ShapeOf(line) == [1, tokens]
             && line.args[0].op.kind == Other(ARANGE) && ShapeOf(line.args[0]) == [tokens]
    ensures IndexAt(cursors, lines, [r, t]) == t
  {
    LineCoordinates(rows, tokens, r, t);
    RangeIndex(cursors, lines.args[0], tokens, t);
    assert OperandCoordinates(lines.args[0], lines, [r, t]) == [0, t];
  }

  /** The positions of a row start at its cursor. */
  lemma RowPositionsAre(cursors: nat -> nat, settings: Settings, n: Term, slot: nat, id: nat, r: nat, t: nat)
    requires n.op.kind.PositionEmbedding? && Typed(n) && r < settings.graphRows && t < n.op.kind.seqLen
    ensures IndexAt(cursors, RowPositions(settings, n, slot, id), [r, t]) == cursors(r) + t
  {
    var rows, tokens := settings.graphRows, n.op.kind.seqLen;
    var positions := RowPositions(settings, n, slot, id);
    ColumnCoordinates(rows, tokens, r, t);
    StartIndex(cursors, positions.args[0], rows, r);
    OwnCoordinates([rows, tokens], [r, t]);
    LineIndex(cursors, positions.args[1], rows, tokens, r, t);
  }

  /** The place `at` of token `t` of row `r` among all `count` tokens. */
  ghost predicate IsPlace(rows: nat, tokens: nat, count: nat, r: nat, t: nat, at: nat) {
    r < rows && t < tokens && count == rows * tokens && at == r * tokens + t
  }

  lemma PlaceOfToken(rows: nat, tokens: nat, count: nat, r: nat, t: nat, at: nat)
    requires IsPlace(rows, tokens, count, r, t, at)
    ensures at < count && Coordinates(at, [rows, tokens]) == [r, t]
  {
    SplitsLeading(rows, tokens, [], r, t, []);
    assert [rows, tokens] + [] == [rows, tokens] && [r, t] + [] == [r, t] && [count] + [] == [count] && [at] + [] == [at];
    TrailingUnit(count, at);
    RowMajorInverts([rows, tokens], [r, t]);
  }

  lemma PlaceOfElement(rows: nat, tokens: nat, count: nat, width: nat, r: nat, t: nat, at: nat, k: nat)
    requires IsPlace(rows, tokens, count, r, t, at) && k < width
    ensures Coordinates(RowMajor([rows, tokens, width], [r, t, k]), [count, width]) == [at, k]
  {
    SplitsLeading(rows, tokens, [width], r, t, [k]);
    assert [rows, tokens] + [width] == [rows, tokens, width] && [r, t] + [k] == [r, t, k];
    assert [count] + [width] == [count, width] && [at] + [k] == [at, k];
    RowMajorInverts([count, width], [at, k]);
  }

  /** Gathering along a column of positions. */
  lemma GatherSource(cursors: nat -> nat, gathered: Term, count: nat, width: nat, at: nat, k: nat, position: seq<nat>)
    requires gathered.op.kind == Other(GATHER) && |gathered.args| == 2 && at < count
    requires var indexes := gathered.args[1];
             && indexes.op.kind == Other(BROADCAST) && |indexes.args| == 1 && ShapeOf(indexes) == [count, width]
             && indexes.args[0].op.kind.Reshape? && |indexes.args[0].args| == 1 && ShapeOf(indexes.args[0]) == [count, 1]
             && Coordinates(at, ShapeOf(indexes.args[0].args[0])) == position
    ensures Source(cursors, gathered, [at, k])
            == Some((gathered.args[0], [IndexAt(cursors, gathered.args[1].args[0].args[0], position), k]))
  {
    ColumnIndex(cursors, gathered.args[1], count, width, at, k);
  }

  /** Several rows: token `t` of row `r` reads the weight's row at that row's cursor plus `t`. */
  lemma TensorPositionsRead(cursors: nat -> nat, settings: Settings, n: Term, weight: Term, slot: nat, id: nat, r: nat, t: nat, k: nat)
    requires n.op.kind.PositionEmbedding? && Typed(n) && r < settings.graphRows && t < n.op.kind.seqLen && k < ShapeOf(n.args[0])[1]
    ensures Source(cursors, TensorPositions(settings, n, weight, slot, id), [r, t, k]) == Some((weight, [cursors(r) + t, k]))
  {
    var rows, tokens, width := settings.graphRows, n.op.kind.seqLen, ShapeOf(n.args[0])[1];
    var gathered := TensorPositions(settings, n, weight, slot, id).args[0];
    var count, at := rows * tokens, r * tokens + t;
    PlaceOfToken(rows, tokens, count, r, t, at);
    PlaceOfElement(rows, tokens, count, width, r, t, at, k);
    GatherSource(cursors, gathered, count, width, at, k, [r, t]);
    RowPositionsAre(cursors, settings, n, slot, id, r, t);
  }
}
