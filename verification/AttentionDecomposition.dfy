/** Attention rounded step by step, written out in plain operations. */
module AttentionDecomposition {
  import opened DTypes
  import opened NodeInfo
  import opened Wrappers
  import opened Dag
  import opened Arithmetic
  import opened Strides
  import opened Tensors
  import opened TensorGraph

  /** What constructing the configured node checks of its operands' shapes. */
  ghost predicate AttentionFits(q: Shape, k: Shape, v: Shape) {
    && |q| >= 2 && |k| == |q| && |v| == |q|
    && Front(k, 3) == Front(q, 3) && Front(v, 3) == Front(q, 3)
    && (|q| >= 3 ==> Back(v, 3) == Back(k, 3) && Back(k, 3) > 0 && Back(q, 3) % Back(k, 3) == 0)
    && Back(k, 1) == Back(q, 1) && Back(v, 2) == Back(k, 2)
  }

  // ----- Shared heads

  /** An operand with its heads repeated to as many as the queries have. */
  function RepeatHeads(a: Term, heads: nat, id: nat): Term {
    var shape := ShapeOf(a);
    if |shape| < 3 || Back(shape, 3) == heads || Back(shape, 3) == 0 then a
    else
      var front, own, tail, dtype := Front(shape, 3), Back(shape, 3), [Back(shape, 2), Back(shape, 1)], a.op.info.dtype;
      var grouped := Make(Reshape, front + ([own, 1] + tail), dtype, a, id, [a]);
      var wide := Make(BroadcastTo, front + ([own, heads / own] + tail), dtype, a, id + 1, [grouped]);
      Make(Reshape, front + ([heads] + tail), dtype, a, id + 2, [wide])
  }

  function RepeatNodes(a: Term, heads: nat): nat {
    if |ShapeOf(a)| < 3 || Back(ShapeOf(a), 3) == heads || Back(ShapeOf(a), 3) == 0 then 0 else 3
  }

  function HeadsOf(q: Shape): nat {
    if |q| >= 3 then Back(q, 3) else 1
  }

  /** An operand that shares the batch dimensions of the queries and whose heads divide theirs. */
  ghost predicate SharesHeads(q: Shape, a: Shape) {
    && |a| == |q| >= 2 && Front(a, 3) == Front(q, 3)
    && (|q| >= 3 ==> Back(a, 3) > 0 && Back(q, 3) % Back(a, 3) == 0)
  }

  lemma RepeatedShape(q: Shape, a: Term, id: nat)
    requires SharesHeads(q, ShapeOf(a))
    ensures ShapeOf(RepeatHeads(a, HeadsOf(q), id)) == Front(q, 2) + [Back(ShapeOf(a), 2), Back(ShapeOf(a), 1)]
    ensures RepeatHeads(a, HeadsOf(q), id).op.info.dtype == a.op.info.dtype
  {
    var shape := ShapeOf(a);
    assert shape == Front(shape, 2) + [Back(shape, 2), Back(shape, 1)];
    if |q| >= 3 {
      assert Front(shape, 2) == Front(shape, 3) + [Back(shape, 3)];
      assert Front(q, 2) == Front(q, 3) + [Back(q, 3)];
    }
  }

  /** A head index splits into the shared head and the place in its group. */
  lemma GroupPlace(own: nat, group: nat, heads: nat, h: nat)
    requires own > 0 && heads == own * group && h < heads
    ensures group > 0 && h / group < own && heads / own == group
    ensures Product([own, group]) == Product([heads]) && RowMajor([own, group], [h / group, h % group]) == RowMajor([heads], [h])
  {
    ProductOfTwo(own, group);
    ProductOfOne(heads);
    PositiveFactor(h, own, group);
    if h / group >= own {
      MulMonotone(group, own, h / group);
    }
    QuotientOnce(heads, own, group, 0);
    assert [own, group][..1] == [own] && [h / group, h % group][..1] == [h / group] && [own][..0] == [] && [h / group][..0] == [];
    assert RowMajor([own], [h / group]) == h / group;
    assert [heads][..0] == [] && [h][..0] == [];
  }

  /** The repeated operand with all its dimensions named. */
  lemma RepeatedAt(run: Run, a: Term, id: nat, front: Shape, own: nat, group: nat, heads: nat, tail: Shape, c: seq<nat>, h: nat, rest: seq<nat>)
    requires Computes(run)
    requires |tail| == 2 && ShapeOf(a) == front + ([own] + tail) && own > 0 && heads == own * group && heads != own
    requires InShape(front, c) && h < heads && InShape(tail, rest)
    ensures group > 0
    ensures At(Value(run, RepeatHeads(a, heads, id)), c + ([h] + rest)) == At(Value(run, a), c + ([h / group] + rest))
  {
    GroupPlace(own, group, heads, h);
    var result := RepeatHeads(a, heads, id);
    assert Front(ShapeOf(a), 3) == front && Back(ShapeOf(a), 3) == own && [Back(ShapeOf(a), 2), Back(ShapeOf(a), 1)] == tail;
    var wide := result.args[0];
    WideAt(run, result, front, own, group, heads, tail, c, h, rest);
    GroupedAt(run, wide, front, own, group, tail, c, h / group, h % group, rest);
  }

  lemma WideAt(run: Run, n: Term, front: Shape, own: nat, group: nat, heads: nat, tail: Shape, c: seq<nat>, h: nat, rest: seq<nat>)
    requires Computes(run)
    requires own > 0 && group > 0 && heads == own * group && InShape(front, c) && h < heads && InShape(tail, rest)
    requires IsPlain(n, Reshape, 1) && ShapeOf(n) == front + ([heads] + tail) && ShapeOf(n.args[0]) == front + ([own, group] + tail)
    ensures At(Value(run, n), c + ([h] + rest)) == At(Value(run, n.args[0]), c + ([h / group, h % group] + rest))
  {
    GroupPlace(own, group, heads, h);
    MiddlePlace(front, [heads], [own, group], tail, c, [h], [h / group, h % group], rest);
    InShapeConcat(front, [heads] + tail, c, [h] + rest);
    InShapeConcat([heads], tail, [h], rest);
    InShapeConcat(front, [own, group] + tail, c, [h / group, h % group] + rest);
    InShapeConcat([own, group], tail, [h / group, h % group], rest);
    ReshapeAt(run, n, c + ([h] + rest), c + ([h / group, h % group] + rest));
  }

  lemma GroupLane(front: Shape, own: nat, group: nat, tail: Shape, c: seq<nat>, m: nat, g: nat, rest: seq<nat>)
    requires InShape(front, c) && m < own && InShape(tail, rest)
    ensures LaneCoordinates(front + ([own, 1] + tail), front + ([own, group] + tail), c + ([m, g] + rest)) == c + ([m, 0] + rest)
  {
    var lane, out, at := front + ([own, 1] + tail), front + ([own, group] + tail), c + ([m, g] + rest);
    var expected := c + ([m, 0] + rest);
    forall k | 0 <= k < |lane|
      ensures LaneCoordinates(lane, out, at)[k] == expected[k]
    {
      var n := |front|;
      if k < n {
        assert lane[k] == front[k] && at[k] == c[k];
      } else if k >= n + 2 {
        assert lane[k] == tail[k - n - 2] && at[k] == rest[k - n - 2];
      }
    }
  }

  lemma UngroupedAt(run: Run, grouped: Term, front: Shape, own: nat, tail: Shape, c: seq<nat>, m: nat, rest: seq<nat>)
    requires Computes(run)
    requires InShape(front, c) && m < own && InShape(tail, rest)
    requires IsPlain(grouped, Reshape, 1) && ShapeOf(grouped) == front + ([own, 1] + tail) && ShapeOf(grouped.args[0]) == front + ([own] + tail)
    ensures At(Value(run, grouped), c + ([m, 0] + rest)) == At(Value(run, grouped.args[0]), c + ([m] + rest))
  {
    InShapeConcat(front, [own], c, [m]);
    UnitInserted(front + [own], [1], tail, c + [m], [0], rest);
    assert (front + [own]) + ([1] + tail) == front + ([own, 1] + tail) && (c + [m]) + ([0] + rest) == c + ([m, 0] + rest);
    assert (front + [own]) + tail == front + ([own] + tail) && (c + [m]) + rest == c + ([m] + rest);
    ReshapeAt(run, grouped, c + ([m, 0] + rest), c + ([m] + rest));
  }

  lemma GroupedAt(run: Run, wide: Term, front: Shape, own: nat, group: nat, tail: Shape, c: seq<nat>, m: nat, g: nat, rest: seq<nat>)
    requires Computes(run)
    requires InShape(front, c) && m < own && g < group && InShape(tail, rest)
    requires IsPlain(wide, BroadcastTo, 1) && ShapeOf(wide) == front + ([own, group] + tail)
    requires IsPlain(wide.args[0], Reshape, 1) && ShapeOf(wide.args[0]) == front + ([own, 1] + tail)
    requires ShapeOf(wide.args[0].args[0]) == front + ([own] + tail)
    ensures At(Value(run, wide), c + ([m, g] + rest)) == At(Value(run, wide.args[0].args[0]), c + ([m] + rest))
  {
    InShapeConcat(front, [own, group] + tail, c, [m, g] + rest);
    InShapeConcat([own, group], tail, [m, g], rest);
    BroadcastAt(run, wide, c + ([m, g] + rest));
    GroupLane(front, own, group, tail, c, m, g, rest);
    UngroupedAt(run, wide.args[0], front, own, tail, c, m, rest);
  }

  /** Heads and the key head of a query, when there are heads. */
  lemma KeyHead(q: Shape, a: Shape, front: seq<nat>)
    requires SharesHeads(q, a) && |q| >= 3 && InShape(Front(q, 2), front)
    ensures var (own, heads, c, h) := (Back(a, 3), Back(q, 3), Front(front, 1), Back(front, 1));
            && front == c + [h] && InShape(Front(a, 3), c) && own > 0 && heads == own * (heads / own) && h < heads
            && KeyFront(q, a, front) == c + [if heads == own then h else h / (heads / own)]
  {
    var (own, heads, c, h) := (Back(a, 3), Back(q, 3), Front(front, 1), Back(front, 1));
    assert front == c + [h] && Front(q, 2) == Front(q, 3) + [heads];
    InShapeConcat(Front(q, 3), [heads], c, [h]);
    assert h == [h][0] < [heads][0];
    PositiveFactor(h, own, heads / own);
    if own == heads {
      QuotientOnce(heads, own, 1, 0);
    }
  }

  /** A query head reads the shared head of its group. */
  lemma RepeatedMeans(run: Run, q: Shape, a: Term, id: nat, front: seq<nat>, s: nat, d: nat)
    requires Computes(run)
    requires SharesHeads(q, ShapeOf(a)) && InShape(Front(q, 2), front) && s < Back(ShapeOf(a), 2) && d < Back(ShapeOf(a), 1)
    ensures At(Value(run, RepeatHeads(a, HeadsOf(q), id)), front + [s, d]) == At(Value(run, a), KeyFront(q, ShapeOf(a), front) + [s, d])
  {
    var shape := ShapeOf(a);
    if |q| >= 3 {
      KeyHead(q, shape, front);
      if Back(shape, 3) != Back(q, 3) {
        HeadsRepeated(run, q, a, id, front, s, d);
      }
    }
  }

  lemma HeadsRepeated(run: Run, q: Shape, a: Term, id: nat, front: seq<nat>, s: nat, d: nat)
    requires Computes(run)
    requires SharesHeads(q, ShapeOf(a)) && InShape(Front(q, 2), front) && s < Back(ShapeOf(a), 2) && d < Back(ShapeOf(a), 1)
    requires |q| >= 3 && Back(ShapeOf(a), 3) != Back(q, 3)
    ensures At(Value(run, RepeatHeads(a, Back(q, 3), id)), front + [s, d]) == At(Value(run, a), KeyFront(q, ShapeOf(a), front) + [s, d])
  {
    var shape := ShapeOf(a);
    var own, heads, c, h := Back(shape, 3), Back(q, 3), Front(front, 1), Back(front, 1);
    var tail := [Back(shape, 2), Back(shape, 1)];
    KeyHead(q, shape, front);
    assert shape == Front(shape, 3) + ([own] + tail);
    RepeatedAt(run, a, id, Front(shape, 3), own, heads / own, heads, tail, c, h, [s, d]);
    assert c + ([h] + [s, d]) == front + [s, d];
    assert c + ([h / (heads / own)] + [s, d]) == KeyFront(q, shape, front) + [s, d];
  }

  // ----- Products of queries and keys

  /** The shape of scores: a line over the keys for every query. */
  function ScoreShape(q: Shape, k: Shape): Shape {
    Front(q, 2) + [Back(q, 2), Back(k, 2)]
  }

  function SwappedKeys(q: Shape, k: Term, id: nat): Term {
    Make(SwapLast, Front(q, 2) + [Back(ShapeOf(k), 1), Back(ShapeOf(k), 2)], k.op.info.dtype, k, id + RepeatNodes(k, HeadsOf(q)),
         [RepeatHeads(k, HeadsOf(q), id)])
  }

  function RawScores(q: Term, k: Term, id: nat): Term {
    var next := id + RepeatNodes(k, HeadsOf(ShapeOf(q))) + 1;
    Make(Matmul, ScoreShape(ShapeOf(q), ShapeOf(k)), q.op.info.dtype, q, next, [q, SwappedKeys(ShapeOf(q), k, id)])
  }

  function RawNodes(q: Term, k: Term): nat {
    RepeatNodes(k, HeadsOf(ShapeOf(q))) + 2
  }

  /** A column of the swapped keys is a line of the keys a query head reads. */
  lemma KeyColumn(run: Run, q: Shape, k: Term, id: nat, front: seq<nat>, j: nat)
    requires Computes(run)
    requires SharesHeads(q, ShapeOf(k)) && InShape(Front(q, 2), front) && j < Back(ShapeOf(k), 2)
    ensures var width := Back(ShapeOf(k), 1);
            Column(Value(run, SwappedKeys(q, k, id)), front, width, j) == Line(Value(run, k), KeyFront(q, ShapeOf(k), front) + [j], width)
  {
    var swapped, width, keyFront := SwappedKeys(q, k, id), Back(ShapeOf(k), 1), KeyFront(q, ShapeOf(k), front);
    forall t | 0 <= t < width
      ensures At(Value(run, swapped), front + [t, j]) == At(Value(run, k), (keyFront + [j]) + [t])
    {
      SwapAt(run, swapped, front, t, j);
      RepeatedMeans(run, q, k, id, front, j, t);
      assert (keyFront + [j]) + [t] == keyFront + [j, t];
    }
  }

  lemma RawScoresMean(run: Run, q: Term, k: Term, id: nat, front: seq<nat>, i: nat, j: nat)
    requires Computes(run)
    requires SharesHeads(ShapeOf(q), ShapeOf(k)) && Back(ShapeOf(k), 1) == Back(ShapeOf(q), 1)
    requires InShape(Front(ShapeOf(q), 2), front) && i < Back(ShapeOf(q), 2) && j < Back(ShapeOf(k), 2)
    ensures At(Value(run, RawScores(q, k, id)), front + [i, j]) == RawScore(run.world, q.op.info.dtype, Value(run, q), Value(run, k), front, i, j)
  {
    var raw, lead := RawScores(q, k, id), Front(ShapeOf(q), 2);
    assert Front(ShapeOf(raw), 2) == lead && Front(ShapeOf(raw.args[1]), 2) == lead;
    MatmulAt(run, raw, lead, front, i, j);
    KeyColumn(run, ShapeOf(q), k, id, front, j);
  }

  // ----- Scaling

  function Scaled(scores: Term, scale: real, id: nat): Term {
    if scale == 1.0 then scores
    else
      var shape, dtype := ShapeOf(scores), scores.op.info.dtype;
      var float := Make(Cast, shape, F32, scores, id, [scores]);
      var multiplier := Make(Filled(scale), [], F32, scores, id + 1, []);
      var product := Make(Binary(Mul), shape, F32, scores, id + 2, [float, multiplier]);
      Make(Cast, shape, dtype, scores, id + 3, [product])
  }

  function ScaledNodes(scale: real): nat {
    if scale == 1.0 then 0 else 4
  }

  lemma ScaledMeans(run: Run, scores: Term, scale: real, id: nat, c: seq<nat>)
    requires Computes(run)
    requires InShape(ShapeOf(scores), c)
    ensures At(Value(run, Scaled(scores, scale, id)), c) == ScaledScore(run.world, scores.op.info.dtype, scale, At(Value(run, scores), c))
    ensures ShapeOf(Scaled(scores, scale, id)) == ShapeOf(scores) && Scaled(scores, scale, id).op.info.dtype == scores.op.info.dtype
  {
    if scale != 1.0 {
      var scaled := Scaled(scores, scale, id);
      var product := scaled.args[0];
      CastAt(run, scaled, c);
      BinaryAt(run, product, Mul, c);
      OwnAt(Value(run, product.args[0]), ShapeOf(product), c);
      CastAt(run, product.args[0], c);
      FilledAt(run, product.args[1], scale, ShapeOf(product), c);
    }
  }

  // ----- The mask

  function Offset(queries: nat, keys: nat): nat {
    if keys > queries then keys - queries else 0
  }

  function Rows(like: Term, queries: nat, keys: nat, id: nat): Term {
    Make(Reshape, [queries, 1], I64, like, id + 2, [Make(Arange(Offset(queries, keys)), [queries], I64, like, id, [])])
  }

  function Columns(like: Term, keys: nat, id: nat): Term {
    Make(Reshape, [1, keys], I64, like, id + 3, [Make(Arange(0), [keys], I64, like, id + 1, [])])
  }

  /** Which keys each query may see, as ones and zeros. */
  function Allowed(like: Term, queries: nat, keys: nat, window: AttentionWindow, id: nat): Term {
    var row, column := Rows(like, queries, keys, id), Columns(like, keys, id);
    var causal := Make(Compare(false), [queries, keys], U8, like, id + 4, [column, row]);
    match window
    case Local(size) =>
      var distance := Make(Binary(Sub), [queries, keys], I64, like, id + 5, [row, column]);
      var limit := Make(Filled(size as real), [], I64, like, id + 6, []);
      var inside := Make(Compare(true), [queries, keys], U8, like, id + 7, [distance, limit]);
      Make(Binary(Mul), [queries, keys], U8, like, id + 8, [causal, inside])
    case _ => causal
  }

  function AllowedNodes(window: AttentionWindow): nat {
    if window.Local? then 9 else 5
  }

  lemma RowsMean(run: Run, like: Term, queries: nat, keys: nat, id: nat, i: nat, j: nat)
    requires Computes(run)
    requires i < queries && j < keys
    ensures Broadcasted(Value(run, Rows(like, queries, keys, id)), [queries, keys], [i, j]) == (Offset(queries, keys) + i) as real
  {
    var rows := Rows(like, queries, keys, id);
    assert LaneCoordinates([queries, 1], [queries, keys], [i, j]) == [i, 0];
    UnitPlace([queries], [i]);
    assert [queries] + [1] == [queries, 1] && [i] + [0] == [i, 0];
    ReshapeAt(run, rows, [i, 0], [i]);
    ArangeAt(run, rows.args[0], Offset(queries, keys), i);
  }

  lemma ColumnsMean(run: Run, like: Term, queries: nat, keys: nat, id: nat, i: nat, j: nat)
    requires Computes(run)
    requires i < queries && j < keys
    ensures Broadcasted(Value(run, Columns(like, keys, id)), [queries, keys], [i, j]) == j as real
  {
    var columns := Columns(like, keys, id);
    assert LaneCoordinates([1, keys], [queries, keys], [i, j]) == [0, j];
    UnitInserted([], [1], [keys], [], [0], [j]);
    assert [] + ([1] + [keys]) == [1, keys] && [] + ([0] + [j]) == [0, j] && [] + [keys] == [keys] && [] + [j] == [j];
    ReshapeAt(run, columns, [0, j], [j]);
    ArangeAt(run, columns.args[0], 0, j);
  }

  lemma CausalMeans(run: Run, like: Term, queries: nat, keys: nat, id: nat, n: Term, i: nat, j: nat)
    requires Computes(run)
    requires i < queries && j < keys && IsPlain(n, Compare(false), 2) && ShapeOf(n) == [queries, keys]
    requires n.args == [Columns(like, keys, id), Rows(like, queries, keys, id)]
    ensures At(Value(run, n), [i, j]) == Truth(j <= i + Offset(queries, keys))
  {
    CompareAt(run, n, false, [i, j]);
    RowsMean(run, like, queries, keys, id, i, j);
    ColumnsMean(run, like, queries, keys, id, i, j);
  }

  lemma InsideMeans(run: Run, like: Term, queries: nat, keys: nat, id: nat, size: nat, n: Term, i: nat, j: nat)
    requires Computes(run)
    requires i < queries && j < keys && IsPlain(n, Compare(true), 2) && ShapeOf(n) == [queries, keys]
    requires IsPlain(n.args[0], Binary(Sub), 2) && n.args[0].op.info.dtype == I64 && ShapeOf(n.args[0]) == [queries, keys]
    requires n.args[0].args == [Rows(like, queries, keys, id), Columns(like, keys, id)]
    requires IsPlain(n.args[1], Filled(size as real), 0) && n.args[1].op.info.dtype == I64 && ShapeOf(n.args[1]) == []
    ensures At(Value(run, n), [i, j]) == Truth(i + Offset(queries, keys) < j + size)
  {
    CompareAt(run, n, true, [i, j]);
    OwnAt(Value(run, n.args[0]), [queries, keys], [i, j]);
    BinaryAt(run, n.args[0], Sub, [i, j]);
    RowsMean(run, like, queries, keys, id, i, j);
    ColumnsMean(run, like, queries, keys, id, i, j);
    FilledAt(run, n.args[1], size as real, [queries, keys], [i, j]);
  }

  lemma AllowedMeans(run: Run, like: Term, queries: nat, keys: nat, window: AttentionWindow, id: nat, i: nat, j: nat)
    requires Computes(run)
    requires i < queries && j < keys
    ensures ShapeOf(Allowed(like, queries, keys, window, id)) == [queries, keys]
    ensures At(Value(run, Allowed(like, queries, keys, window, id)), [i, j]) == Truth(Visible(window, queries, keys, i, j))
  {
    var allowed := Allowed(like, queries, keys, window, id);
    if window.Local? {
      CausalMeans(run, like, queries, keys, id, allowed.args[0], i, j);
      InsideMeans(run, like, queries, keys, id, window.size, allowed.args[1], i, j);
      OwnAt(Value(run, allowed.args[0]), [queries, keys], [i, j]);
      OwnAt(Value(run, allowed.args[1]), [queries, keys], [i, j]);
      BinaryAt(run, allowed, Mul, [i, j]);
    } else {
      CausalMeans(run, like, queries, keys, id, allowed, i, j);
    }
  }

  /** Scores with hidden keys pushed to the least finite value. */
  function Masked(scores: Term, queries: nat, keys: nat, window: AttentionWindow, id: nat): Term {
    var dtype, next := scores.op.info.dtype, id + AllowedNodes(window);
    var zero := Make(Filled(0.0), [], dtype, scores, next, []);
    var least := Make(Filled(Minimum(dtype)), [], dtype, scores, next + 1, []);
    var mask := Make(Where, [queries, keys], dtype, scores, next + 2, [Allowed(scores, queries, keys, window, id), zero, least]);
    Make(Binary(Add), ShapeOf(scores), dtype, scores, next + 3, [scores, mask])
  }

  function MaskedNodes(window: AttentionWindow): nat {
    AllowedNodes(window) + 4
  }

  lemma MaskMeans(run: Run, n: Term, allowed: Term, queries: nat, keys: nat, dtype: DType, low: real, i: nat, j: nat)
    requires Computes(run)
    requires i < queries && j < keys && IsPlain(n, Where, 3) && ShapeOf(n) == [queries, keys] && ShapeOf(allowed) == [queries, keys]
    requires n.args[0] == allowed && IsPlain(n.args[1], Filled(0.0), 0) && IsPlain(n.args[2], Filled(low), 0)
    requires forall k :: 1 <= k < 3 ==> ShapeOf(n.args[k]) == [] && n.args[k].op.info.dtype == dtype
    ensures At(Value(run, n), [i, j]) == Constant(run.world, dtype, if At(Value(run, allowed), [i, j]) != 0.0 then 0.0 else low)
  {
    WhereAt(run, n, [i, j]);
    OwnAt(Value(run, allowed), [queries, keys], [i, j]);
    FilledAt(run, n.args[1], 0.0, [queries, keys], [i, j]);
    FilledAt(run, n.args[2], low, [queries, keys], [i, j]);
  }

  lemma MaskedMeans(run: Run, scores: Term, lead: Shape, queries: nat, keys: nat, window: AttentionWindow, id: nat, front: seq<nat>, i: nat, j: nat)
    requires Computes(run)
    requires ShapeOf(scores) == lead + [queries, keys] && InShape(lead, front) && i < queries && j < keys
    ensures At(Value(run, Masked(scores, queries, keys, window, id)), front + [i, j])
            == MaskedScore(run.world, scores.op.info.dtype, Visible(window, queries, keys, i, j), At(Value(run, scores), front + [i, j]))
  {
    var masked := Masked(scores, queries, keys, window, id);
    var mask := masked.args[1];
    BinaryAt(run, masked, Add, front + [i, j]);
    OwnAt(Value(run, scores), ShapeOf(scores), front + [i, j]);
    assert LaneCoordinates([queries, keys], lead + [queries, keys], front + [i, j]) == [i, j];
    AllowedMeans(run, scores, queries, keys, window, id, i, j);
    MaskMeans(run, mask, mask.args[0], queries, keys, scores.op.info.dtype, Minimum(scores.op.info.dtype), i, j);
  }

  // ----- Softmax

  /** Softmax over the keys in F32, rounded to the scores' own type. */
  function SoftmaxGraph(scores: Term, lead: Shape, queries: nat, id: nat): Term {
    var shape, dtype := ShapeOf(scores), scores.op.info.dtype;
    var float := Make(Cast, shape, F32, scores, id, [scores]);
    var most := Make(MaxLast, lead + [queries, 1], F32, scores, id + 1, [float]);
    var shifted := Make(Binary(Sub), shape, F32, scores, id + 2, [float, most]);
    var exponentials := Make(Unary(Exp), shape, F32, scores, id + 3, [shifted]);
    var total := Make(SumLast, lead + [queries, 1], F32, scores, id + 4, [exponentials]);
    var quotients := Make(Binary(Div), shape, F32, scores, id + 5, [exponentials, total]);
    Make(Cast, shape, dtype, scores, id + 6, [quotients])
  }

  /** A value for every query broadcasts along its line. */
  lemma LineBroadcast(lead: Shape, queries: nat, keys: nat, front: seq<nat>, i: nat, j: nat)
    requires InShape(lead, front) && i < queries && j < keys
    ensures LaneCoordinates(lead + [queries, 1], lead + [queries, keys], front + [i, j]) == (front + [i]) + [0]
    ensures InShape(lead + [queries, keys], front + [i, j]) && InShape(lead + [queries, 1], (front + [i]) + [0])
  {
  }

  lemma ShiftedMeans(run: Run, n: Term, lead: Shape, queries: nat, keys: nat, front: seq<nat>, i: nat, j: nat)
    requires Computes(run)
    requires InShape(lead, front) && i < queries && j < keys
    requires IsPlain(n, Binary(Sub), 2) && ShapeOf(n) == lead + [queries, keys] && n.op.info.dtype == F32 && ShapeOf(n.args[0]) == ShapeOf(n)
    requires IsPlain(n.args[1], MaxLast, 1) && n.args[1].args[0] == n.args[0] && ShapeOf(n.args[1]) == lead + [queries, 1]
    ensures At(Value(run, n), front + [i, j])
            == run.world.arithmetic.binary(Sub, F32, At(Value(run, n.args[0]), front + [i, j]),
                                   run.world.arithmetic.maximum(Line(Value(run, n.args[0]), front + [i], keys)))
  {
    LineBroadcast(lead, queries, keys, front, i, j);
    BinaryAt(run, n, Sub, front + [i, j]);
    OwnAt(Value(run, n.args[0]), ShapeOf(n), front + [i, j]);
    MaxAt(run, n.args[1], front + [i]);
  }

  lemma QuotientMeans(run: Run, n: Term, lead: Shape, queries: nat, keys: nat, front: seq<nat>, i: nat, j: nat)
    requires Computes(run)
    requires InShape(lead, front) && i < queries && j < keys
    requires IsPlain(n, Binary(Div), 2) && ShapeOf(n) == lead + [queries, keys] && n.op.info.dtype == F32 && ShapeOf(n.args[0]) == ShapeOf(n)
    requires IsPlain(n.args[1], SumLast, 1) && n.args[1].args[0] == n.args[0] && ShapeOf(n.args[1]) == lead + [queries, 1]
    requires n.args[1].op.info.dtype == F32
    ensures At(Value(run, n), front + [i, j])
            == run.world.arithmetic.binary(Div, F32, At(Value(run, n.args[0]), front + [i, j]),
                                   run.world.arithmetic.sum(F32, Line(Value(run, n.args[0]), front + [i], keys)))
  {
    LineBroadcast(lead, queries, keys, front, i, j);
    BinaryAt(run, n, Div, front + [i, j]);
    OwnAt(Value(run, n.args[0]), ShapeOf(n), front + [i, j]);
    SumAt(run, n.args[1], front + [i]);
  }

  /** The line of one query after the softmax. */
  lemma SoftmaxMeans(run: Run, scores: Term, lead: Shape, queries: nat, keys: nat, id: nat, front: seq<nat>, i: nat, floats: seq<real>)
    requires Computes(run)
    requires ShapeOf(scores) == lead + [queries, keys] && InShape(lead, front) && i < queries && |floats| == keys
    requires forall j :: 0 <= j < keys ==> floats[j] == run.world.arithmetic.cast(F32, At(Value(run, scores), front + [i, j]))
    ensures Line(Value(run, SoftmaxGraph(scores, lead, queries, id)), front + [i], keys) == Softmax(run.world, scores.op.info.dtype, floats)
  {
    var rounded := SoftmaxGraph(scores, lead, queries, id);
    var quotients := rounded.args[0];
    var exponentials := quotients.args[0];
    FloatLine(run, exponentials.args[0].args[0], scores, lead, queries, keys, front, i, floats);
    ExponentialLine(run, exponentials, lead, queries, keys, front, i, floats);
    var e := Exponentials(run.world, floats);
    forall j | 0 <= j < keys
      ensures Line(Value(run, rounded), front + [i], keys)[j] == Softmax(run.world, scores.op.info.dtype, floats)[j]
    {
      assert (front + [i]) + [j] == front + [i, j];
      LineBroadcast(lead, queries, keys, front, i, j);
      CastAt(run, rounded, front + [i, j]);
      QuotientMeans(run, quotients, lead, queries, keys, front, i, j);
      assert Line(Value(run, exponentials), front + [i], keys)[j] == e[j];
    }
  }

  lemma FloatLine(run: Run, float: Term, scores: Term, lead: Shape, queries: nat, keys: nat, front: seq<nat>, i: nat, floats: seq<real>)
    requires Computes(run)
    requires ShapeOf(scores) == lead + [queries, keys] && InShape(lead, front) && i < queries && |floats| == keys
    requires forall j :: 0 <= j < keys ==> floats[j] == run.world.arithmetic.cast(F32, At(Value(run, scores), front + [i, j]))
    requires IsPlain(float, Cast, 1) && float.args[0] == scores && ShapeOf(float) == ShapeOf(scores) && float.op.info.dtype == F32
    ensures Line(Value(run, float), front + [i], keys) == floats
  {
    forall j | 0 <= j < keys
      ensures At(Value(run, float), (front + [i]) + [j]) == floats[j]
    {
      assert (front + [i]) + [j] == front + [i, j];
      LineBroadcast(lead, queries, keys, front, i, j);
      CastAt(run, float, front + [i, j]);
    }
  }

  lemma ExponentialLine(run: Run, n: Term, lead: Shape, queries: nat, keys: nat, front: seq<nat>, i: nat, floats: seq<real>)
    requires Computes(run)
    requires InShape(lead, front) && i < queries
    requires IsPlain(n, Unary(Exp), 1) && ShapeOf(n) == lead + [queries, keys] && n.op.info.dtype == F32
    requires var shifted := n.args[0];
             && IsPlain(shifted, Binary(Sub), 2) && ShapeOf(shifted) == ShapeOf(n) && shifted.op.info.dtype == F32
             && ShapeOf(shifted.args[0]) == ShapeOf(n)
             && IsPlain(shifted.args[1], MaxLast, 1) && shifted.args[1].args[0] == shifted.args[0] && ShapeOf(shifted.args[1]) == lead + [queries, 1]
             && Line(Value(run, shifted.args[0]), front + [i], keys) == floats
    ensures Line(Value(run, n), front + [i], keys) == Exponentials(run.world, floats)
  {
    forall j | 0 <= j < keys
      ensures At(Value(run, n), (front + [i]) + [j]) == Exponentials(run.world, floats)[j]
    {
      assert (front + [i]) + [j] == front + [i, j];
      LineBroadcast(lead, queries, keys, front, i, j);
      UnaryAt(run, n, Exp, front + [i, j]);
      ShiftedMeans(run, n.args[0], lead, queries, keys, front, i, j);
      assert Line(Value(run, n.args[0].args[0]), front + [i], keys)[j] == floats[j];
    }
  }

  // ----- The whole attention

  function MaskedIf(causal: bool, scores: Term, queries: nat, keys: nat, window: AttentionWindow, id: nat): Term {
    if causal then Masked(scores, queries, keys, window, id) else scores
  }

  function MaskedIfNodes(causal: bool, window: AttentionWindow): nat {
    if causal then MaskedNodes(window) else 0
  }

  /** Scores up to the mask, all rounded to the operands' type. */
  function ScoreGraph(a: Configuration, q: Term, k: Term, id: nat): Term
    requires a.Attention?
  {
    var next := id + RawNodes(q, k);
    var scaled := Scaled(RawScores(q, k, id), a.scale, next);
    MaskedIf(a.causal, scaled, Back(ShapeOf(q), 2), Back(ShapeOf(k), 2), a.window, next + ScaledNodes(a.scale))
  }

  function ScoreNodes(a: Configuration, q: Term, k: Term): nat
    requires a.Attention?
  {
    RawNodes(q, k) + ScaledNodes(a.scale) + MaskedIfNodes(a.causal, a.window)
  }

  /** The plain operations that replace attention rounded step by step, numbered from `id` on. */
  function AttentionGraph(a: Configuration, q: Term, k: Term, v: Term, id: nat): Term
    requires a.Attention?
  {
    var lead, next := Front(ShapeOf(q), 2), id + ScoreNodes(a, q, k);
    var probabilities := SoftmaxGraph(ScoreGraph(a, q, k, id), lead, Back(ShapeOf(q), 2), next);
    var values := RepeatHeads(v, HeadsOf(ShapeOf(q)), next + 7);
    Make(Matmul, lead + [Back(ShapeOf(q), 2), Back(ShapeOf(v), 1)], q.op.info.dtype, q, next + 7 + RepeatNodes(v, HeadsOf(ShapeOf(q))),
         [probabilities, values])
  }

  function AttentionNodes(a: Configuration, q: Term, k: Term, v: Term): nat
    requires a.Attention?
  {
    ScoreNodes(a, q, k) + 8 + RepeatNodes(v, HeadsOf(ShapeOf(q)))
  }

  lemma FitsShares(q: Shape, k: Shape, v: Shape)
    requires AttentionFits(q, k, v)
    ensures SharesHeads(q, k) && SharesHeads(q, v)
    ensures forall front :: KeyFront(q, v, front) == KeyFront(q, k, front)
  {
    if |q| < 3 {
      assert Back(k, 3) == 0 && Back(v, 3) == 0;
    }
  }

  lemma ScoresHaveShape(a: Configuration, q: Term, k: Term, id: nat)
    requires a.Attention?
    ensures ShapeOf(ScoreGraph(a, q, k, id)) == ScoreShape(ShapeOf(q), ShapeOf(k)) && ScoreGraph(a, q, k, id).op.info.dtype == q.op.info.dtype
  {
  }

  lemma ScaledScoreMeans(run: Run, a: Configuration, q: Term, k: Term, v: Shape, id: nat, next: nat, front: seq<nat>, i: nat, j: nat)
    requires Computes(run)
    requires a.Attention? && AttentionFits(ShapeOf(q), ShapeOf(k), v)
    requires InShape(Front(ShapeOf(q), 2), front) && i < Back(ShapeOf(q), 2) && j < Back(ShapeOf(k), 2)
    ensures var scaled := Scaled(RawScores(q, k, id), a.scale, next);
            && ShapeOf(scaled) == Front(ShapeOf(q), 2) + [Back(ShapeOf(q), 2), Back(ShapeOf(k), 2)] && scaled.op.info.dtype == q.op.info.dtype
            && At(Value(run, scaled), front + [i, j])
               == ScaledScore(run.world, q.op.info.dtype, a.scale, RawScore(run.world, q.op.info.dtype, Value(run, q), Value(run, k), front, i, j))
  {
    FitsShares(ShapeOf(q), ShapeOf(k), v);
    RawScoresMean(run, q, k, id, front, i, j);
    InShapeConcat(Front(ShapeOf(q), 2), [Back(ShapeOf(q), 2), Back(ShapeOf(k), 2)], front, [i, j]);
    ScaledMeans(run, RawScores(q, k, id), a.scale, next, front + [i, j]);
  }

  lemma MaskedIfMeans(run: Run, causal: bool, scaled: Term, lead: Shape, queries: nat, keys: nat, window: AttentionWindow, id: nat,
                      front: seq<nat>, i: nat, j: nat)
    requires Computes(run)
    requires ShapeOf(scaled) == lead + [queries, keys] && InShape(lead, front) && i < queries && j < keys
    ensures var value := At(Value(run, scaled), front + [i, j]);
            At(Value(run, MaskedIf(causal, scaled, queries, keys, window, id)), front + [i, j])
            == if causal then MaskedScore(run.world, scaled.op.info.dtype, Visible(window, queries, keys, i, j), value) else value
  {
    if causal {
      MaskedMeans(run, scaled, lead, queries, keys, window, id, front, i, j);
    }
  }

  lemma ScoreIs(run: Run, a: Configuration, dtype: DType, q: Tensor, k: Tensor, front: seq<nat>, i: nat, j: nat, masked: real)
    requires Computes(run)
    requires a.Attention?
    requires var scaled := ScaledScore(run.world, dtype, a.scale, RawScore(run.world, dtype, q, k, front, i, j));
             masked == if a.causal then MaskedScore(run.world, dtype, Visible(a.window, Back(q.shape, 2), Back(k.shape, 2), i, j), scaled) else scaled
    ensures run.world.arithmetic.cast(F32, masked) == Score(run.world, a, dtype, q, k, front, i, j)
  {
  }

  lemma ScoreMeans(run: Run, a: Configuration, q: Term, k: Term, v: Shape, id: nat, front: seq<nat>, i: nat, j: nat)
    requires Computes(run)
    requires a.Attention? && AttentionFits(ShapeOf(q), ShapeOf(k), v)
    requires InShape(Front(ShapeOf(q), 2), front) && i < Back(ShapeOf(q), 2) && j < Back(ShapeOf(k), 2)
    ensures run.world.arithmetic.cast(F32, At(Value(run, ScoreGraph(a, q, k, id)), front + [i, j]))
            == Score(run.world, a, q.op.info.dtype, Value(run, q), Value(run, k), front, i, j)
  {
    var queries, keys, next := Back(ShapeOf(q), 2), Back(ShapeOf(k), 2), id + RawNodes(q, k);
    ScaledScoreMeans(run, a, q, k, v, id, next, front, i, j);
    MaskedIfMeans(run, a.causal, Scaled(RawScores(q, k, id), a.scale, next), Front(ShapeOf(q), 2), queries, keys, a.window,
                  next + ScaledNodes(a.scale), front, i, j);
    ScoreIs(run, a, q.op.info.dtype, Value(run, q), Value(run, k), front, i, j, At(Value(run, ScoreGraph(a, q, k, id)), front + [i, j]));
  }

  /** The probabilities of one query. */
  lemma ProbabilityLine(run: Run, a: Configuration, q: Term, k: Term, v: Shape, id: nat, next: nat, front: seq<nat>, i: nat)
    requires Computes(run)
    requires a.Attention? && AttentionFits(ShapeOf(q), ShapeOf(k), v)
    requires InShape(Front(ShapeOf(q), 2), front) && i < Back(ShapeOf(q), 2)
    ensures var (dtype, lead, keys) := (q.op.info.dtype, Front(ShapeOf(q), 2), Back(ShapeOf(k), 2));
            Line(Value(run, SoftmaxGraph(ScoreGraph(a, q, k, id), lead, Back(ShapeOf(q), 2), next)), front + [i], keys)
            == Softmax(run.world, dtype, Scores(run.world, a, dtype, Value(run, q), Value(run, k), front, i))
  {
    var (dtype, lead, keys) := (q.op.info.dtype, Front(ShapeOf(q), 2), Back(ShapeOf(k), 2));
    var floats := Scores(run.world, a, dtype, Value(run, q), Value(run, k), front, i);
    ScoresHaveShape(a, q, k, id);
    forall j | 0 <= j < keys
      ensures floats[j] == run.world.arithmetic.cast(F32, At(Value(run, ScoreGraph(a, q, k, id)), front + [i, j]))
    {
      ScoreMeans(run, a, q, k, v, id, front, i, j);
    }
    SoftmaxMeans(run, ScoreGraph(a, q, k, id), lead, Back(ShapeOf(q), 2), keys, next, front, i, floats);
  }

  lemma ValueColumn(run: Run, q: Shape, v: Term, id: nat, front: seq<nat>, d: nat)
    requires Computes(run)
    requires SharesHeads(q, ShapeOf(v)) && InShape(Front(q, 2), front) && d < Back(ShapeOf(v), 1)
    ensures var keys := Back(ShapeOf(v), 2);
            Column(Value(run, RepeatHeads(v, HeadsOf(q), id)), front, keys, d) == Column(Value(run, v), KeyFront(q, ShapeOf(v), front), keys, d)
  {
    forall j | 0 <= j < Back(ShapeOf(v), 2)
      ensures At(Value(run, RepeatHeads(v, HeadsOf(q), id)), front + [j, d]) == At(Value(run, v), KeyFront(q, ShapeOf(v), front) + [j, d])
    {
      RepeatedMeans(run, q, v, id, front, j, d);
    }
  }

  /** The last product, of probabilities and values. */
  lemma WeighedMeans(run: Run, n: Term, lead: Shape, queries: nat, keys: nat, width: nat, front: seq<nat>, i: nat, d: nat)
    requires Computes(run)
    requires IsPlain(n, Matmul, 2) && ShapeOf(n) == lead + [queries, width] && InShape(lead, front) && i < queries && d < width
    requires ShapeOf(n.args[0]) == lead + [queries, keys] && ShapeOf(n.args[1]) == lead + [keys, width]
    ensures At(Value(run, n), front + [i, d])
            == run.world.arithmetic.dot(n.op.info.dtype, Line(Value(run, n.args[0]), front + [i], keys),
                                        Column(Value(run, n.args[1]), front, keys, d))
  {
    FrontOfTwo(lead, queries, keys);
    FrontOfTwo(lead, keys, width);
    FrontOfTwo(lead, queries, width);
    MatmulAt(run, n, lead, front, i, d);
  }

  /** The last product with its operands. */
  lemma GraphEnds(a: Configuration, q: Term, k: Term, v: Term, id: nat)
    requires a.Attention? && AttentionFits(ShapeOf(q), ShapeOf(k), ShapeOf(v))
    ensures var (graph, lead, next) := (AttentionGraph(a, q, k, v, id), Front(ShapeOf(q), 2), id + ScoreNodes(a, q, k));
            && IsPlain(graph, Matmul, 2) && ShapeOf(graph) == lead + [Back(ShapeOf(q), 2), Back(ShapeOf(v), 1)]
            && graph.op.info.dtype == q.op.info.dtype
            && graph.args[0] == SoftmaxGraph(ScoreGraph(a, q, k, id), lead, Back(ShapeOf(q), 2), next)
            && graph.args[1] == RepeatHeads(v, HeadsOf(ShapeOf(q)), next + 7)
            && ShapeOf(graph.args[0]) == lead + [Back(ShapeOf(q), 2), Back(ShapeOf(k), 2)]
            && ShapeOf(graph.args[1]) == lead + [Back(ShapeOf(k), 2), Back(ShapeOf(v), 1)]
  {
    FitsShares(ShapeOf(q), ShapeOf(k), ShapeOf(v));
    ScoresHaveShape(a, q, k, id);
    RepeatedShape(ShapeOf(q), v, id + ScoreNodes(a, q, k) + 7);
  }

  /** The weights and values of the last product. */
  lemma GraphWeighs(run: Run, a: Configuration, q: Term, k: Term, v: Term, id: nat, front: seq<nat>, i: nat, d: nat)
    requires Computes(run)
    requires a.Attention? && AttentionFits(ShapeOf(q), ShapeOf(k), ShapeOf(v))
    requires InShape(Front(ShapeOf(q), 2), front) && i < Back(ShapeOf(q), 2) && d < Back(ShapeOf(v), 1)
    ensures var (next, keys, lead) := (id + ScoreNodes(a, q, k), Back(ShapeOf(k), 2), Front(ShapeOf(q), 2));
            At(Value(run, AttentionGraph(a, q, k, v, id)), front + [i, d])
            == run.world.arithmetic.dot(q.op.info.dtype,
                                        Line(Value(run, SoftmaxGraph(ScoreGraph(a, q, k, id), lead, Back(ShapeOf(q), 2), next)), front + [i], keys),
                                        Column(Value(run, RepeatHeads(v, HeadsOf(ShapeOf(q)), next + 7)), front, keys, d))
  {
    GraphEnds(a, q, k, v, id);
    WeighedMeans(run, AttentionGraph(a, q, k, v, id), Front(ShapeOf(q), 2), Back(ShapeOf(q), 2), Back(ShapeOf(k), 2),
                 Back(ShapeOf(v), 1), front, i, d);
  }

  /** Element by element the graph computes the attention. */
  lemma AttentionGraphMeans(run: Run, a: Configuration, q: Term, k: Term, v: Term, id: nat, front: seq<nat>, i: nat, d: nat)
    requires Computes(run)
    requires a.Attention? && AttentionFits(ShapeOf(q), ShapeOf(k), ShapeOf(v))
    requires InShape(Front(ShapeOf(q), 2), front) && i < Back(ShapeOf(q), 2) && d < Back(ShapeOf(v), 1)
    ensures At(Value(run, AttentionGraph(a, q, k, v, id)), front + [i, d])
            == StepwiseAttention(run.world, a, q.op.info.dtype, Value(run, q), Value(run, k), Value(run, v), front + [i, d])
  {
    var next := id + ScoreNodes(a, q, k);
    GraphWeighs(run, a, q, k, v, id, front, i, d);
    FitsShares(ShapeOf(q), ShapeOf(k), ShapeOf(v));
    ProbabilityLine(run, a, q, k, ShapeOf(v), id, next, front, i);
    ValueColumn(run, ShapeOf(q), v, next + 7, front, d);
    FrontOfTwo(front, i, d);
  }

  lemma FrontOfTwo(c: seq<nat>, a: nat, b: nat)
    ensures Front(c + [a, b], 2) == c && Back(c + [a, b], 2) == a && Back(c + [a, b], 1) == b
  {
  }
}
