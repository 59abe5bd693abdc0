/**
 * Graphs of tensor operations and what they compute. Arithmetic, with its rounding to an element type, is a parameter;
 * which elements each operation reads is not.
 */
module TensorGraph {
  import opened DTypes
  import opened NodeInfo
  import opened Wrappers
  import opened Dag
  import opened Arithmetic
  import opened Strides
  import opened Tensors

  datatype BinaryOp = Add | Sub | Mul | Div

  datatype UnaryOp = Neg | Exp | Cos | Sin

  datatype RotaryLayout = HalfSplit | InterleavedPairs

  datatype Kind =
    | Reshape
    | SwapLast
    | BroadcastTo
    | Concat(dim: nat)
    | Slice(ranges: seq<(nat, nat, nat)>)
    | Cast
    | Filled(value: real)
    | Arange(start: nat)
    | Binary(binary: BinaryOp)
    | Unary(unary: UnaryOp)
    | Compare(strict: bool)
    | Where
    | MaxLast
    | SumLast
    | Matmul
    | Sdpa(scale: real, causal: bool, window: AttentionWindow)
    | Other(tag: nat)

  /** Operations whose numerical semantics are configured, and which are to be replaced. */
  datatype Configuration =
    | Attention(scale: real, causal: bool, window: AttentionWindow, rounding: Rounding, layerId: Option<nat>, retention: AttentionWindow)
    | Rotary(layout: RotaryLayout)

  /** Sources take their value from outside, by identity; all other operations are determined by their operands. */
  datatype Op =
    | Source(tag: nat, info: Info)
    | Plain(kind: Kind, info: Info)
    | Configured(configuration: Configuration, info: Info)

  type Term = Node<Op>

  function ShapeOf(n: Term): Shape {
    n.op.info.shape
  }

  /** A plain operation on the device of another node. */
  function Make(kind: Kind, shape: Shape, dtype: DType, like: Term, id: nat, args: seq<Term>): Term {
    Node(id, Plain(kind, Info(shape, dtype, like.op.info.device)), args)
  }

  // ----- Arithmetic

  /** Arithmetic in an element type, and reductions over a line of elements. */
  datatype Arithmetics = Arithmetics(
    binary: (BinaryOp, DType, real, real) -> real, unary: (UnaryOp, DType, real) -> real, cast: (DType, real) -> real,
    dot: (DType, seq<real>, seq<real>) -> real, maximum: seq<real> -> real, sum: (DType, seq<real>) -> real)

  /** A run: values of sources and of operations that are not modelled, and the arithmetic. */
  datatype World = World(source: (nat, Op, seq<nat>) -> real, other: (Op, seq<Tensor>, seq<nat>) -> real, arithmetic: Arithmetics)

  /** Integer sums, differences and products are exact. */
  ghost function Combine(w: World, op: BinaryOp, dtype: DType, a: real, b: real): real {
    if dtype.IsFloat() || op.Div? then w.arithmetic.binary(op, dtype, a, b)
    else
      match op
      case Add => a + b
      case Sub => a - b
      case Mul => a * b
  }

  ghost function Constant(w: World, dtype: DType, value: real): real {
    if dtype.IsFloat() then w.arithmetic.cast(dtype, value) else value
  }

  function Truth(b: bool): real {
    if b then 1.0 else 0.0
  }

  // ----- What an operation computes

  /** The element of a broadcast operand. */
  ghost function Broadcasted(t: Tensor, shape: Shape, c: seq<nat>): real {
    if |t.shape| <= |shape| == |c| then At(t, LaneCoordinates(t.shape, shape, c)) else 0.0
  }

  /** A line of elements along the last dimension, at the coordinates before it. */
  ghost function Line(t: Tensor, before: seq<nat>, width: nat): seq<real> {
    seq(width, j requires 0 <= j < width => At(t, before + [j]))
  }

  /** A line along the last but one dimension. */
  ghost function Column(t: Tensor, before: seq<nat>, height: nat, column: nat): seq<real> {
    seq(height, i requires 0 <= i < height => At(t, before + [i, column]))
  }

  function Front(c: seq<nat>, n: nat): seq<nat> {
    if n <= |c| then c[..|c| - n] else []
  }

  function Back(c: seq<nat>, n: nat): nat
    requires n > 0
  {
    if n <= |c| then c[|c| - n] else 0
  }

  /** Leading dimensions of a matrix operand as the product sees them. */
  ghost function MatrixFront(t: Tensor, shape: Shape, c: seq<nat>): seq<nat> {
    if |Front(t.shape, 2)| <= |Front(shape, 2)| == |Front(c, 2)| then LaneCoordinates(Front(t.shape, 2), Front(shape, 2), Front(c, 2)) else []
  }

  ghost function Product2(w: World, dtype: DType, a: Tensor, b: Tensor, shape: Shape, c: seq<nat>): real {
    var inner := Back(a.shape, 1);
    w.arithmetic.dot(dtype, Line(a, MatrixFront(a, shape, c) + [Back(c, 2)], inner), Column(b, MatrixFront(b, shape, c), inner, Back(c, 1)))
  }

  function Swapped(c: seq<nat>): seq<nat> {
    if |c| < 2 then c else Front(c, 2) + [Back(c, 1), Back(c, 2)]
  }

  function SliceCoordinates(ranges: seq<(nat, nat, nat)>, c: seq<nat>): seq<nat> {
    seq(|c|, k requires 0 <= k < |c| => if k < |ranges| then ranges[k].0 + c[k] * ranges[k].2 else c[k])
  }

  /** An element of the two operands one after the other along a dimension. */
  ghost function Joined(a: Tensor, b: Tensor, dim: nat, c: seq<nat>): real {
    if dim >= |c| || dim >= |a.shape| then 0.0
    else if c[dim] < a.shape[dim] then At(a, c)
    else At(b, c[dim := c[dim] - a.shape[dim]])
  }

  /** What a plain operation has at some coordinates. */
  ghost function PlainElement(w: World, op: Op, args: seq<Tensor>, c: seq<nat>): real
    requires op.Plain?
  {
    var dtype, shape := op.info.dtype, op.info.shape;
    match op.kind
    case Reshape => if |args| == 1 && |c| == |shape| then At(args[0], Coordinates(RowMajor(shape, c), args[0].shape)) else 0.0
    case SwapLast => if |args| == 1 then At(args[0], Swapped(c)) else 0.0
    case BroadcastTo => if |args| == 1 then Broadcasted(args[0], shape, c) else 0.0
    case Concat(dim) => if |args| == 2 then Joined(args[0], args[1], dim, c) else 0.0
    case Slice(ranges) => if |args| == 1 then At(args[0], SliceCoordinates(ranges, c)) else 0.0
    case Cast => if |args| == 1 then w.arithmetic.cast(dtype, At(args[0], c)) else 0.0
    case Filled(value) => Constant(w, dtype, value)
    case Arange(start) => if |c| == 1 then (start + c[0]) as real else 0.0
    case Binary(binary) =>
      if |args| == 2 then Combine(w, binary, dtype, Broadcasted(args[0], shape, c), Broadcasted(args[1], shape, c)) else 0.0
    case Unary(unary) => if |args| == 1 then w.arithmetic.unary(unary, dtype, At(args[0], c)) else 0.0
    case Compare(strict) =>
      if |args| != 2 then 0.0
      else
        var a, b := Broadcasted(args[0], shape, c), Broadcasted(args[1], shape, c);
        Truth(if strict then a < b else a <= b)
    case Where =>
      if |args| != 3 then 0.0
      else Broadcasted(if Broadcasted(args[0], shape, c) != 0.0 then args[1] else args[2], shape, c)
    case MaxLast => if |args| == 1 then w.arithmetic.maximum(Line(args[0], Front(c, 1), Back(args[0].shape, 1))) else 0.0
    case SumLast => if |args| == 1 then w.arithmetic.sum(dtype, Line(args[0], Front(c, 1), Back(args[0].shape, 1))) else 0.0
    case Matmul => if |args| == 2 then Product2(w, dtype, args[0], args[1], shape, c) else 0.0
    case _ => w.other(op, args, c)
  }

  // ----- What a configured operation computes

  /** The leading coordinates of the key and value rows a query reads: query heads share key heads in groups. */
  function KeyFront(q: Shape, k: Shape, front: seq<nat>): seq<nat> {
    var group := if Back(k, 3) == 0 then 0 else Back(q, 3) / Back(k, 3);
    if front == [] || group == 0 then front else Front(front, 1) + [Back(front, 1) / group]
  }

  /** Queries stand at the end of the keys and see no later ones, nor those a local window away. */
  predicate Visible(window: AttentionWindow, queries: nat, keys: nat, i: nat, j: nat) {
    var at := i + if keys > queries then keys - queries else 0;
    j <= at && (window.Local? ==> at < j + window.size)
  }

  /** The least finite value of an element type, which masks a score. */
  function Minimum(dtype: DType): real {
    match dtype
    case BF16 => -338953138925153547590470800371487866880.0
    case F16 => -65504.0
    case _ => -340282346638528859811704183484516925440.0
  }

  /** The product of a query row and a key row. */
  ghost function RawScore(w: World, dtype: DType, q: Tensor, k: Tensor, front: seq<nat>, i: nat, j: nat): real {
    var width := Back(q.shape, 1);
    w.arithmetic.dot(dtype, Line(q, front + [i], width), Line(k, KeyFront(q.shape, k.shape, front) + [j], width))
  }

  /** Scaling happens in F32 and is rounded back; a scale of one does nothing. */
  ghost function ScaledScore(w: World, dtype: DType, scale: real, raw: real): real {
    if scale == 1.0 then raw
    else w.arithmetic.cast(dtype, w.arithmetic.binary(Mul, F32, w.arithmetic.cast(F32, raw), w.arithmetic.cast(F32, scale)))
  }

  /** Adds zero to a visible score and the least finite value to a hidden one. */
  ghost function MaskedScore(w: World, dtype: DType, visible: bool, scaled: real): real {
    Combine(w, Add, dtype, scaled, Constant(w, dtype, if visible then 0.0 else Minimum(dtype)))
  }

  /** The score of a query row against a key row, rounded after product, scaling and mask. */
  ghost function Score(w: World, a: Configuration, dtype: DType, q: Tensor, k: Tensor, front: seq<nat>, i: nat, j: nat): real
    requires a.Attention?
  {
    var scaled := ScaledScore(w, dtype, a.scale, RawScore(w, dtype, q, k, front, i, j));
    var visible := Visible(a.window, Back(q.shape, 2), Back(k.shape, 2), i, j);
    w.arithmetic.cast(F32, if a.causal then MaskedScore(w, dtype, visible, scaled) else scaled)
  }

  ghost function Scores(w: World, a: Configuration, dtype: DType, q: Tensor, k: Tensor, front: seq<nat>, i: nat): (r: seq<real>)
    requires a.Attention?
    ensures |r| == Back(k.shape, 2)
  {
    seq(Back(k.shape, 2), j requires 0 <= j < Back(k.shape, 2) => Score(w, a, dtype, q, k, front, i, j))
  }

  ghost function Exponentials(w: World, scores: seq<real>): (r: seq<real>)
    ensures |r| == |scores|
  {
    var most := w.arithmetic.maximum(scores);
    seq(|scores|, j requires 0 <= j < |scores| => w.arithmetic.unary(Exp, F32, w.arithmetic.binary(Sub, F32, scores[j], most)))
  }

  /** Softmax in F32, rounded to the element type. */
  ghost function Softmax(w: World, dtype: DType, scores: seq<real>): (r: seq<real>)
    ensures |r| == |scores|
  {
    var e := Exponentials(w, scores);
    var total := w.arithmetic.sum(F32, e);
    seq(|e|, j requires 0 <= j < |e| => w.arithmetic.cast(dtype, w.arithmetic.binary(Div, F32, e[j], total)))
  }

  /** Attention rounded step by step: the softmax of a query's scores weighs the value rows. */
  ghost function StepwiseAttention(w: World, a: Configuration, dtype: DType, q: Tensor, k: Tensor, v: Tensor, c: seq<nat>): real
    requires a.Attention?
  {
    var front, i, d := Front(c, 2), Back(c, 2), Back(c, 1);
    w.arithmetic.dot(dtype, Softmax(w, dtype, Scores(w, a, dtype, q, k, front, i)), Column(v, KeyFront(q.shape, k.shape, front), Back(k.shape, 2), d))
  }

  /** The other element of the pair that `j` belongs to. */
  function Partner(layout: RotaryLayout, width: nat, j: nat): nat {
    match layout
    case HalfSplit => if j < width / 2 then j + width / 2 else j - width / 2
    case InterleavedPairs => if j % 2 == 0 then j + 1 else j - 1
  }

  /** Whether `j` is the first element of its pair. */
  predicate IsFirst(layout: RotaryLayout, width: nat, j: nat) {
    match layout
    case HalfSplit => j < width / 2
    case InterleavedPairs => j % 2 == 0
  }

  function PairOf(layout: RotaryLayout, width: nat, j: nat): nat {
    match layout
    case HalfSplit => if j < width / 2 then j else j - width / 2
    case InterleavedPairs => j / 2
  }

  /** The position of a row: positions have the batch dimensions of the input, some of them one, and the token dimension. */
  ghost function PositionAt(x: Shape, positions: Tensor, c: seq<nat>): real {
    Broadcasted(positions, Front(x, 3) + [Back(x, 2)], Front(c, 3) + [Back(c, 2)])
  }

  /** Rotation of pairs by position times frequency; angles in F32, everything else rounded to the element type. */
  ghost function RotaryElement(w: World, layout: RotaryLayout, dtype: DType, x: Tensor, positions: Tensor, frequencies: Tensor, c: seq<nat>): real {
    var j, width := Back(c, 1), Back(x.shape, 1);
    var frequency := At(frequencies, [PairOf(layout, width, j)]);
    var angle := w.arithmetic.binary(Mul, F32, w.arithmetic.cast(F32, PositionAt(x.shape, positions, c)), w.arithmetic.cast(F32, frequency));
    var cosine := w.arithmetic.cast(dtype, w.arithmetic.unary(Cos, F32, angle));
    var sine := w.arithmetic.cast(dtype, w.arithmetic.unary(Sin, F32, angle));
    var other := At(x, Front(c, 1) + [Partner(layout, width, j)]);
    var turned := if IsFirst(layout, width, j) then w.arithmetic.unary(Neg, dtype, other) else other;
    Combine(w, Add, dtype, Combine(w, Mul, dtype, At(x, c), cosine), Combine(w, Mul, dtype, turned, sine))
  }

  ghost function ConfiguredElement(w: World, op: Op, args: seq<Tensor>, c: seq<nat>): real
    requires op.Configured?
  {
    if |args| != 3 then 0.0
    else
      match op.configuration
      case Attention(scale, causal, window, rounding, _, _) =>
        if rounding.Fused? then PlainElement(w, Plain(Sdpa(scale, causal, window), op.info), args, c)
        else StepwiseAttention(w, op.configuration, op.info.dtype, args[0], args[1], args[2], c)
      case Rotary(layout) => RotaryElement(w, layout, op.info.dtype, args[0], args[1], args[2], c)
  }

  // ----- Meaning

  ghost function Element(w: World, id: nat, op: Op, args: seq<Tensor>, c: seq<nat>): real {
    match op
    case Source(_, _) => w.source(id, op, c)
    case Plain(_, _) => PlainElement(w, op, args, c)
    case Configured(_, _) => ConfiguredElement(w, op, args, c)
  }

  /** The value of a node, of the shape it declares. */
  ghost function Meaning(w: World, n: Term): (t: Tensor)
    ensures t.Valid() && t.shape == ShapeOf(n)
    decreases n, 1
  {
    var args := Operands(w, n);
    Tabulate(ShapeOf(n), (c: seq<nat>) => Element(w, n.id, n.op, args, c))
  }

  ghost function Operands(w: World, n: Term): (args: seq<Tensor>)
    ensures |args| == |n.args|
    decreases n, 0
  {
    seq(|n.args|, k requires 0 <= k < |n.args| => Meaning(w, n.args[k]))
  }

  /** Equal operations on operands of equal value have equal values. */
  lemma MeaningsAgree(w: World, n: Term, m: Term)
    requires n.op == m.op && |n.args| == |m.args| && (n.op.Source? ==> n.id == m.id)
    requires forall k :: 0 <= k < |n.args| ==> Meaning(w, n.args[k]) == Meaning(w, m.args[k])
    ensures Meaning(w, n) == Meaning(w, m)
  {
    var a, b := Operands(w, n), Operands(w, m);
    assert a == b;
    forall c | InShape(ShapeOf(n), c)
      ensures At(Meaning(w, n), c) == At(Meaning(w, m), c)
    {
      AtTabulate(ShapeOf(n), (x: seq<nat>) => Element(w, n.id, n.op, a, x), c);
      AtTabulate(ShapeOf(m), (x: seq<nat>) => Element(w, m.id, m.op, b, x), c);
    }
    SameTensor(Meaning(w, n), Meaning(w, m));
  }

  /** A run together with the value it gives every node. */
  datatype Run = Run(world: World, values: Term -> Tensor)

  ghost function ValuesOf(run: Run, nodes: seq<Term>): seq<Tensor> {
    seq(|nodes|, k requires 0 <= k < |nodes| => run.values(nodes[k]))
  }

  ghost predicate Consistent(run: Run, n: Term) {
    && run.values(n).Valid() && run.values(n).shape == ShapeOf(n)
    && forall c :: InShape(ShapeOf(n), c) ==> At(run.values(n), c) == Element(run.world, n.id, n.op, ValuesOf(run, n.args), c)
  }

  /** Every node has the elements its operation computes from the values of its operands. */
  ghost predicate Computes(run: Run) {
    forall n :: Consistent(run, n)
  }

  ghost function Value(run: Run, n: Term): (t: Tensor)
    requires Computes(run)
    ensures t.Valid() && t.shape == ShapeOf(n)
  {
    assert Consistent(run, n);
    run.values(n)
  }

  ghost function RunOf(w: World): Run {
    Run(w, (n: Term) => Meaning(w, n))
  }

  lemma MeaningComputes(w: World)
    ensures Computes(RunOf(w))
    ensures forall n :: RunOf(w).values(n) == Meaning(w, n)
  {
    forall n
      ensures Consistent(RunOf(w), n)
    {
      var args := Operands(w, n);
      assert args == ValuesOf(RunOf(w), n.args);
      forall c | InShape(ShapeOf(n), c)
        ensures At(Meaning(w, n), c) == Element(w, n.id, n.op, args, c)
      {
        AtTabulate(ShapeOf(n), (x: seq<nat>) => Element(w, n.id, n.op, args, x), c);
      }
    }
  }

  lemma ValueAt(run: Run, n: Term, c: seq<nat>)
    requires Computes(run) && InShape(ShapeOf(n), c)
    ensures At(Value(run, n), c) == Element(run.world, n.id, n.op, ValuesOf(run, n.args), c)
    ensures forall k :: 0 <= k < |n.args| ==> ValuesOf(run, n.args)[k] == Value(run, n.args[k])
  {
    assert Consistent(run, n);
  }

  // ----- One operation at a time

  /** An operand of the result's own shape is read where it is. */
  lemma OwnAt(t: Tensor, shape: Shape, c: seq<nat>)
    requires t.shape == shape && InShape(shape, c)
    ensures Broadcasted(t, shape, c) == At(t, c)
  {
    assert LaneCoordinates(shape, shape, c) == c;
  }

  ghost predicate IsPlain(n: Term, kind: Kind, arity: nat) {
    n.op.Plain? && n.op.kind == kind && |n.args| == arity
  }

  /** A reshape reads the element at the same place. */
  lemma ReshapeAt(run: Run, n: Term, c: seq<nat>, d: seq<nat>)
    requires Computes(run)
    requires IsPlain(n, Reshape, 1) && InShape(ShapeOf(n), c) && InShape(ShapeOf(n.args[0]), d)
    requires RowMajor(ShapeOf(n), c) == RowMajor(ShapeOf(n.args[0]), d)
    ensures At(Value(run, n), c) == At(Value(run, n.args[0]), d)
  {
    ValueAt(run, n, c);
    RowMajorInverts(ShapeOf(n.args[0]), d);
  }

  lemma SwapAt(run: Run, n: Term, front: seq<nat>, i: nat, j: nat)
    requires Computes(run)
    requires IsPlain(n, SwapLast, 1) && InShape(ShapeOf(n), front + [i, j])
    ensures At(Value(run, n), front + [i, j]) == At(Value(run, n.args[0]), front + [j, i])
  {
    ValueAt(run, n, front + [i, j]);
    assert Front(front + [i, j], 2) == front;
  }

  lemma BroadcastAt(run: Run, n: Term, c: seq<nat>)
    requires Computes(run)
    requires IsPlain(n, BroadcastTo, 1) && InShape(ShapeOf(n), c)
    ensures At(Value(run, n), c) == Broadcasted(Value(run, n.args[0]), ShapeOf(n), c)
  {
    ValueAt(run, n, c);
  }

  lemma ConcatAt(run: Run, n: Term, dim: nat, c: seq<nat>)
    requires Computes(run)
    requires IsPlain(n, Concat(dim), 2) && InShape(ShapeOf(n), c)
    ensures At(Value(run, n), c) == Joined(Value(run, n.args[0]), Value(run, n.args[1]), dim, c)
  {
    ValueAt(run, n, c);
  }

  lemma SliceAt(run: Run, n: Term, ranges: seq<(nat, nat, nat)>, c: seq<nat>)
    requires Computes(run)
    requires IsPlain(n, Slice(ranges), 1) && InShape(ShapeOf(n), c)
    ensures At(Value(run, n), c) == At(Value(run, n.args[0]), SliceCoordinates(ranges, c))
  {
    ValueAt(run, n, c);
  }

  lemma CastAt(run: Run, n: Term, c: seq<nat>)
    requires Computes(run)
    requires IsPlain(n, Cast, 1) && InShape(ShapeOf(n), c)
    ensures At(Value(run, n), c) == run.world.arithmetic.cast(n.op.info.dtype, At(Value(run, n.args[0]), c))
  {
    ValueAt(run, n, c);
  }

  /** A scalar constant broadcasts to itself. */
  lemma FilledAt(run: Run, n: Term, value: real, shape: Shape, c: seq<nat>)
    requires Computes(run)
    requires IsPlain(n, Filled(value), 0) && ShapeOf(n) == [] && |c| == |shape|
    ensures Broadcasted(Value(run, n), shape, c) == Constant(run.world, n.op.info.dtype, value)
  {
    ValueAt(run, n, []);
  }

  lemma ArangeAt(run: Run, n: Term, start: nat, i: nat)
    requires Computes(run)
    requires IsPlain(n, Arange(start), 0) && InShape(ShapeOf(n), [i])
    ensures At(Value(run, n), [i]) == (start + i) as real
  {
    ValueAt(run, n, [i]);
  }

  lemma BinaryAt(run: Run, n: Term, binary: BinaryOp, c: seq<nat>)
    requires Computes(run)
    requires IsPlain(n, Binary(binary), 2) && InShape(ShapeOf(n), c)
    ensures At(Value(run, n), c) == Combine(run.world, binary, n.op.info.dtype, Broadcasted(Value(run, n.args[0]), ShapeOf(n), c),
                                            Broadcasted(Value(run, n.args[1]), ShapeOf(n), c))
  {
    ValueAt(run, n, c);
  }

  lemma UnaryAt(run: Run, n: Term, unary: UnaryOp, c: seq<nat>)
    requires Computes(run)
    requires IsPlain(n, Unary(unary), 1) && InShape(ShapeOf(n), c)
    ensures At(Value(run, n), c) == run.world.arithmetic.unary(unary, n.op.info.dtype, At(Value(run, n.args[0]), c))
  {
    ValueAt(run, n, c);
  }

  lemma CompareAt(run: Run, n: Term, strict: bool, c: seq<nat>)
    requires Computes(run)
    requires IsPlain(n, Compare(strict), 2) && InShape(ShapeOf(n), c)
    ensures var (a, b) := (Broadcasted(Value(run, n.args[0]), ShapeOf(n), c), Broadcasted(Value(run, n.args[1]), ShapeOf(n), c));
            At(Value(run, n), c) == Truth(if strict then a < b else a <= b)
  {
    ValueAt(run, n, c);
  }

  lemma WhereAt(run: Run, n: Term, c: seq<nat>)
    requires Computes(run)
    requires IsPlain(n, Where, 3) && InShape(ShapeOf(n), c)
    ensures var condition := Broadcasted(Value(run, n.args[0]), ShapeOf(n), c);
            At(Value(run, n), c) == Broadcasted(Value(run, n.args[if condition != 0.0 then 1 else 2]), ShapeOf(n), c)
  {
    ValueAt(run, n, c);
  }

  /** Reductions of the line that ends at the last dimension. */
  lemma MaxAt(run: Run, n: Term, front: seq<nat>)
    requires Computes(run)
    requires IsPlain(n, MaxLast, 1) && InShape(ShapeOf(n), front + [0])
    ensures At(Value(run, n), front + [0]) == run.world.arithmetic.maximum(Line(Value(run, n.args[0]), front, Back(ShapeOf(n.args[0]), 1)))
  {
    ValueAt(run, n, front + [0]);
    assert Front(front + [0], 1) == front;
  }

  lemma SumAt(run: Run, n: Term, front: seq<nat>)
    requires Computes(run)
    requires IsPlain(n, SumLast, 1) && InShape(ShapeOf(n), front + [0])
    ensures At(Value(run, n), front + [0]) == run.world.arithmetic.sum(n.op.info.dtype,
                                                                                  Line(Value(run, n.args[0]), front, Back(ShapeOf(n.args[0]), 1)))
  {
    ValueAt(run, n, front + [0]);
    assert Front(front + [0], 1) == front;
  }

  /** A product of matrices with the same leading dimensions. */
  lemma MatmulAt(run: Run, n: Term, lead: Shape, front: seq<nat>, i: nat, j: nat)
    requires Computes(run)
    requires IsPlain(n, Matmul, 2) && InShape(ShapeOf(n), front + [i, j]) && |lead| == |front|
    requires |ShapeOf(n.args[0])| == |ShapeOf(n.args[1])| == |lead| + 2
    requires Front(ShapeOf(n), 2) == Front(ShapeOf(n.args[0]), 2) == Front(ShapeOf(n.args[1]), 2) == lead
    ensures var (a, b, inner) := (Value(run, n.args[0]), Value(run, n.args[1]), Back(ShapeOf(n.args[0]), 1));
            At(Value(run, n), front + [i, j]) == run.world.arithmetic.dot(n.op.info.dtype, Line(a, front + [i], inner), Column(b, front, inner, j))
  {
    var c := front + [i, j];
    ValueAt(run, n, c);
    assert Front(c, 2) == front;
    assert InShape(lead, front) by {
      assert ShapeOf(n)[..|lead|] == lead;
      forall k | 0 <= k < |lead|
        ensures front[k] < lead[k]
      {
        assert c[k] < ShapeOf(n)[k];
      }
    }
    assert LaneCoordinates(lead, lead, front) == front;
  }
}
