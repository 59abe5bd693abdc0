/** Interpreting a prepared program over whole tensors: elementwise outputs and fused reductions. */
module FusionRun {
  import opened Wrappers
  import opened KernelExprs
  import opened FusionProgram
  import opened Arithmetic
  import opened Strides
  import opened Reduction

  /** The element of a lane read for output element `index`. */
  function LaneElement(strides: Option<seq<seq<nat>>>, shape: Shape, lane: nat, index: nat): nat
    requires strides.Some? ==> lane < |strides.value| && |strides.value[lane]| == |shape|
  {
    match strides
    case None => index
    case Some(all) => OffsetOf(index, shape, all[lane])
  }

  ghost predicate ValidStrides(strides: Option<seq<seq<nat>>>, lanes: nat, shape: Shape) {
    strides.Some? ==> |strides.value| == lanes && forall k :: 0 <= k < lanes ==> |strides.value[k]| == |shape|
  }

  /** Every lane element read for the first `n` outputs exists. */
  ghost predicate ReadsInBounds<T>(slices: seq<seq<T>>, strides: Option<seq<seq<nat>>>, shape: Shape, lanes: nat, n: nat)
    requires lanes <= |slices| && ValidStrides(strides, |slices|, shape)
  {
    forall lane: nat, index: nat :: lane < lanes && index < n ==> LaneElement(strides, shape, lane, index) < |slices[lane]|
  }

  /** The environment of output element `index`. */
  ghost function ElementEnv<T>(s: Scalars<T>, slices: seq<seq<T>>, strides: Option<seq<seq<nat>>>, scalars: seq<T>,
                               shape: Shape, index: nat): Env<T>
    requires ValidStrides(strides, |slices|, shape)
  {
    Env((lane: nat) => if lane < |slices| && LaneElement(strides, shape, lane, index) < |slices[lane]|
                       then slices[lane][LaneElement(strides, shape, lane, index)] else s.fromBits(0),
        (k: nat) => if k < |scalars| then scalars[k] else s.fromBits(0))
  }

  /** The environment the evaluator sees: cached lanes, and the scalar lanes. */
  function CachedEnv<T>(s: Scalars<T>, lanes: seq<T>, scalars: seq<T>): Env<T> {
    Env((lane: nat) => if lane < |lanes| then lanes[lane] else s.fromBits(0),
        (k: nat) => if k < |scalars| then scalars[k] else s.fromBits(0))
  }

  /** Meaning depends on the environment only through the lanes an expression reads. */
  lemma {:induction false} MeaningReadsLanes<T>(s: Scalars<T>, a: Env<T>, b: Env<T>, e: Expr)
    requires (forall k :: k in e.Lanes() ==> a.lane(k) == b.lane(k)) && (forall k :: a.scalar(k) == b.scalar(k))
    ensures Meaning(s, a, e) == Meaning(s, b, e)
  {
    match e
    case Leaf(_) =>
    case Unary(_, x) => MeaningReadsLanes(s, a, b, x);
    case Binary(_, x, y) => MeaningReadsLanes(s, a, b, x); MeaningReadsLanes(s, a, b, y);
    case Select(c, x, y) => MeaningReadsLanes(s, a, b, c); MeaningReadsLanes(s, a, b, x); MeaningReadsLanes(s, a, b, y);
  }

  /** The lanes of a compiled expression are below the program's input count. */
  lemma CompiledLanes(program: CpuFusionProgram, exprs: seq<Expr>, k: nat)
    requires Compiled(program, exprs) && k < |exprs|
    ensures forall lane :: lane in exprs[k].Lanes() ==> lane < program.inputCount
  {
    assert program.Plan(k) == Postorder(exprs[k]);
    forall lane | lane in exprs[k].Lanes()
      ensures lane < program.inputCount
    {
      LanesInPlan(exprs[k], lane);
      assert UsesLeaf(program.Plan(k), Input(lane)) && UsesLeaf(program.ops, Input(lane));
    }
  }

  /** Caches the lane values of one output element at the front of the scratch. */
  method CacheLanes<T>(program: CpuFusionProgram, slices: seq<seq<T>>, strides: Option<seq<seq<nat>>>, shape: Shape,
                       index: nat, n: nat, scratch: array<T>)
    requires program.inputCount <= |slices| && program.inputCount <= scratch.Length && index < n
    requires ValidStrides(strides, |slices|, shape) && ReadsInBounds(slices, strides, shape, program.inputCount, n)
    modifies scratch
    ensures forall lane: nat :: lane < program.inputCount ==> scratch[lane] == slices[lane][LaneElement(strides, shape, lane, index)]
  {
    for lane := 0 to program.inputCount
      invariant forall k: nat :: k < lane ==> scratch[k] == slices[k][LaneElement(strides, shape, k, index)]
    {
      var offset := index;
      if strides.Some? {
        offset := StridedOffset(index, shape, strides.value[lane]);
      }
      assert offset == LaneElement(strides, shape, lane, index);
      scratch[lane] := slices[lane][offset];
    }
  }

  /** Evaluates one output on the cached lanes; the cache survives. */
  method Evaluate<T>(s: Scalars<T>, program: CpuFusionProgram, ghost exprs: seq<Expr>, output: nat, scalars: seq<T>, scratch: array<T>)
    returns (r: T)
    requires Compiled(program, exprs) && output < |exprs| && program.ScratchElements() <= scratch.Length
    modifies scratch
    ensures r == Meaning(s, CachedEnv(s, old(scratch[..program.inputCount]), scalars), exprs[output])
    ensures scratch[..program.inputCount] == old(scratch[..program.inputCount])
  {
    var env := CachedEnv(s, scratch[..program.inputCount], scalars);
    r := EvalPlan(s, env, program.Plan(output), scratch, program.inputCount, exprs[output]);
  }

  lemma CachedMeaning<T>(s: Scalars<T>, program: CpuFusionProgram, exprs: seq<Expr>, slices: seq<seq<T>>, strides: Option<seq<seq<nat>>>,
                         scalars: seq<T>, shape: Shape, index: nat, n: nat, lanes: seq<T>, k: nat)
    requires Compiled(program, exprs) && k < |exprs| && program.inputCount <= |slices| && index < n
    requires ValidStrides(strides, |slices|, shape) && ReadsInBounds(slices, strides, shape, program.inputCount, n)
    requires |lanes| == program.inputCount
    requires forall lane: nat :: lane < |lanes| ==> lanes[lane] == slices[lane][LaneElement(strides, shape, lane, index)]
    ensures Meaning(s, CachedEnv(s, lanes, scalars), exprs[k])
            == Meaning(s, ElementEnv(s, slices, strides, scalars, shape, index), exprs[k])
  {
    CompiledLanes(program, exprs, k);
    MeaningReadsLanes(s, CachedEnv(s, lanes, scalars), ElementEnv(s, slices, strides, scalars, shape, index), exprs[k]);
  }

  /** Exclusive access: the output buffers and the scratch are different arrays. */
  ghost predicate Separate<T>(outputs: seq<array<T>>, scratch: array<T>) {
    && (forall i, j :: 0 <= i < j < |outputs| ==> outputs[i] != outputs[j])
    && (forall i :: 0 <= i < |outputs| ==> outputs[i] != scratch)
  }

  /** One output element of every plan. */
  method InterpretElement<T>(s: Scalars<T>, program: CpuFusionProgram, ghost exprs: seq<Expr>, slices: seq<seq<T>>,
                             strides: Option<seq<seq<nat>>>, scalars: seq<T>, n: nat, shape: Shape, index: nat,
                             outputs: seq<array<T>>, scratch: array<T>)
    requires Compiled(program, exprs) && |outputs| == program.OutputCount()
    requires program.inputCount <= |slices| && program.ScratchElements() <= scratch.Length && index < n
    requires ValidStrides(strides, |slices|, shape) && ReadsInBounds(slices, strides, shape, program.inputCount, n)
    requires (forall k :: 0 <= k < |outputs| ==> outputs[k].Length >= n) && Separate(outputs, scratch)
    modifies outputs, scratch
    ensures forall k :: 0 <= k < |outputs| ==>
              outputs[k][..] == old(outputs[k][..])[index := Meaning(s, ElementEnv(s, slices, strides, scalars, shape, index), exprs[k])]
  {
    CacheLanes(program, slices, strides, shape, index, n, scratch);
    ghost var lanes := scratch[..program.inputCount];
    for k := 0 to |outputs|
      invariant scratch[..program.inputCount] == lanes
      invariant forall j :: 0 <= j < k ==>
        outputs[j][..] == old(outputs[j][..])[index := Meaning(s, ElementEnv(s, slices, strides, scalars, shape, index), exprs[j])]
      invariant forall j :: k <= j < |outputs| ==> outputs[j][..] == old(outputs[j][..])
    {
      var value := Evaluate(s, program, exprs, k, scalars, scratch);
      CachedMeaning(s, program, exprs, slices, strides, scalars, shape, index, n, lanes, k);
      outputs[k][index] := value;
    }
  }

  /**
   * Every output element is the meaning of its expression on that element's lanes; elements from `n` on are
   * left alone.
   */
  method InterpretCoreInto<T>(s: Scalars<T>, program: CpuFusionProgram, ghost exprs: seq<Expr>, slices: seq<seq<T>>,
                              strides: Option<seq<seq<nat>>>, scalars: seq<T>, n: nat, shape: Shape,
                              outputs: seq<array<T>>, scratch: array<T>)
    requires Compiled(program, exprs) && |outputs| == program.OutputCount()
    requires program.inputCount <= |slices| && program.scalarCount <= |scalars| && program.ScratchElements() <= scratch.Length
    requires ValidStrides(strides, |slices|, shape) && ReadsInBounds(slices, strides, shape, program.inputCount, n)
    requires (forall k :: 0 <= k < |outputs| ==> outputs[k].Length >= n) && Separate(outputs, scratch)
    modifies outputs, scratch
    ensures forall k, i :: 0 <= k < |outputs| && 0 <= i < n ==>
              outputs[k][i] == Meaning(s, ElementEnv(s, slices, strides, scalars, shape, i), exprs[k])
    ensures forall k, i :: 0 <= k < |outputs| && n <= i < outputs[k].Length ==> outputs[k][i] == old(outputs[k][i])
  {
    for index := 0 to n
      invariant forall k, i :: 0 <= k < |outputs| && 0 <= i < index ==>
        outputs[k][i] == Meaning(s, ElementEnv(s, slices, strides, scalars, shape, i), exprs[k])
      invariant forall k, i :: 0 <= k < |outputs| && index <= i < outputs[k].Length ==> outputs[k][i] == old(outputs[k][i])
    {
      ghost var before := seq(|outputs|, k requires 0 <= k < |outputs| reads outputs => outputs[k][..]);
      InterpretElement(s, program, exprs, slices, strides, scalars, n, shape, index, outputs, scratch);
      assert forall k, i :: 0 <= k < |outputs| && 0 <= i < outputs[k].Length && i != index ==>
        outputs[k][i] == outputs[k][..][i] == before[k][i];
      assert forall k :: 0 <= k < |outputs| ==> outputs[k][index] == outputs[k][..][index];
    }
  }

  /** Lanes of shapes that broadcast into the output's, each with its own strides and all of its elements. */
  ghost predicate BroadcastLanes<T>(slices: seq<seq<T>>, lanes: seq<Shape>, strides: seq<seq<nat>>, shape: Shape) {
    && |slices| == |lanes| == |strides|
    && forall k :: 0 <= k < |lanes| ==>
         Broadcasts(lanes[k], shape) && AreLaneStrides(lanes[k], shape, 1, strides[k]) && |slices[k]| == Product(lanes[k])
  }

  lemma BroadcastReads<T>(slices: seq<seq<T>>, lanes: seq<Shape>, strides: seq<seq<nat>>, shape: Shape)
    requires BroadcastLanes(slices, lanes, strides, shape)
    ensures ValidStrides(Some(strides), |slices|, shape)
    ensures ReadsInBounds(slices, Some(strides), shape, |slices|, Product(shape))
    ensures forall lane: nat, index: nat | lane < |lanes| && index < Product(shape) ::
              LaneElement(Some(strides), shape, lane, index) == RowMajor(lanes[lane], LaneCoordinates(lanes[lane], shape, Coordinates(index, shape)))
  {
    forall lane: nat, index: nat | lane < |lanes| && index < Product(shape)
      ensures LaneElement(Some(strides), shape, lane, index) == RowMajor(lanes[lane], LaneCoordinates(lanes[lane], shape, Coordinates(index, shape)))
      ensures LaneElement(Some(strides), shape, lane, index) < |slices[lane]|
    {
      LaneReadsInBounds(lanes[lane], shape, strides[lane], index);
    }
  }

  /** The element of each lane at the right-aligned coordinates of an output element, unit dimensions pinned. */
  ghost function BroadcastEnv<T>(s: Scalars<T>, slices: seq<seq<T>>, lanes: seq<Shape>, strides: seq<seq<nat>>, scalars: seq<T>,
                                 shape: Shape, index: nat): Env<T>
    requires BroadcastLanes(slices, lanes, strides, shape) && index < Product(shape)
  {
    BroadcastReads(slices, lanes, strides, shape);
    Env((lane: nat) => if lane < |slices| then slices[lane][RowMajor(lanes[lane], LaneCoordinates(lanes[lane], shape, Coordinates(index, shape)))]
                       else s.fromBits(0),
        (k: nat) => if k < |scalars| then scalars[k] else s.fromBits(0))
  }

  /** With broadcast strides an output element is the meaning of its expression over broadcast lane elements. */
  lemma BroadcastMeaning<T>(s: Scalars<T>, slices: seq<seq<T>>, lanes: seq<Shape>, strides: seq<seq<nat>>, scalars: seq<T>, shape: Shape,
                            index: nat, e: Expr)
    requires BroadcastLanes(slices, lanes, strides, shape) && index < Product(shape)
    ensures ValidStrides(Some(strides), |slices|, shape) && ReadsInBounds(slices, Some(strides), shape, |slices|, Product(shape))
    ensures Meaning(s, ElementEnv(s, slices, Some(strides), scalars, shape, index), e)
            == Meaning(s, BroadcastEnv(s, slices, lanes, strides, scalars, shape, index), e)
  {
    BroadcastReads(slices, lanes, strides, shape);
    var a, b := ElementEnv(s, slices, Some(strides), scalars, shape, index), BroadcastEnv(s, slices, lanes, strides, scalars, shape, index);
    forall lane: nat
      ensures a.lane(lane) == b.lane(lane)
    {
      if lane < |slices| {
        LaneReadsInBounds(lanes[lane], shape, strides[lane], index);
      }
    }
    MeaningReadsLanes(s, a, b, e);
  }

  /** Contiguous lanes are read alike with and without strides. */
  lemma StridesAreOptional<T>(s: Scalars<T>, slices: seq<seq<T>>, strides: seq<seq<nat>>, scalars: seq<T>, shape: Shape, index: nat, e: Expr)
    requires ValidStrides(Some(strides), |slices|, shape) && index < Product(shape)
    requires forall k :: 0 <= k < |strides| ==> AreLaneStrides(shape, shape, 1, strides[k])
    ensures Meaning(s, ElementEnv(s, slices, Some(strides), scalars, shape, index), e)
            == Meaning(s, ElementEnv(s, slices, None, scalars, shape, index), e)
  {
    forall k: nat | k < |slices|
      ensures LaneElement(Some(strides), shape, k, index) == index
    {
      ContiguousIsIdentity(shape, strides[k], index);
    }
    MeaningReadsLanes(s, ElementEnv(s, slices, Some(strides), scalars, shape, index),
                      ElementEnv(s, slices, None, scalars, shape, index), e);
  }

  // ----- Fused reductions

  datatype ReduceOp = Sum | Mean | Maximum | Minimum | Prod

  const NEG_INFINITY: Bits := 0xFFF0_0000_0000_0000
  const INFINITY: Bits := 0x7FF0_0000_0000_0000

  function InitBits(op: ReduceOp): Bits {
    match op
    case Sum => 0
    case Mean => 0
    case Prod => ONE
    case Maximum => NEG_INFINITY
    case Minimum => INFINITY
  }

  function FoldOp(op: ReduceOp): BinaryOp {
    match op
    case Sum => Add
    case Mean => Add
    case Prod => Mul
    case Maximum => Max
    case Minimum => Min
  }

  /** The fold, in increasing input order, over the first `n` elements that belong to output cell `o`. */
  ghost function FoldFibre<T>(s: Scalars<T>, op: ReduceOp, value: nat -> T, shape: Shape, dims: set<nat>, o: nat, n: nat): T {
    if n == 0 then s.fromBits(InitBits(op))
    else
      var acc := FoldFibre(s, op, value, shape, dims, o, n - 1);
      if OutputIndex(n - 1, shape, dims) == o then s.arithmetic(FoldOp(op), acc, value(n - 1)) else acc
  }

  /** The product of the listed dimensions. */
  function ExtentOf(shape: Shape, dims: seq<nat>): nat
    requires forall i :: 0 <= i < |dims| ==> dims[i] < |shape|
  {
    if dims == [] then 1 else Times(ExtentOf(shape, dims[..|dims| - 1]), shape[dims[|dims| - 1]])
  }

  ghost predicate SortedDims(dims: seq<nat>, rank: nat) {
    && (forall i :: 0 <= i < |dims| ==> dims[i] < rank)
    && (forall i, j :: 0 <= i < j < |dims| ==> dims[i] < dims[j])
  }

  function DimSet(dims: seq<nat>): set<nat> {
    set d | d in dims
  }

  lemma {:induction false} ExtentIsReduced(shape: Shape, dims: seq<nat>)
    requires SortedDims(dims, |shape|)
    ensures ExtentOf(shape, dims) == ReducedExtent(shape, DimSet(dims))
    decreases |shape|
  {
    if shape == [] {
      assert dims == [];
    } else {
      var n := |shape| - 1;
      if dims != [] && dims[|dims| - 1] == n {
        var rest := dims[..|dims| - 1];
        assert dims == rest + [n];
        ExtentIsReduced(shape[..n], rest);
        ExtentPrefix(shape, rest, n);
        ReducedIgnores(shape[..n], DimSet(rest), DimSet(dims));
      } else {
        assert forall i :: 0 <= i < |dims| ==> dims[i] < n;
        ExtentIsReduced(shape[..n], dims);
        ExtentPrefix(shape, dims, n);
      }
    }
  }

  lemma {:induction false} ExtentPrefix(shape: Shape, dims: seq<nat>, n: nat)
    requires n <= |shape| && forall i :: 0 <= i < |dims| ==> dims[i] < n
    ensures ExtentOf(shape, dims) == ExtentOf(shape[..n], dims)
  {
    if dims != [] {
      ExtentPrefix(shape, dims[..|dims| - 1], n);
    }
  }

  lemma {:induction false} ReducedIgnores(shape: Shape, a: set<nat>, b: set<nat>)
    requires forall d :: 0 <= d < |shape| ==> (d in a <==> d in b)
    ensures ReducedExtent(shape, a) == ReducedExtent(shape, b)
  {
    if shape != [] {
      ReducedIgnores(shape[..|shape| - 1], a, b);
    }
  }

  /** The finished cell: a mean divides its fold by the reduced extent. */
  ghost function Finished<T>(s: Scalars<T>, fromCount: nat -> T, op: ReduceOp, shape: Shape, dims: set<nat>, folded: T): T {
    if op == Mean then s.arithmetic(Div, folded, fromCount(ReducedExtent(shape, dims))) else folded
  }

  /** The values a reduction folds, by flat input index. */
  ghost function ElementValues<T>(s: Scalars<T>, slices: seq<seq<T>>, strides: seq<seq<nat>>, shape: Shape, e: Expr): nat -> T
    requires ValidStrides(Some(strides), |slices|, shape)
  {
    (i: nat) => Meaning(s, ElementEnv(s, slices, Some(strides), [], shape, i), e)
  }

  /** Folds one input element into its output cell. */
  method ReduceElement<T>(s: Scalars<T>, op: ReduceOp, program: CpuFusionProgram, ghost e: Expr, slices: seq<seq<T>>,
                          strides: seq<seq<nat>>, shape: Shape, dims: seq<nat>, keepdims: bool, out: Shape,
                          output: array<T>, scratch: array<T>, index: nat)
    requires Compiled(program, [e]) && program.inputCount <= |slices| && program.ScratchElements() <= scratch.Length
    requires ValidStrides(Some(strides), |slices|, shape)
    requires ReadsInBounds(slices, Some(strides), shape, program.inputCount, Product(shape)) && index < Product(shape)
    requires out == ReducedShape(shape, DimSet(dims), keepdims) && output.Length == Product(out) && output != scratch
    modifies output, scratch
    ensures var cell := OutputIndex(index, shape, DimSet(dims));
            && cell < output.Length
            && output[..] == old(output[..])[cell := s.arithmetic(FoldOp(op), old(output[..])[cell],
                                                                   ElementValues(s, slices, strides, shape, e)(index))]
  {
    CacheLanes(program, slices, Some(strides), shape, index, Product(shape), scratch);
    ghost var lanes := scratch[..program.inputCount];
    var value := Evaluate(s, program, [e], 0, [], scratch);
    CachedMeaning(s, program, [e], slices, Some(strides), [], shape, index, Product(shape), lanes, 0);
    var cell := ReduceOutputOffset(index, shape, DimSet(dims), keepdims, out);
    OutputIndexIsRowMajor(index, shape, DimSet(dims), keepdims);
    output[cell] := s.arithmetic(FoldOp(op), output[cell], value);
  }

  method DivideBy<T>(s: Scalars<T>, output: array<T>, extent: T)
    modifies output
    ensures forall o :: 0 <= o < output.Length ==> output[o] == s.arithmetic(Div, old(output[o]), extent)
  {
    for o := 0 to output.Length
      invariant forall j :: 0 <= j < o ==> output[j] == s.arithmetic(Div, old(output[j]), extent)
      invariant forall j :: o <= j < output.Length ==> output[j] == old(output[j])
    {
      output[o] := s.arithmetic(Div, output[o], extent);
    }
  }

  /**
   * A fused reduction: every output cell is the fold, in input order, of the expression over exactly the input
   * elements that reduce to it.
   */
  method InterpretReduceCoreInto<T>(s: Scalars<T>, fromCount: nat -> T, op: ReduceOp, program: CpuFusionProgram, ghost e: Expr,
                                    slices: seq<seq<T>>, strides: seq<seq<nat>>, shape: Shape, dims: seq<nat>, keepdims: bool,
                                    out: Shape, output: array<T>, scratch: array<T>)
    requires Compiled(program, [e]) && program.scalarCount == 0
    requires program.inputCount <= |slices| && program.ScratchElements() <= scratch.Length
    requires ValidStrides(Some(strides), |slices|, shape)
    requires ReadsInBounds(slices, Some(strides), shape, program.inputCount, Product(shape))
    requires SortedDims(dims, |shape|) && out == ReducedShape(shape, DimSet(dims), keepdims)
    requires output.Length == Product(out) && output != scratch
    modifies output, scratch
    ensures forall o :: 0 <= o < output.Length ==>
              output[o] == Finished(s, fromCount, op, shape, DimSet(dims),
                                    FoldFibre(s, op, ElementValues(s, slices, strides, shape, e), shape, DimSet(dims), o, Product(shape)))
  {
    ghost var value := ElementValues(s, slices, strides, shape, e);
    var init := s.fromBits(InitBits(op));
    for o := 0 to output.Length
      invariant forall j :: 0 <= j < o ==> output[j] == init
    {
      output[o] := init;
    }
    var count := Product(shape);
    for index := 0 to count
      invariant forall o: nat :: o < output.Length ==> output[o] == FoldFibre(s, op, value, shape, DimSet(dims), o, index)
    {
      ghost var before := output[..];
      ReduceElement(s, op, program, e, slices, strides, shape, dims, keepdims, out, output, scratch, index);
      assert forall o: nat :: o < output.Length ==> output[o] == output[..][o];
      assert forall o: nat :: o < output.Length ==> before[o] == FoldFibre(s, op, value, shape, DimSet(dims), o, index);
    }
    if op == Mean {
      ExtentIsReduced(shape, dims);
      DivideBy(s, output, fromCount(ExtentOf(shape, dims)));
    }
  }
}
