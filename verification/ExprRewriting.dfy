/** Iterative rewriting of kernel expressions: cloning, lane merging and execution legalization. */
module ExprRewriting {
  import opened DTypes
  import opened Sequences
  import opened Wrappers
  import opened KernelExprs

  datatype RewriteError =
    | AbsentOperation(node: nat)
    | NoResult(node: nat)
    | WrongDtype(node: nat)

  /** How a node is rebuilt from its rewritten children. */
  type Combine = (Expr, seq<Expr>) -> Result<Expr, RewriteError>

  /** The recursive left-to-right rewriting the worklists implement. */
  function Fold(e: Expr, combine: Combine): Result<Expr, RewriteError> {
    match e
    case Leaf(_) => combine(e, [])
    case Unary(_, x) =>
      var x' :- Fold(x, combine);
      combine(e, [x'])
    case Binary(_, x, y) =>
      var x' :- Fold(x, combine);
      var y' :- Fold(y, combine);
      combine(e, [x', y'])
    case Select(c, x, y) =>
      var c' :- Fold(c, combine);
      var x' :- Fold(x, combine);
      var y' :- Fold(y, combine);
      combine(e, [c', x', y'])
  }

  // ----- The worklist machine

  /** With `h` values on the output stack, no pending node finds too few operands. */
  ghost predicate Feasible(stack: seq<Work>, h: nat) {
    if stack == [] then true
    else
      var (e, processed) := stack[|stack| - 1];
      var n := |e.Children()|;
      if processed then h >= n && Feasible(stack[..|stack| - 1], h - n + 1) else Feasible(stack[..|stack| - 1], h + 1)
  }

  /** The outputs left when the worklist has been emptied. */
  ghost function Finish(stack: seq<Work>, out: seq<Expr>, combine: Combine): Result<seq<Expr>, RewriteError>
    requires Feasible(stack, |out|)
  {
    if stack == [] then Success(out)
    else
      var (e, processed) := stack[|stack| - 1];
      var rest := stack[..|stack| - 1];
      var keep := |out| - |e.Children()|;
      var r := if processed then combine(e, out[keep..]) else Fold(e, combine);
      if r.Failure? then Failure(r.error)
      else Finish(rest, (if processed then out[..keep] else out) + [r.value], combine)
  }

  /** The outcome once the node on top has produced `r`. */
  ghost function Continue(r: Result<Expr, RewriteError>, stack: seq<Work>, out: seq<Expr>, combine: Combine): Result<seq<Expr>, RewriteError>
    requires Feasible(stack, |out| + 1)
  {
    if r.Failure? then Failure(r.error) else Finish(stack, out + [r.value], combine)
  }

  lemma FinishPush(stack: seq<Work>, e: Expr, out: seq<Expr>, combine: Combine)
    requires Feasible(stack, |out| + 1)
    ensures Feasible(stack + [(e, false)], |out|)
    ensures Finish(stack + [(e, false)], out, combine)
            == Continue(Fold(e, combine), stack, out, combine)
  {
    assert (stack + [(e, false)])[..|stack|] == stack;
  }

  lemma FinishMarked(stack: seq<Work>, e: Expr, out: seq<Expr>, operands: seq<Expr>, combine: Combine)
    requires |operands| == |e.Children()| && Feasible(stack, |out| + 1)
    ensures Feasible(stack + [(e, true)], |out + operands|)
    ensures Finish(stack + [(e, true)], out + operands, combine)
            == Continue(combine(e, operands), stack, out, combine)
  {
    assert (stack + [(e, true)])[..|stack|] == stack;
    assert (out + operands)[|out|..] == operands && (out + operands)[..|out|] == out;
  }

  /** Marking a node and pushing its children leaves the outcome as it was. */
  lemma ExpandFinish(stack: seq<Work>, e: Expr, out: seq<Expr>, combine: Combine)
    requires Feasible(stack, |out| + 1)
    ensures Feasible(PushChildren(stack + [(e, true)], e.Children()), |out|)
    ensures Finish(PushChildren(stack + [(e, true)], e.Children()), out, combine)
            == Continue(Fold(e, combine), stack, out, combine)
  {
    var marked := stack + [(e, true)];
    match e
    case Leaf(_) =>
      FinishMarked(stack, e, out, [], combine);
      assert out + [] == out;
    case Unary(_, x) =>
      PushOne(marked, x);
      ExpandUnary(stack, e, x, out, combine);
    case Binary(_, x, y) =>
      PushTwo(marked, x, y);
      ExpandBinary(stack, e, x, y, out, combine);
    case Select(c, x, y) =>
      PushThree(marked, c, x, y);
      ExpandSelect(stack, e, c, x, y, out, combine);
  }

  lemma MarkedFeasible(stack: seq<Work>, e: Expr, h: nat)
    requires Feasible(stack, h + 1)
    ensures Feasible(stack + [(e, true)], h + |e.Children()|)
  {
    assert (stack + [(e, true)])[..|stack|] == stack;
  }

  lemma PushFeasible(stack: seq<Work>, e: Expr, h: nat)
    requires Feasible(stack, h + 1)
    ensures Feasible(stack + [(e, false)], h)
  {
    assert (stack + [(e, false)])[..|stack|] == stack;
  }

  lemma Snoc(out: seq<Expr>, x: Expr, y: Expr, z: Expr)
    ensures out + [x] + [y] == out + [x, y] && out + [x] + [y] + [z] == out + [x, y, z]
  {
  }

  lemma ExpandUnary(stack: seq<Work>, e: Expr, x: Expr, out: seq<Expr>, combine: Combine)
    requires Feasible(stack, |out| + 1) && e.Unary? && e.a == x
    ensures Feasible(stack + [(e, true)] + [(x, false)], |out|)
    ensures Finish(stack + [(e, true)] + [(x, false)], out, combine)
            == Continue(Fold(e, combine), stack, out, combine)
  {
    MarkedFeasible(stack, e, |out|);
    FinishPush(stack + [(e, true)], x, out, combine);
    if Fold(x, combine).Success? {
      FinishMarked(stack, e, out, [Fold(x, combine).value], combine);
    }
  }

  lemma ExpandBinary(stack: seq<Work>, e: Expr, x: Expr, y: Expr, out: seq<Expr>, combine: Combine)
    requires Feasible(stack, |out| + 1) && e.Binary? && e.a == x && e.b == y
    ensures Feasible(stack + [(e, true)] + [(y, false)] + [(x, false)], |out|)
    ensures Finish(stack + [(e, true)] + [(y, false)] + [(x, false)], out, combine)
            == Continue(Fold(e, combine), stack, out, combine)
  {
    var marked := stack + [(e, true)];
    MarkedFeasible(stack, e, |out|);
    PushFeasible(marked, y, |out| + 1);
    FinishPush(marked + [(y, false)], x, out, combine);
    if Fold(x, combine).Success? {
      var x' := Fold(x, combine).value;
      FinishPush(marked, y, out + [x'], combine);
      if Fold(y, combine).Success? {
        var y' := Fold(y, combine).value;
        Snoc(out, x', y', y');
        FinishMarked(stack, e, out, [x', y'], combine);
      }
    }
  }

  /** The last two operands of a select, once its condition is on the output stack. */
  lemma ExpandArms(stack: seq<Work>, e: Expr, c': Expr, x: Expr, y: Expr, out: seq<Expr>, combine: Combine)
    requires Feasible(stack, |out| + 1) && e.Select? && e.a == x && e.b == y
    ensures Feasible(stack + [(e, true)] + [(y, false)] + [(x, false)], |out| + 1)
    ensures Finish(stack + [(e, true)] + [(y, false)] + [(x, false)], out + [c'], combine)
            == if Fold(x, combine).Failure? then Failure(Fold(x, combine).error)
               else if Fold(y, combine).Failure? then Failure(Fold(y, combine).error)
               else Continue(combine(e, [c', Fold(x, combine).value, Fold(y, combine).value]), stack, out, combine)
  {
    var marked := stack + [(e, true)];
    MarkedFeasible(stack, e, |out|);
    PushFeasible(marked, y, |out| + 2);
    FinishPush(marked + [(y, false)], x, out + [c'], combine);
    if Fold(x, combine).Success? {
      var x' := Fold(x, combine).value;
      FinishPush(marked, y, out + [c'] + [x'], combine);
      if Fold(y, combine).Success? {
        var y' := Fold(y, combine).value;
        Snoc(out, c', x', y');
        FinishMarked(stack, e, out, [c', x', y'], combine);
      }
    }
  }

  lemma ExpandSelect(stack: seq<Work>, e: Expr, c: Expr, x: Expr, y: Expr, out: seq<Expr>, combine: Combine)
    requires Feasible(stack, |out| + 1) && e == Select(c, x, y)
    ensures Feasible(stack + [(e, true)] + [(y, false)] + [(x, false)] + [(c, false)], |out|)
    ensures Finish(stack + [(e, true)] + [(y, false)] + [(x, false)] + [(c, false)], out, combine)
            == Continue(Fold(e, combine), stack, out, combine)
  {
    ExpandArms(stack, e, c, x, y, out, combine);
    FinishPush(stack + [(e, true)] + [(y, false)] + [(x, false)], c, out, combine);
    if Fold(c, combine).Success? {
      ExpandArms(stack, e, Fold(c, combine).value, x, y, out, combine);
    }
  }

  // ----- Leaf replacement

  /** Replaces the leaves `f` has an answer for and rebuilds everything else. */
  function Replacing(f: Expr -> Option<Expr>): Combine {
    (e: Expr, operands: seq<Expr>) =>
      if e.Leaf? then Success(match f(e) case Some(r) => r case None => e)
      else if |operands| == |e.Children()| then Success(e.Rebuild(operands))
      else Success(e)
  }

  /** The tree with its leaves replaced. */
  function Replaced(e: Expr, f: Expr -> Option<Expr>): Expr {
    match e
    case Leaf(_) => (match f(e) case Some(r) => r case None => e)
    case Unary(op, x) => Unary(op, Replaced(x, f))
    case Binary(op, x, y) => Binary(op, Replaced(x, f), Replaced(y, f))
    case Select(c, x, y) => Select(Replaced(c, f), Replaced(x, f), Replaced(y, f))
  }

  lemma {:induction false} FoldReplaces(e: Expr, f: Expr -> Option<Expr>)
    ensures Fold(e, Replacing(f)) == Success(Replaced(e, f))
  {
    match e
    case Leaf(_) =>
    case Unary(op, x) =>
      FoldReplaces(x, f);
      assert e.Rebuild([Replaced(x, f)]) == Unary(op, Replaced(x, f));
    case Binary(op, x, y) =>
      FoldReplaces(x, f);
      FoldReplaces(y, f);
      assert e.Rebuild([Replaced(x, f), Replaced(y, f)]) == Binary(op, Replaced(x, f), Replaced(y, f));
    case Select(c, x, y) =>
      FoldReplaces(c, f);
      FoldReplaces(x, f);
      FoldReplaces(y, f);
      assert e.Rebuild([Replaced(c, f), Replaced(x, f), Replaced(y, f)]) == Select(Replaced(c, f), Replaced(x, f), Replaced(y, f));
  }

  /** Iterative postorder rebuild. */
  method Transform(e: Expr, f: Expr -> Option<Expr>) returns (r: Expr)
    ensures r == Replaced(e, f)
  {
    ghost var combine := Replacing(f);
    var stack: seq<Work> := [(e, false)];
    var out: seq<Expr> := [];
    FoldReplaces(e, f);
    FinishPush([], e, [], combine);
    assert [] + stack == stack && out + [Replaced(e, f)] == [Replaced(e, f)];
    while stack != []
      invariant Feasible(stack, |out|)
      invariant Finish(stack, out, combine) == Success([Replaced(e, f)])
      decreases Effort(stack)
    {
      var (node, processed) := stack[|stack| - 1];
      var rest := stack[..|stack| - 1];
      stack := rest;
      var children := node.Children();
      if processed {
        var keep := |out| - |children|;
        if node.Leaf? {
          out := out[..keep] + [match f(node) case Some(leaf) => leaf case None => node];
        } else {
          out := out[..keep] + [node.Rebuild(out[keep..])];
        }
        continue;
      }
      if children == [] {
        out := out + [match f(node) case Some(leaf) => leaf case None => node];
        continue;
      }
      ExpandFinish(rest, node, out, combine);
      ExpandPending(rest, node);
      stack := PushChildren(stack + [(node, true)], children);
    }
    r := out[0];
  }

  /** Rebuilding without replacements is the identity, so a clone equals its original. */
  lemma {:induction false} CloneIsIdentity(e: Expr)
    ensures Replaced(e, _ => None) == e
  {
    match e
    case Leaf(_) =>
    case Unary(_, x) => CloneIsIdentity(x);
    case Binary(_, x, y) => CloneIsIdentity(x); CloneIsIdentity(y);
    case Select(c, x, y) => CloneIsIdentity(c); CloneIsIdentity(x); CloneIsIdentity(y);
  }

  method Clone(e: Expr) returns (r: Expr)
    ensures r == e
  {
    CloneIsIdentity(e);
    r := Transform(e, _ => None);
  }

  // ----- Merging a lane

  function MergeLeaf(lane: nat, replacement: Expr, remap: map<nat, nat>): Expr -> Option<Expr> {
    (e: Expr) =>
      if e.Leaf? && e.leaf.Input? then
        if e.leaf.lane == lane then Some(replacement)
        else if e.leaf.lane in remap then Some(Leaf(Input(remap[e.leaf.lane]))) else None
      else None
  }

  /** Inlines `replacement` for `lane` and renames every other lane through `remap`, which must cover them. */
  method MergeLane(e: Expr, lane: nat, replacement: Expr, remap: map<nat, nat>) returns (r: Expr)
    requires forall k :: k in e.Lanes() && k != lane ==> k in remap
    ensures r == Replaced(e, MergeLeaf(lane, replacement, remap))
  {
    r := Transform(e, MergeLeaf(lane, replacement, remap));
  }

  /** The environment in which `e` has the meaning its merged form has in `env`. */
  function MergedEnv<T>(s: Scalars<T>, env: Env<T>, lane: nat, replacement: Expr, remap: map<nat, nat>): Env<T> {
    env.(lane := (k: nat) => if k == lane then Meaning(s, env, replacement) else env.lane(if k in remap then remap[k] else k))
  }

  /** Merging is simultaneous substitution and renaming, even when a renamed lane equals the inlined one. */
  lemma {:induction false} MergeMeans<T>(s: Scalars<T>, env: Env<T>, e: Expr, lane: nat, replacement: Expr, remap: map<nat, nat>)
    requires forall k :: k in e.Lanes() && k != lane ==> k in remap
    ensures Meaning(s, env, Replaced(e, MergeLeaf(lane, replacement, remap)))
            == Meaning(s, MergedEnv(s, env, lane, replacement, remap), e)
  {
    match e
    case Leaf(_) =>
    case Unary(_, x) => MergeMeans(s, env, x, lane, replacement, remap);
    case Binary(_, x, y) =>
      MergeMeans(s, env, x, lane, replacement, remap);
      MergeMeans(s, env, y, lane, replacement, remap);
    case Select(c, x, y) =>
      MergeMeans(s, env, c, lane, replacement, remap);
      MergeMeans(s, env, x, lane, replacement, remap);
      MergeMeans(s, env, y, lane, replacement, remap);
  }

  // ----- Applying an execution plan

  datatype Completion = Direct | ConvertToBoundary(destination: DType)

  datatype ResultInfo = ResultInfo(executionDtype: DType, completion: Completion)

  datatype Boundary = Boundary(node: nat, result: nat)

  datatype OperationExecution = OperationExecution(results: seq<ResultInfo>, roundingBoundaries: seq<Boundary>)

  /** The dtype a result is restored to. */
  function Restored(result: ResultInfo): DType {
    match result.completion
    case Direct => result.executionDtype
    case ConvertToBoundary(destination) => destination
  }

  predicate RoundsAt(operation: OperationExecution, node: nat) {
    exists i :: 0 <= i < |operation.roundingBoundaries| && operation.roundingBoundaries[i].node == node
                && operation.roundingBoundaries[i].result == 0
  }

  function Legalizing(operations: map<nat, OperationExecution>): Combine {
    (e: Expr, operands: seq<Expr>) =>
      if |operands| != |e.Children()| then Success(e)
      else if e.Unary? && e.unary.Semantic? then
        var node, dtype := e.unary.node, e.unary.dtype;
        if node !in operations then Failure(AbsentOperation(node))
        else if operations[node].results == [] then Failure(NoResult(node))
        else if Restored(operations[node].results[0]) != dtype then Failure(WrongDtype(node))
        else if RoundsAt(operations[node], node) then Success(Unary(RoundTo(dtype), operands[0]))
        else Success(operands[0])
      else Success(e.Rebuild(operands))
  }

  /** The result comes in this type: computed in it and left as it is, or converted to it. */
  ghost predicate ComesIn(result: ResultInfo, dtype: DType) {
    && (result.completion.Direct? ==> result.executionDtype == dtype)
    && (result.completion.ConvertToBoundary? ==> result.completion.destination == dtype)
  }

  /** Every marker names an operation whose first result comes in the marker's dtype. */
  ghost predicate MarkersResolve(e: Expr, operations: map<nat, OperationExecution>) {
    match e
    case Leaf(_) => true
    case Unary(op, x) =>
      && MarkersResolve(x, operations)
      && (op.Semantic? ==> op.node in operations && operations[op.node].results != [] && ComesIn(operations[op.node].results[0], op.dtype))
    case Binary(_, x, y) => MarkersResolve(x, operations) && MarkersResolve(y, operations)
    case Select(c, x, y) => MarkersResolve(c, operations) && MarkersResolve(x, operations) && MarkersResolve(y, operations)
  }

  /** One node: a marker becomes a rounding or vanishes, anything else is rebuilt over its operands. */
  method Legalize(expression: Expr, operands: seq<Expr>, operations: map<nat, OperationExecution>) returns (r: Result<Expr, RewriteError>)
    requires |operands| == |expression.Children()|
    ensures r == Legalizing(operations)(expression, operands)
  {
    if expression.Unary? && expression.unary.Semantic? {
      var node, dtype := expression.unary.node, expression.unary.dtype;
      if node !in operations {
        return Failure(AbsentOperation(node));
      }
      var operation := operations[node];
      if operation.results == [] {
        return Failure(NoResult(node));
      }
      if Restored(operation.results[0]) != dtype {
        return Failure(WrongDtype(node));
      }
      if RoundsAt(operation, node) {
        return Success(Unary(RoundTo(dtype), operands[0]));
      }
      return Success(operands[0]);
    }
    return Success(expression.Rebuild(operands));
  }

  /** With this much of the worklist left the rewrite still ends in `outcome`. */
  ghost predicate Rewriting(stack: seq<Work>, values: seq<Expr>, combine: Combine, outcome: Result<seq<Expr>, RewriteError>) {
    Feasible(stack, |values|) && Finish(stack, values, combine) == outcome
  }

  lemma RewritingExpands(stack: seq<Work>, values: seq<Expr>, combine: Combine, outcome: Result<seq<Expr>, RewriteError>)
    requires Rewriting(stack, values, combine, outcome) && stack != [] && !stack[|stack| - 1].1
    ensures var (rest, e) := (stack[..|stack| - 1], stack[|stack| - 1].0);
            var deeper := PushChildren(rest + [(e, true)], e.Children());
            Rewriting(deeper, values, combine, outcome) && Effort(deeper) < Effort(stack)
  {
    var rest, e := stack[..|stack| - 1], stack[|stack| - 1].0;
    assert stack == rest + [(e, false)];
    ExpandFinish(rest, e, values, combine);
    ExpandPending(rest, e);
  }

  /** The outcome once `kept` operands remain below those of the node on top and the node has been combined. */
  lemma RewritingCombines(rest: seq<Work>, e: Expr, kept: seq<Expr>, operands: seq<Expr>, combine: Combine,
                          outcome: Result<seq<Expr>, RewriteError>, r: Result<Expr, RewriteError>)
    requires |operands| == |e.Children()| && r == combine(e, operands)
    requires Rewriting(rest + [(e, true)], kept + operands, combine, outcome)
    ensures if r.Failure? then outcome == Failure(r.error) else Rewriting(rest, kept + [r.value], combine, outcome)
  {
    assert (rest + [(e, true)])[..|rest|] == rest;
    assert |kept + operands| == |kept| + |operands|;
    FinishMarked(rest, e, kept, operands, combine);
  }

  lemma TopSplits(stack: seq<Work>, values: seq<Expr>)
    requires Feasible(stack, |values|) && stack != [] && stack[|stack| - 1].1
    ensures var (rest, e) := (stack[..|stack| - 1], stack[|stack| - 1].0);
            var keep := |values| - |e.Children()|;
            rest + [(e, true)] == stack && keep >= 0 && values[..keep] + values[keep..] == values
  {
    LastSplits(stack);
    Rejoins(values, |values| - |stack[|stack| - 1].0.Children()|);
  }

  /** A tree alone on the worklist ends in what its fold is. */
  ghost function Whole(r: Result<Expr, RewriteError>): Result<seq<Expr>, RewriteError> {
    if r.Failure? then Failure(r.error) else Success([r.value])
  }

  lemma RewritingStarts(e: Expr, combine: Combine)
    ensures Rewriting([(e, false)], [], combine, Whole(Fold(e, combine)))
  {
    FinishPush([], e, [], combine);
    assert [] + [(e, false)] == [(e, false)];
    if Fold(e, combine).Success? {
      assert [] + [Fold(e, combine).value] == [Fold(e, combine).value];
    }
  }

  lemma RewritingEnds(values: seq<Expr>, combine: Combine, r: Result<Expr, RewriteError>)
    requires Rewriting([], values, combine, Whole(r))
    ensures |values| == 1 && r == Success(values[0])
  {
  }

  /** The step for a node whose operands are on top of the values. */
  method CombineTop(stack: seq<Work>, values: seq<Expr>, operations: map<nat, OperationExecution>,
                    ghost combine: Combine, ghost outcome: Result<seq<Expr>, RewriteError>)
    returns (r: Result<seq<Expr>, RewriteError>)
    requires Rewriting(stack, values, combine, outcome) && stack != [] && stack[|stack| - 1].1
    requires combine == Legalizing(operations)
    ensures if r.Failure? then outcome == Failure(r.error) else Rewriting(stack[..|stack| - 1], r.value, combine, outcome)
  {
    TopSplits(stack, values);
    var expression := stack[|stack| - 1].0;
    var keep := |values| - |expression.Children()|;
    var legalized := Legalize(expression, values[keep..], operations);
    RewritingCombines(stack[..|stack| - 1], expression, values[..keep], values[keep..], combine, outcome, legalized);
    if legalized.Failure? {
      return Failure(legalized.error);
    }
    return Success(values[..keep] + [legalized.value]);
  }

  method ApplyExecution(e: Expr, operations: map<nat, OperationExecution>) returns (r: Result<Expr, RewriteError>)
    ensures r == Fold(e, Legalizing(operations))
  {
    ghost var combine := Legalizing(operations);
    ghost var outcome := Whole(Fold(e, combine));
    var stack: seq<Work> := [(e, false)];
    var values: seq<Expr> := [];
    RewritingStarts(e, combine);
    while stack != []
      invariant Rewriting(stack, values, combine, outcome)
      decreases Effort(stack)
    {
      var (expression, processed) := stack[|stack| - 1];
      if !processed {
        RewritingExpands(stack, values, combine, outcome);
        stack := PushChildren(stack[..|stack| - 1] + [(expression, true)], expression.Children());
        continue;
      }
      var combined := CombineTop(stack, values, operations, combine, outcome);
      if combined.Failure? {
        return Failure(combined.error);
      }
      stack, values := stack[..|stack| - 1], combined.value;
    }
    RewritingEnds(values, combine, Fold(e, combine));
    r := Success(values[0]);
  }

  /** The markers read as what the execution plan makes of them: a rounding at declared boundaries, else nothing. */
  function PlannedMarkers<T>(s: Scalars<T>, operations: map<nat, OperationExecution>): Scalars<T> {
    s.(marker := (node: nat, dtype: DType, x: T) =>
         if node in operations && Boundary(node, 0) in operations[node].roundingBoundaries then s.cast(x, dtype) else x)
  }

  /** Only marker steps read the marker interpretation. */
  lemma UnaryIgnoresMarkers<T>(s: Scalars<T>, t: Scalars<T>, op: UnaryOp, x: T)
    requires t == s.(marker := t.marker) && !op.Semantic?
    ensures UnaryValue(s, op, x) == UnaryValue(t, op, x)
  {
  }

  /**
   * Legalization succeeds exactly when every marker resolves; it then removes every marker, and the result means
   * the original with roundings at exactly the declared boundaries.
   */
  lemma {:induction false} LegalizationMeans<T>(s: Scalars<T>, env: Env<T>, e: Expr, operations: map<nat, OperationExecution>)
    ensures var r := Fold(e, Legalizing(operations));
            && (r.Success? <==> MarkersResolve(e, operations))
            && (r.Success? ==> r.value.MarkerFree()
                               && Meaning(s, env, r.value) == Meaning(PlannedMarkers(s, operations), env, e))
  {
    match e
    case Leaf(_) =>
    case Unary(op, x) =>
      LegalizationMeans(s, env, x, operations);
      var inner := Fold(x, Legalizing(operations));
      if inner.Success? {
        assert Fold(e, Legalizing(operations)) == Legalizing(operations)(e, [inner.value]);
        assert e.Rebuild([inner.value]) == Unary(op, inner.value);
        if op.Semantic? {
          assert op.node in operations ==>
            (RoundsAt(operations[op.node], op.node) <==> Boundary(op.node, 0) in operations[op.node].roundingBoundaries);
          assert Meaning(s, env, Unary(RoundTo(op.dtype), inner.value)) == s.cast(Meaning(s, env, inner.value), op.dtype);
        } else {
          UnaryIgnoresMarkers(s, PlannedMarkers(s, operations), op, Meaning(s, env, inner.value));
        }
      }
    case Binary(_, x, y) =>
      LegalizationMeans(s, env, x, operations);
      LegalizationMeans(s, env, y, operations);
    case Select(c, x, y) =>
      LegalizationMeans(s, env, c, operations);
      LegalizationMeans(s, env, x, operations);
      LegalizationMeans(s, env, y, operations);
  }
}
