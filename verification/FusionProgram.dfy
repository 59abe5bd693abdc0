/** Fused expressions compiled to a postorder stack program and run on an exactly sized scratch stack. */
module FusionProgram {
  import opened Wrappers
  import opened KernelExprs

  function Larger(a: nat, b: nat): nat {
    if a < b then b else a
  }

  // ----- Stack heights

  /** Operands a token pops; every token pushes one result. */
  function Pops(op: Flat): nat {
    match op
    case FlatLeaf(_) => 0
    case FlatUnary(_) => 1
    case FlatBinary(_) => 2
    case FlatSelect => 3
  }

  /** The height after a plan, and the greatest height it reached. */
  datatype Level = Level(height: nat, peak: nat) {
    function After(op: Flat): Option<Level> {
      if height < Pops(op) then None
      else Some(Level(height - Pops(op) + 1, Larger(peak, height - Pops(op) + 1)))
    }
  }

  /** The level a plan reaches from an empty stack; `None` on underflow. */
  ghost function Levels(plan: seq<Flat>): Option<Level> {
    if plan == [] then Some(Level(0, 0))
    else
      match Levels(plan[..|plan| - 1])
      case None => None
      case Some(level) => level.After(plan[|plan| - 1])
  }

  /** The stack an expression needs: operands already computed wait below the one being computed. */
  function Need(e: Expr): nat {
    match e
    case Leaf(_) => 1
    case Unary(_, x) => Need(x)
    case Binary(_, x, y) => Larger(Need(x), 1 + Need(y))
    case Select(c, x, y) => Larger(Need(c), Larger(1 + Need(x), 2 + Need(y)))
  }

  lemma LevelsSnoc(plan: seq<Flat>, op: Flat, level: Level)
    requires Levels(plan) == Some(level)
    ensures Levels(plan + [op]) == level.After(op)
  {
    assert (plan + [op])[..|plan|] == plan;
  }

  lemma PeakOfTwo(peak: nat, h: nat, x: nat, y: nat)
    requires x >= 1 && y >= 1
    ensures Larger(Larger(Larger(peak, h + x), h + 1 + y), h + 1) == Larger(peak, h + Larger(x, 1 + y))
  {
  }

  lemma PeakOfThree(peak: nat, h: nat, c: nat, x: nat, y: nat)
    requires c >= 1 && x >= 1 && y >= 1
    ensures Larger(Larger(Larger(Larger(peak, h + c), h + 1 + x), h + 2 + y), h + 1)
            == Larger(peak, h + Larger(c, Larger(1 + x, 2 + y)))
  {
  }

  /** The plan of a node is its children's plans and then its token. */
  lemma PlanOfNode(prefix: seq<Flat>, e: Expr)
    ensures e.Unary? ==> prefix + Postorder(e) == prefix + Postorder(e.a) + [Token(e)]
    ensures e.Binary? ==> prefix + Postorder(e) == prefix + Postorder(e.a) + Postorder(e.b) + [Token(e)]
    ensures e.Select? ==> prefix + Postorder(e) == prefix + Postorder(e.cond) + Postorder(e.a) + Postorder(e.b) + [Token(e)]
  {
    match e
    case Leaf(_) =>
    case Unary(_, x) => Shift(prefix, Postorder(x), [], [Token(e)]);
    case Binary(_, x, y) => Shift(prefix, Postorder(x), Postorder(y), [Token(e)]);
    case Select(c, x, y) => Shift4(prefix, Postorder(c), Postorder(x), Postorder(y), [Token(e)]);
  }

  lemma NeedIsPositive(e: Expr)
    ensures Need(e) >= 1
  {
  }

  /** Running an expression's plan raises the height by one and reaches exactly its need above it. */
  function Raised(level: Level, e: Expr): Level {
    Level(level.height + 1, Larger(level.peak, level.height + Need(e)))
  }

  lemma {:induction false} LevelsPostorder(prefix: seq<Flat>, e: Expr, level: Level)
    requires Levels(prefix) == Some(level)
    ensures Levels(prefix + Postorder(e)) == Some(Raised(level, e))
    decreases e
  {
    match e
    case Leaf(_) =>
      LevelsSnoc(prefix, Token(e), level);
    case Unary(_, x) =>
      LevelsUnary(prefix, e, x, level);
    case Binary(_, x, y) =>
      LevelsBinary(prefix, e, x, y, level);
    case Select(c, x, y) =>
      LevelsSelect(prefix, e, c, x, y, level);
  }

  lemma {:induction false} LevelsUnary(prefix: seq<Flat>, e: Expr, x: Expr, level: Level)
    requires Levels(prefix) == Some(level) && e.Unary? && e.a == x
    ensures Levels(prefix + Postorder(e)) == Some(Raised(level, e))
    decreases e, 0
  {
    PlanOfNode(prefix, e);
    LevelsPostorder(prefix, x, level);
    LevelsSnoc(prefix + Postorder(x), Token(e), Raised(level, x));
    NeedIsPositive(x);
  }

  lemma {:induction false} LevelsBinary(prefix: seq<Flat>, e: Expr, x: Expr, y: Expr, level: Level)
    requires Levels(prefix) == Some(level) && e.Binary? && e.a == x && e.b == y
    ensures Levels(prefix + Postorder(e)) == Some(Raised(level, e))
    decreases e, 0
  {
    PlanOfNode(prefix, e);
    LevelsPostorder(prefix, x, level);
    LevelsPostorder(prefix + Postorder(x), y, Raised(level, x));
    LevelsSnoc(prefix + Postorder(x) + Postorder(y), Token(e), Raised(Raised(level, x), y));
    RaisedTwice(level, e, x, y);
  }

  lemma {:induction false} LevelsSelect(prefix: seq<Flat>, e: Expr, c: Expr, x: Expr, y: Expr, level: Level)
    requires Levels(prefix) == Some(level) && e == Select(c, x, y)
    ensures Levels(prefix + Postorder(e)) == Some(Raised(level, e))
    decreases e, 0
  {
    PlanOfNode(prefix, e);
    LevelsPostorder(prefix, c, level);
    LevelsPostorder(prefix + Postorder(c), x, Raised(level, c));
    LevelsPostorder(prefix + Postorder(c) + Postorder(x), y, Raised(Raised(level, c), x));
    LevelsSnoc(prefix + Postorder(c) + Postorder(x) + Postorder(y), Token(e), Raised(Raised(Raised(level, c), x), y));
    RaisedThrice(level, e, c, x, y);
  }

  lemma RaisedTwice(level: Level, e: Expr, x: Expr, y: Expr)
    requires e.Binary? && e.a == x && e.b == y
    ensures Raised(Raised(level, x), y).After(Token(e)) == Some(Raised(level, e))
  {
    NeedIsPositive(x);
    NeedIsPositive(y);
    PeakOfTwo(level.peak, level.height, Need(x), Need(y));
  }

  lemma RaisedThrice(level: Level, e: Expr, c: Expr, x: Expr, y: Expr)
    requires e == Select(c, x, y)
    ensures Raised(Raised(Raised(level, c), x), y).After(Token(e)) == Some(Raised(level, e))
  {
    NeedIsPositive(c);
    NeedIsPositive(x);
    NeedIsPositive(y);
    PeakOfThree(level.peak, level.height, Need(c), Need(x), Need(y));
  }

  lemma EmptyPrefix(plan: seq<Flat>)
    ensures [] + plan == plan
  {
  }

  /** An expression's plan never underflows, leaves one value and reaches exactly its need. */
  lemma PlanLevels(e: Expr)
    ensures Levels(Postorder(e)) == Some(Level(1, Need(e)))
  {
    LevelsPostorder([], e, Level(0, 0));
    EmptyPrefix(Postorder(e));
    assert Raised(Level(0, 0), e) == Level(1, Need(e));
  }

  /** Prefixes of a plan that never underflows never underflow, and reach no greater height. */
  lemma {:induction false} LevelsPrefix(plan: seq<Flat>, n: nat)
    requires n <= |plan| && Levels(plan).Some?
    ensures Levels(plan[..n]).Some?
    ensures Levels(plan[..n]).value.height <= Levels(plan[..n]).value.peak <= Levels(plan).value.peak
    decreases |plan|
  {
    if n < |plan| {
      assert plan[..|plan| - 1][..n] == plan[..n];
      LevelsPrefix(plan[..|plan| - 1], n);
    } else {
      assert plan[..n] == plan;
    }
  }

  // ----- Running a plan

  /** The value stack after a plan; `None` on underflow. */
  ghost function Exec<T>(s: Scalars<T>, env: Env<T>, plan: seq<Flat>): Option<seq<T>> {
    if plan == [] then Some([])
    else
      match Exec(s, env, plan[..|plan| - 1])
      case None => None
      case Some(stack) => ExecOne(s, env, plan[|plan| - 1], stack)
  }

  function ExecOne<T>(s: Scalars<T>, env: Env<T>, op: Flat, stack: seq<T>): Option<seq<T>> {
    var n := |stack|;
    if n < Pops(op) then None
    else
      match op
      case FlatLeaf(leaf) => Some(stack + [LeafValue(s, env, leaf)])
      case FlatUnary(unary) => Some(stack[..n - 1] + [UnaryValue(s, unary, stack[n - 1])])
      case FlatBinary(binary) => Some(stack[..n - 2] + [s.arithmetic(binary, stack[n - 2], stack[n - 1])])
      case FlatSelect => Some(stack[..n - 3] + [s.pick(stack[n - 3], stack[n - 2], stack[n - 1])])
  }

  lemma ExecSnoc<T>(s: Scalars<T>, env: Env<T>, plan: seq<Flat>, op: Flat)
    ensures Exec(s, env, plan + [op]) ==
            match Exec(s, env, plan) case None => None case Some(stack) => ExecOne(s, env, op, stack)
  {
    assert (plan + [op])[..|plan|] == plan;
  }

  /** Compiler correctness: an expression's plan pushes the expression's meaning and leaves the rest alone. */
  lemma {:induction false} ExecPostorder<T>(s: Scalars<T>, env: Env<T>, prefix: seq<Flat>, e: Expr, stack: seq<T>)
    requires Exec(s, env, prefix) == Some(stack)
    ensures Exec(s, env, prefix + Postorder(e)) == Some(stack + [Meaning(s, env, e)])
    decreases e
  {
    PlanOfNode(prefix, e);
    match e
    case Leaf(_) =>
      ExecSnoc(s, env, prefix, Token(e));
    case Unary(_, x) =>
      ExecPostorder(s, env, prefix, x, stack);
      ExecSnoc(s, env, prefix + Postorder(x), Token(e));
    case Binary(_, x, y) =>
      var (a, b) := (Meaning(s, env, x), Meaning(s, env, y));
      ExecPostorder(s, env, prefix, x, stack);
      ExecPostorder(s, env, prefix + Postorder(x), y, stack + [a]);
      ExecSnoc(s, env, prefix + Postorder(x) + Postorder(y), Token(e));
      DropOperands(stack, a, b, b);
    case Select(c, x, y) =>
      ExecSelect(s, env, prefix, e, c, x, y, stack);
  }

  lemma {:induction false} ExecSelect<T>(s: Scalars<T>, env: Env<T>, prefix: seq<Flat>, e: Expr, c: Expr, x: Expr, y: Expr, stack: seq<T>)
    requires Exec(s, env, prefix) == Some(stack) && e == Select(c, x, y)
    ensures Exec(s, env, prefix + Postorder(e)) == Some(stack + [Meaning(s, env, e)])
    decreases e, 0
  {
    var (a, b, d) := (Meaning(s, env, c), Meaning(s, env, x), Meaning(s, env, y));
    PlanOfNode(prefix, e);
    ExecPostorder(s, env, prefix, c, stack);
    ExecPostorder(s, env, prefix + Postorder(c), x, stack + [a]);
    ExecPostorder(s, env, prefix + Postorder(c) + Postorder(x), y, stack + [a] + [b]);
    ExecSnoc(s, env, prefix + Postorder(c) + Postorder(x) + Postorder(y), Token(e));
    DropOperands(stack, a, b, d);
  }

  lemma DropOperands<T>(stack: seq<T>, a: T, b: T, c: T)
    ensures (stack + [a] + [b])[..|stack|] == stack && (stack + [a] + [b] + [c])[..|stack|] == stack
    ensures (stack + [a] + [b])[|stack|] == a && (stack + [a] + [b])[|stack| + 1] == b
    ensures (stack + [a] + [b] + [c])[|stack|] == a && (stack + [a] + [b] + [c])[|stack| + 1] == b
    ensures (stack + [a] + [b] + [c])[|stack| + 2] == c
  {
  }

  /** The value stack is as high as the heights say. */
  lemma {:induction false} ExecHeight<T>(s: Scalars<T>, env: Env<T>, plan: seq<Flat>)
    ensures Exec(s, env, plan).Some? <==> Levels(plan).Some?
    ensures Exec(s, env, plan).Some? ==> |Exec(s, env, plan).value| == Levels(plan).value.height
  {
    if plan != [] {
      ExecHeight(s, env, plan[..|plan| - 1]);
    }
  }

  /** One evaluator step on the stack kept in `values[base..base + depth]`. */
  method EvalOp<T>(s: Scalars<T>, env: Env<T>, op: Flat, values: array<T>, base: nat, depth: nat) returns (next: nat)
    requires depth >= Pops(op) && base + depth <= values.Length
    requires base + depth - Pops(op) + 1 <= values.Length
    modifies values
    ensures next == depth - Pops(op) + 1
    ensures Some(values[base..base + next]) == ExecOne(s, env, op, old(values[base..base + depth]))
    ensures forall j :: 0 <= j < values.Length && !(base <= j < base + Larger(depth, next)) ==> values[j] == old(values[j])
  {
    next := depth - Pops(op) + 1;
    match op {
      case FlatLeaf(leaf) =>
        values[base + depth] := LeafValue(s, env, leaf);
      case FlatUnary(unary) =>
        values[base + depth - 1] := UnaryValue(s, unary, values[base + depth - 1]);
      case FlatBinary(binary) =>
        values[base + depth - 2] := s.arithmetic(binary, values[base + depth - 2], values[base + depth - 1]);
      case FlatSelect =>
        values[base + depth - 3] :=
          s.pick(values[base + depth - 3], values[base + depth - 2], values[base + depth - 1]);
    }
    assert values[base..base + next] == ExecOne(s, env, op, old(values[base..base + depth])).value;
  }

  /** What one step of a plan that never underflows does to the stack. */
  lemma PlanStep<T>(s: Scalars<T>, env: Env<T>, plan: seq<Flat>, level: Level, i: nat)
    requires i < |plan| && Levels(plan) == Some(level)
    ensures Exec(s, env, plan[..i]).Some? && |Exec(s, env, plan[..i]).value| >= Pops(plan[i])
    ensures Exec(s, env, plan[..i + 1]) == ExecOne(s, env, plan[i], Exec(s, env, plan[..i]).value)
    ensures Exec(s, env, plan[..i + 1]).Some? && |Exec(s, env, plan[..i + 1]).value| <= level.peak
  {
    assert plan[..i + 1] == plan[..i] + [plan[i]];
    ExecSnoc(s, env, plan[..i], plan[i]);
    LevelsPrefix(plan, i);
    LevelsPrefix(plan, i + 1);
    ExecHeight(s, env, plan[..i]);
    ExecHeight(s, env, plan[..i + 1]);
  }

  /** Evaluates one plan in `values[base..]`; nothing outside its `Need(e)` cells is touched. */
  method EvalPlan<T>(s: Scalars<T>, env: Env<T>, plan: seq<Flat>, values: array<T>, base: nat, ghost e: Expr) returns (r: T)
    requires plan == Postorder(e) && e.MarkerFree()
    requires base + Need(e) <= values.Length
    modifies values
    ensures r == Meaning(s, env, e)
    ensures forall i :: 0 <= i < values.Length && !(base <= i < base + Need(e)) ==> values[i] == old(values[i])
  {
    PlanLevels(e);
    var depth: nat := 0;
    assert values[base..base] == [] && plan[..0] == [];
    for i := 0 to |plan|
      invariant depth <= Need(e) && Exec(s, env, plan[..i]) == Some(values[base..base + depth])
      invariant forall j :: 0 <= j < values.Length && !(base <= j < base + Need(e)) ==> values[j] == old(values[j])
    {
      PlanStep(s, env, plan, Level(1, Need(e)), i);
      depth := EvalOp(s, env, plan[i], values, base, depth);
    }
    assert plan[..|plan|] == plan;
    EmptyPrefix(plan);
    ExecPostorder(s, env, [], e, []);
    assert values[base..base + depth] == [] + [Meaning(s, env, e)];
    assert values[base] == values[base..base + depth][0];
    r := values[base];
  }

  // ----- Preparation

  /** Immutable plans of a fused kernel, one per output. */
  datatype CpuFusionProgram = CpuFusionProgram(
    ops: seq<Flat>, planEnds: seq<nat>, inputCount: nat, scalarCount: nat, valueScratchLen: nat)
  {
    function OutputCount(): nat {
      |planEnds|
    }

    function ScratchElements(): nat {
      inputCount + valueScratchLen
    }

    ghost predicate ValidEnds() {
      && (forall k :: 0 <= k < |planEnds| ==> planEnds[k] <= |ops|)
      && (forall j, k :: 0 <= j < k < |planEnds| ==> planEnds[j] <= planEnds[k])
    }

    /** The plan of one output. */
    function Plan(output: nat): seq<Flat>
      requires output < |planEnds| && ValidEnds()
    {
      var start := if output == 0 then 0 else planEnds[output - 1];
      ops[start..planEnds[output]]
    }
  }

  ghost predicate UsesLeaf(ops: seq<Flat>, leaf: LeafOp) {
    FlatLeaf(leaf) in ops
  }

  /** `count` is one more than the greatest lane a token reads, or zero. */
  ghost predicate IsInputCount(ops: seq<Flat>, count: nat) {
    && (forall k: nat :: UsesLeaf(ops, Input(k)) ==> k < count)
    && (count == 0 || UsesLeaf(ops, Input(count - 1)))
  }

  ghost predicate IsScalarCount(ops: seq<Flat>, count: nat) {
    && (forall k: nat :: UsesLeaf(ops, Scalar(k)) ==> k < count)
    && (count == 0 || UsesLeaf(ops, Scalar(count - 1)))
  }

  /** The program holds exactly the plans of the expressions, with exact counts and an exact scratch size. */
  ghost predicate Compiled(program: CpuFusionProgram, exprs: seq<Expr>) {
    && program.ValidEnds()
    && |program.planEnds| == |exprs|
    && HoldsPlans(program, exprs)
    && IsInputCount(program.ops, program.inputCount)
    && IsScalarCount(program.ops, program.scalarCount)
    && IsScratchLen(exprs, program.valueScratchLen)
  }

  /** `n` is the greatest stack need of any expression, or zero when there is none. */
  ghost predicate IsScratchLen(exprs: seq<Expr>, n: nat) {
    && (forall k :: 0 <= k < |exprs| ==> Need(exprs[k]) <= n)
    && (n == 0 || exists k :: 0 <= k < |exprs| && Need(exprs[k]) == n)
  }

  lemma ScratchLenSnoc(exprs: seq<Expr>, n: nat, e: Expr)
    requires IsScratchLen(exprs, n)
    ensures IsScratchLen(exprs + [e], Larger(n, Need(e)))
  {
    var all := exprs + [e];
    assert all[|exprs|] == e;
    if n > 0 {
      var k :| 0 <= k < |exprs| && Need(exprs[k]) == n;
      assert Need(all[k]) == n;
    }
    assert forall k :: 0 <= k < |exprs| ==> all[k] == exprs[k];
  }

  /** An expression is free of markers exactly when its plan is. */
  lemma {:induction false} MarkersInPlan(e: Expr)
    ensures e.MarkerFree() <==> NoMarkers(Postorder(e))
  {
    assert Token(e) in Postorder(e);
    match e
    case Leaf(_) =>
    case Unary(_, x) => MarkersInPlan(x);
    case Binary(_, x, y) => MarkersInPlan(x); MarkersInPlan(y);
    case Select(c, x, y) => MarkersInPlan(c); MarkersInPlan(x); MarkersInPlan(y);
  }

  /** A lane is read by the expression exactly when its plan holds the token. */
  lemma {:induction false} LanesInPlan(e: Expr, k: nat)
    ensures k in e.Lanes() <==> UsesLeaf(Postorder(e), Input(k))
  {
    match e
    case Leaf(_) =>
    case Unary(_, x) => LanesInPlan(x, k);
    case Binary(_, x, y) => LanesInPlan(x, k); LanesInPlan(y, k);
    case Select(c, x, y) => LanesInPlan(c, k); LanesInPlan(x, k); LanesInPlan(y, k);
  }

  datatype PrepareError = UnlegalizedMarker

  function InputAfter(count: nat, op: Flat): nat {
    if op.FlatLeaf? && op.leaf.Input? then Larger(count, op.leaf.lane + 1) else count
  }

  function ScalarAfter(count: nat, op: Flat): nat {
    if op.FlatLeaf? && op.leaf.Scalar? then Larger(count, op.leaf.lane + 1) else count
  }

  lemma CountsSnoc(ops: seq<Flat>, op: Flat, inputCount: nat, scalarCount: nat)
    requires IsInputCount(ops, inputCount) && IsScalarCount(ops, scalarCount)
    ensures IsInputCount(ops + [op], InputAfter(inputCount, op)) && IsScalarCount(ops + [op], ScalarAfter(scalarCount, op))
  {
    assert forall leaf :: UsesLeaf(ops + [op], leaf) <==> UsesLeaf(ops, leaf) || op == FlatLeaf(leaf);
  }

  predicate IsMarker(op: Flat) {
    op.FlatUnary? && op.unary.Semantic?
  }

  ghost predicate NoMarkers(ops: seq<Flat>) {
    forall op :: op in ops ==> !IsMarker(op)
  }

  lemma NoMarkersSnoc(ops: seq<Flat>, op: Flat)
    ensures NoMarkers(ops + [op]) <==> NoMarkers(ops) && !IsMarker(op)
  {
    assert op in ops + [op];
    assert forall o :: o in ops ==> o in ops + [op];
  }

  /** What has been measured after a prefix of a plan. */
  ghost predicate Measured(before: seq<Flat>, prefix: seq<Flat>, peak0: nat, depth: nat, peak: nat, inputCount: nat, scalarCount: nat) {
    && Levels(prefix).Some? && depth == Levels(prefix).value.height
    && peak == Larger(peak0, Levels(prefix).value.peak)
    && NoMarkers(prefix)
    && IsInputCount(before + prefix, inputCount) && IsScalarCount(before + prefix, scalarCount)
  }

  lemma MeasuredSnoc(before: seq<Flat>, prefix: seq<Flat>, op: Flat, peak0: nat, depth: nat, peak: nat, inputCount: nat, scalarCount: nat)
    requires Measured(before, prefix, peak0, depth, peak, inputCount, scalarCount) && !IsMarker(op) && depth >= Pops(op)
    ensures Measured(before, prefix + [op], peak0, depth - Pops(op) + 1, Larger(peak, depth - Pops(op) + 1),
                     InputAfter(inputCount, op), ScalarAfter(scalarCount, op))
  {
    LevelsSnoc(prefix, op, Levels(prefix).value);
    NoMarkersSnoc(prefix, op);
    CountsSnoc(before + prefix, op, inputCount, scalarCount);
    assert before + (prefix + [op]) == before + prefix + [op];
  }

  lemma StepHasOperands(plan: seq<Flat>, i: nat)
    requires i < |plan| && Levels(plan).Some?
    ensures Levels(plan[..i]).Some? && Levels(plan[..i]).value.height >= Pops(plan[i])
  {
    LevelsPrefix(plan, i);
    LevelsPrefix(plan, i + 1);
    assert plan[..i + 1] == plan[..i] + [plan[i]];
    LevelsSnoc(plan[..i], plan[i], Levels(plan[..i]).value);
  }

  /** Measures one plan: its peak height, and the lane counts over everything measured so far. */
  method Measure(ghost before: seq<Flat>, plan: seq<Flat>, inputCount0: nat, scalarCount0: nat, peak0: nat, ghost need: nat)
    returns (ok: bool, inputCount: nat, scalarCount: nat, peak: nat)
    requires Levels(plan) == Some(Level(1, need)) && IsInputCount(before, inputCount0) && IsScalarCount(before, scalarCount0)
    ensures ok <==> NoMarkers(plan)
    ensures ok ==> IsInputCount(before + plan, inputCount) && IsScalarCount(before + plan, scalarCount)
    ensures ok ==> peak == Larger(peak0, need)
  {
    inputCount, scalarCount, peak := inputCount0, scalarCount0, peak0;
    var depth: nat := 0;
    assert plan[..0] == [] && before + [] == before;
    for i := 0 to |plan|
      invariant Measured(before, plan[..i], peak0, depth, peak, inputCount, scalarCount)
    {
      var op := plan[i];
      assert plan[..i + 1] == plan[..i] + [op];
      StepHasOperands(plan, i);
      if IsMarker(op) {
        return false, inputCount, scalarCount, peak;
      }
      MeasuredSnoc(before, plan[..i], op, peak0, depth, peak, inputCount, scalarCount);
      inputCount, scalarCount := InputAfter(inputCount, op), ScalarAfter(scalarCount, op);
      depth := depth - Pops(op) + 1;
      peak := Larger(peak, depth);
    }
    assert plan[..|plan|] == plan;
    ok := true;
  }

  lemma PlanKept(before: CpuFusionProgram, after: CpuFusionProgram, k: nat)
    requires before.ValidEnds() && after.ValidEnds() && k < |before.planEnds|
    requires before.ops <= after.ops && before.planEnds <= after.planEnds
    ensures after.Plan(k) == before.Plan(k)
  {
  }

  lemma CompiledSnoc(before: CpuFusionProgram, exprs: seq<Expr>, e: Expr, after: CpuFusionProgram)
    requires Compiled(before, exprs) && e.MarkerFree()
    requires EndsAtOps(before)
    requires after.ops == before.ops + Postorder(e) && after.planEnds == before.planEnds + [|after.ops|]
    requires IsInputCount(after.ops, after.inputCount) && IsScalarCount(after.ops, after.scalarCount)
    requires after.valueScratchLen == Larger(before.valueScratchLen, Need(e))
    ensures Compiled(after, exprs + [e])
  {
    ScratchLenSnoc(exprs, before.valueScratchLen, e);
    PlansSnoc(before, exprs, e, after);
  }

  ghost predicate HoldsPlans(program: CpuFusionProgram, exprs: seq<Expr>)
    requires program.ValidEnds() && |program.planEnds| == |exprs|
  {
    forall k :: 0 <= k < |exprs| ==> exprs[k].MarkerFree() && program.Plan(k) == Postorder(exprs[k])
  }

  lemma PlansSnoc(before: CpuFusionProgram, exprs: seq<Expr>, e: Expr, after: CpuFusionProgram)
    requires before.ValidEnds() && |before.planEnds| == |exprs| && HoldsPlans(before, exprs) && EndsAtOps(before)
    requires e.MarkerFree()
    requires after.ops == before.ops + Postorder(e) && after.planEnds == before.planEnds + [|after.ops|]
    ensures after.ValidEnds() && HoldsPlans(after, exprs + [e])
  {
    EndsSnoc(before, after, Postorder(e));
    forall k | 0 <= k < |exprs + [e]|
      ensures (exprs + [e])[k].MarkerFree() && after.Plan(k) == Postorder((exprs + [e])[k])
    {
      if k < |exprs| {
        assert (exprs + [e])[k] == exprs[k];
        PlanKept(before, after, k);
      }
    }
  }

  /** Appending a plan keeps the ends in order and makes it the last output's plan. */
  lemma EndsSnoc(before: CpuFusionProgram, after: CpuFusionProgram, plan: seq<Flat>)
    requires before.ValidEnds()
    requires EndsAtOps(before)
    requires after.ops == before.ops + plan && after.planEnds == before.planEnds + [|after.ops|]
    ensures after.ValidEnds() && after.Plan(|before.planEnds|) == plan
  {
    assert after.ops[|before.ops|..] == plan;
  }

  lemma NothingCompiled()
    ensures Compiled(CpuFusionProgram([], [], 0, 0, 0), [])
  {
  }

  ghost predicate EndsAtOps(program: CpuFusionProgram) {
    if program.planEnds == [] then program.ops == [] else program.planEnds[|program.planEnds| - 1] == |program.ops|
  }

  /** Flattens and measures one more expression. */
  method PrepareOne(program: CpuFusionProgram, ghost exprs: seq<Expr>, e: Expr) returns (r: Result<CpuFusionProgram, PrepareError>)
    requires Compiled(program, exprs) && EndsAtOps(program)
    ensures r.Success? <==> e.MarkerFree()
    ensures r.Success? ==> Compiled(r.value, exprs + [e]) && EndsAtOps(r.value)
  {
    var start := |program.ops|;
    var ops := FlattenInto(e, program.ops);
    var plan := ops[start..];
    assert plan == Postorder(e);
    PlanLevels(e);
    MarkersInPlan(e);
    var ok, inputCount, scalarCount, valueScratchLen :=
      Measure(program.ops, plan, program.inputCount, program.scalarCount, program.valueScratchLen, Need(e));
    if !ok {
      return Failure(UnlegalizedMarker);
    }
    var next := CpuFusionProgram(ops, program.planEnds + [|ops|], inputCount, scalarCount, valueScratchLen);
    CompiledSnoc(program, exprs, e, next);
    return Success(next);
  }

  /** Preparation: succeeds exactly on marker-free expressions. */
  method Prepare(exprs: seq<Expr>) returns (r: Result<CpuFusionProgram, PrepareError>)
    ensures r.Success? <==> forall k :: 0 <= k < |exprs| ==> exprs[k].MarkerFree()
    ensures r.Success? ==> Compiled(r.value, exprs)
  {
    var program := CpuFusionProgram([], [], 0, 0, 0);
    NothingCompiled();
    assert exprs[..0] == [];
    for k := 0 to |exprs|
      invariant Compiled(program, exprs[..k]) && EndsAtOps(program)
    {
      assert exprs[..k + 1] == exprs[..k] + [exprs[k]];
      program :- PrepareOne(program, exprs[..k], exprs[k]);
    }
    assert exprs[..|exprs|] == exprs;
    return Success(program);
  }
}
