/**
 * Zero-dimensional tensor graphs over the reals: node kinds, their values, and their forward-mode (dual number)
 * derivatives with respect to any node.
 */
module ScalarGraph {
  import opened DTypes
  import opened Dag

  datatype Elementary = Sqrt | Exp | Log | Sin | Cos | Tanh | Floor | Ceil | Round | Sign

  datatype Relation = Equal | Greater | Less | AtLeast | AtMost {
    predicate Holds(x: real, y: real) {
      match this
      case Equal => x == y
      case Greater => x > y
      case Less => x < y
      case AtLeast => x >= y
      case AtMost => x <= y
    }
  }

  /** `Barred` operations are refused before differentiation starts, `Opaque` ones when a cotangent reaches them. */
  datatype Kind =
    | Source(slot: nat)
    | Constant(value: real)
    | Neg | Abs | Relu
    | Apply(function_: Elementary)
    | Add | Sub | Mul | Div | Maximum | Minimum
    | Compare(relation: Relation)
    | Where
    | Cast
    | StopGradient | Expose | Checkpoint
    | Barred(tag: nat) | Opaque(tag: nat)

  datatype Op = Op(kind: Kind, dtype: DType)

  type Term = Node<Op>

  predicate FitsArity(kind: Kind, count: nat) {
    match kind
    case Source(_) => count == 0
    case Constant(_) => count == 0
    case Add => count == 2
    case Sub => count == 2
    case Mul => count == 2
    case Div => count == 2
    case Maximum => count == 2
    case Minimum => count == 2
    case Compare(_) => count == 2
    case Where => count == 3
    case Barred(_) => true
    case Opaque(_) => true
    case _ => count == 1
  }

  /** What building a node guarantees: its operand count, and that comparisons are not floating point. */
  predicate Typed(n: Term) {
    FitsArity(n.op.kind, |n.args|) && (n.op.kind.Compare? ==> !n.op.dtype.IsFloat())
  }

  // ----- Values

  /**
   * Everything the model leaves open: source values, the elementary functions, conversion to an integer type, and
   * the value and partial derivatives of the operations that are never differentiated.
   */
  datatype World = World(
    source: nat -> real, elementary: (Elementary, real) -> real, convert: (DType, real) -> real,
    other: (nat, seq<real>) -> real, partial: (nat, nat, seq<real>) -> real)

  /** Division, with zero for a zero divisor. */
  function Quot(x: real, y: real): real {
    if y == 0.0 then 0.0 else x / y
  }

  function Truth(b: bool): real {
    if b then 1.0 else 0.0
  }

  ghost function Value(w: World, id: nat, op: Op, vs: seq<real>): real {
    if !FitsArity(op.kind, |vs|) then 0.0
    else
      match op.kind
      case Source(_) => w.source(id)
      case Constant(value) => value
      case Neg => -vs[0]
      case Abs => if vs[0] < 0.0 then -vs[0] else vs[0]
      case Relu => if vs[0] > 0.0 then vs[0] else 0.0
      case Apply(f) => w.elementary(f, vs[0])
      case Add => vs[0] + vs[1]
      case Sub => vs[0] - vs[1]
      case Mul => vs[0] * vs[1]
      case Div => Quot(vs[0], vs[1])
      case Maximum => if vs[0] >= vs[1] then vs[0] else vs[1]
      case Minimum => if vs[0] <= vs[1] then vs[0] else vs[1]
      case Compare(relation) => Truth(relation.Holds(vs[0], vs[1]))
      case Where => if vs[0] != 0.0 then vs[1] else vs[2]
      case Cast => if op.dtype.IsFloat() then vs[0] else w.convert(op.dtype, vs[0])
      case StopGradient => vs[0]
      case Expose => vs[0]
      case Checkpoint => vs[0]
      case Barred(tag) => w.other(tag, vs)
      case Opaque(tag) => w.other(tag, vs)
  }

  /**
   * The value of a node. It and `Tangent` are defined in small steps, so that a proof that only passes them along
   * does not meet the arithmetic inside; `EvalIs` and `TangentIs` give the definitions.
   */
  ghost function Eval(w: World, n: Term): real
    decreases n, 3
  {
    EvalNode(w, n)
  }

  ghost function EvalNode(w: World, n: Term): real
    decreases n, 2
  {
    EvalOp(w, n)
  }

  ghost function EvalOp(w: World, n: Term): real
    decreases n, 1
  {
    Value(w, n.id, n.op, Evals(w, n.args))
  }

  lemma EvalIs(w: World, n: Term)
    ensures Eval(w, n) == Value(w, n.id, n.op, Evals(w, n.args))
  {
    assert EvalNode(w, n) == EvalOp(w, n);
  }

  ghost function Evals(w: World, nodes: seq<Term>): (vs: seq<real>)
    ensures |vs| == |nodes| && forall k :: 0 <= k < |nodes| ==> vs[k] == Eval(w, nodes[k])
    decreases nodes, 0
  {
    if nodes == [] then [] else [Eval(w, nodes[0])] + Evals(w, nodes[1..])
  }

  // ----- Forward-mode derivatives

  /** The derivative of an elementary function; the step functions are flat. */
  ghost function Slope(w: World, f: Elementary, x: real): real {
    match f
    case Sqrt => Quot(1.0, 2.0 * w.elementary(Sqrt, x))
    case Exp => w.elementary(Exp, x)
    case Log => Quot(1.0, x)
    case Sin => w.elementary(Cos, x)
    case Cos => -w.elementary(Sin, x)
    case Tanh => 1.0 - w.elementary(Tanh, x) * w.elementary(Tanh, x)
    case _ => 0.0
  }

  /** The tangent of an operation from the values and tangents of its operands. */
  ghost function Rate(w: World, kind: Kind, vs: seq<real>, ts: seq<real>): real
    requires |vs| == |ts|
  {
    if !FitsArity(kind, |vs|) then 0.0
    else
      match kind
      case Source(_) => 0.0
      case Constant(_) => 0.0
      case Neg => -ts[0]
      case Abs => if vs[0] > 0.0 then ts[0] else if vs[0] < 0.0 then -ts[0] else 0.0
      case Relu => if vs[0] > 0.0 then ts[0] else 0.0
      case Apply(f) => Slope(w, f, vs[0]) * ts[0]
      case Add => ts[0] + ts[1]
      case Sub => ts[0] - ts[1]
      case Mul => ts[0] * vs[1] + vs[0] * ts[1]
      case Div => Quot(ts[0], vs[1]) - Quot(vs[0] * ts[1], vs[1] * vs[1])
      case Maximum => if vs[0] >= vs[1] then ts[0] else ts[1]
      case Minimum => if vs[0] <= vs[1] then ts[0] else ts[1]
      case Compare(_) => 0.0
      case Where => if vs[0] != 0.0 then ts[1] else ts[2]
      case Cast => ts[0]
      case StopGradient => 0.0
      case Expose => ts[0]
      case Checkpoint => ts[0]
      case Barred(tag) => Combined(w, tag, vs, ts, |ts|)
      case Opaque(tag) => Combined(w, tag, vs, ts, |ts|)
  }

  ghost function Combined(w: World, tag: nat, vs: seq<real>, ts: seq<real>, count: nat): real
    requires count <= |ts|
  {
    if count == 0 then 0.0
    else Combined(w, tag, vs, ts, count - 1) + w.partial(tag, count - 1, vs) * ts[count - 1]
  }

  /**
   * The derivative of a node with respect to the node numbered `t`, which is taken as an independent variable. A
   * node that is not floating point varies with nothing.
   */
  ghost function Tangent(w: World, t: nat, n: Term): real
    decreases n, 3
  {
    TangentNode(w, t, n)
  }

  ghost function TangentNode(w: World, t: nat, n: Term): real
    decreases n, 2
  {
    TangentOp(w, t, n)
  }

  ghost function TangentOp(w: World, t: nat, n: Term): real
    decreases n, 1
  {
    if !n.op.dtype.IsFloat() then 0.0
    else if n.id == t then 1.0
    else Rate(w, n.op.kind, Evals(w, n.args), Tangents(w, t, n.args))
  }

  lemma TangentIs(w: World, t: nat, n: Term)
    ensures Tangent(w, t, n)
            == if !n.op.dtype.IsFloat() then 0.0
               else if n.id == t then 1.0
               else Rate(w, n.op.kind, Evals(w, n.args), Tangents(w, t, n.args))
  {
    assert TangentNode(w, t, n) == TangentOp(w, t, n);
  }

  ghost function Tangents(w: World, t: nat, nodes: seq<Term>): (ts: seq<real>)
    ensures |ts| == |nodes| && forall k :: 0 <= k < |nodes| ==> ts[k] == Tangent(w, t, nodes[k])
    decreases nodes, 0
  {
    if nodes == [] then [] else [Tangent(w, t, nodes[0])] + Tangents(w, t, nodes[1..])
  }

  lemma {:induction false} CombinedOfZero(w: World, tag: nat, vs: seq<real>, ts: seq<real>, count: nat)
    requires count <= |ts| && forall k :: 0 <= k < |ts| ==> ts[k] == 0.0
    ensures Combined(w, tag, vs, ts, count) == 0.0
  {
    if count > 0 {
      CombinedOfZero(w, tag, vs, ts, count - 1);
    }
  }

  lemma RateOfZero(w: World, kind: Kind, vs: seq<real>, ts: seq<real>)
    requires |vs| == |ts| && forall k :: 0 <= k < |ts| ==> ts[k] == 0.0
    ensures Rate(w, kind, vs, ts) == 0.0
  {
    match kind {
      case Barred(tag) => CombinedOfZero(w, tag, vs, ts, |ts|);
      case Opaque(tag) => CombinedOfZero(w, tag, vs, ts, |ts|);
      case Apply(f) => assert FitsArity(kind, |vs|) ==> Slope(w, f, vs[0]) * 0.0 == 0.0;
      case Div =>
        if |vs| == 2 {
          assert vs[0] * ts[1] == 0.0;
          assert vs[1] != 0.0 ==> 0.0 / vs[1] == 0.0;
          assert vs[1] * vs[1] != 0.0 ==> 0.0 / (vs[1] * vs[1]) == 0.0;
        }
      case _ =>
    }
  }

  ghost predicate IdBelow(t: nat, n: Term) {
    exists x :: x in Below(n) && x.id == t
  }

  /** A node does not vary with what is not below it. */
  lemma {:induction false} TangentIsLocal(w: World, t: nat, n: Term)
    requires !IdBelow(t, n)
    ensures Tangent(w, t, n) == 0.0
    decreases n
  {
    TangentIs(w, t, n);
    assert n in Below(n);
    forall k | 0 <= k < |n.args|
      ensures Tangent(w, t, n.args[k]) == 0.0
    {
      BelowAllHas(n.args, k);
      assert forall x :: x in Below(n.args[k]) ==> x in Below(n);
      TangentIsLocal(w, t, n.args[k]);
    }
    RateOfZero(w, n.op.kind, Evals(w, n.args), Tangents(w, t, n.args));
  }

  /** A node rebuilt over operands that agree in value and tangent agrees too. */
  lemma RebuiltAgrees(w: World, t: nat, n: Term, copy: Term)
    requires copy.op == n.op && |copy.args| == |n.args| && !n.op.kind.Source? && n.id != t && copy.id != t
    requires forall k :: 0 <= k < |n.args| ==>
      Eval(w, copy.args[k]) == Eval(w, n.args[k]) && Tangent(w, t, copy.args[k]) == Tangent(w, t, n.args[k])
    ensures Eval(w, copy) == Eval(w, n) && Tangent(w, t, copy) == Tangent(w, t, n)
  {
    EvalIs(w, n);
    EvalIs(w, copy);
    TangentIs(w, t, n);
    TangentIs(w, t, copy);
    assert Evals(w, copy.args) == Evals(w, n.args);
    assert Tangents(w, t, copy.args) == Tangents(w, t, n.args);
  }
}
