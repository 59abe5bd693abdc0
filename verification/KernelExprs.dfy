/** The scalar expression tree of a fused kernel, its meaning, and its iterative traversals. */
module KernelExprs {
  import opened DTypes
  import opened Wrappers

  // Bit pattern of an f64 constant.
  type Bits = nat

  datatype LeafOp = Input(lane: nat) | Scalar(lane: nat) | Const(bits: Bits)

  datatype UnaryOp =
    | Cast(dtype: DType) | RoundTo(dtype: DType)
    | Semantic(node: nat, dtype: DType)
    | Neg | Sqrt | Exp | Sin | Cos | Tanh | Abs | Log | Floor | Ceil | Round
    | Powf(exponent: Bits)
    | Erf | Gelu | GeluTanh

  datatype BinaryOp = Add | Sub | Mul | Div | Min | Max | Lt | Le | Gt | Ge | Eq | Ne

  /** The source's variants, grouped by their number of children. */
  datatype Expr =
    | Leaf(leaf: LeafOp)
    | Unary(unary: UnaryOp, a: Expr)
    | Binary(binary: BinaryOp, a: Expr, b: Expr)
    | Select(cond: Expr, a: Expr, b: Expr)
  {
    /** Children in left-to-right order. */
    function Children(): seq<Expr> {
      match this
      case Leaf(_) => []
      case Unary(_, x) => [x]
      case Binary(_, x, y) => [x, y]
      case Select(c, x, y) => [c, x, y]
    }

    /** The same variant with new children. */
    function Rebuild(children: seq<Expr>): Expr
      requires |children| == |Children()|
    {
      match this
      case Leaf(op) => Leaf(op)
      case Unary(op, _) => Unary(op, children[0])
      case Binary(op, _, _) => Binary(op, children[0], children[1])
      case Select(_, _, _) => Select(children[0], children[1], children[2])
    }

    /** Number of tree nodes. */
    function Size(): nat {
      match this
      case Leaf(_) => 1
      case Unary(_, x) => 1 + x.Size()
      case Binary(_, x, y) => 1 + x.Size() + y.Size()
      case Select(c, x, y) => 1 + c.Size() + x.Size() + y.Size()
    }

    predicate MarkerFree() {
      match this
      case Leaf(_) => true
      case Unary(op, x) => !op.Semantic? && x.MarkerFree()
      case Binary(_, x, y) => x.MarkerFree() && y.MarkerFree()
      case Select(c, x, y) => c.MarkerFree() && x.MarkerFree() && y.MarkerFree()
    }

    /** The per-element lanes the expression reads. */
    ghost function Lanes(): set<nat> {
      match this
      case Leaf(op) => if op.Input? then {op.lane} else {}
      case Unary(_, x) => x.Lanes()
      case Binary(_, x, y) => x.Lanes() + y.Lanes()
      case Select(c, x, y) => c.Lanes() + x.Lanes() + y.Lanes()
    }
  }

  // ----- Meaning

  /** Operations on the evaluator's register type; float arithmetic itself stays uninterpreted. */
  datatype Scalars<!T> = Scalars(
    fromBits: Bits -> T,
    cast: (T, DType) -> T,
    math: (UnaryOp, T) -> T,
    powf: (T, Bits) -> T,
    arithmetic: (BinaryOp, T, T) -> T,
    pick: (T, T, T) -> T,
    marker: (nat, DType, T) -> T)

  datatype Env<!T> = Env(lane: nat -> T, scalar: nat -> T)

  const HALF: Bits := 0x3FE0_0000_0000_0000
  const ONE: Bits := 0x3FF0_0000_0000_0000
  const FRAC_1_SQRT_2: Bits := 0x3FE6_A09E_667F_3BCD
  const GELU_CUBIC: Bits := 0x3FA6_E4E2_6D48_01F7
  const SQRT_2_OVER_PI: Bits := 0x3FE9_8845_33D4_3651

  function LeafValue<T>(s: Scalars<T>, env: Env<T>, op: LeafOp): T {
    match op
    case Input(k) => env.lane(k)
    case Scalar(k) => env.scalar(k)
    case Const(bits) => s.fromBits(bits)
  }

  /** What one unary evaluator step computes from its operand. */
  function UnaryValue<T>(s: Scalars<T>, op: UnaryOp, x: T): T {
    var (mul, add) := ((a: T, b: T) => s.arithmetic(Mul, a, b), (a: T, b: T) => s.arithmetic(Add, a, b));
    match op
    case Cast(dtype) => s.cast(x, dtype)
    case RoundTo(dtype) => s.cast(x, dtype)
    case Semantic(node, dtype) => s.marker(node, dtype, x)
    case Powf(exponent) => s.powf(x, exponent)
    case Gelu =>
      var inner := s.math(Erf, mul(x, s.fromBits(FRAC_1_SQRT_2)));
      mul(mul(x, s.fromBits(HALF)), add(s.fromBits(ONE), inner))
    case GeluTanh =>
      var u := mul(add(x, mul(mul(mul(x, x), x), s.fromBits(GELU_CUBIC))), s.fromBits(SQRT_2_OVER_PI));
      mul(mul(x, s.fromBits(HALF)), add(s.fromBits(ONE), s.math(Tanh, u)))
    case _ => s.math(op, x)
  }

  /** The recursive meaning of an expression. */
  function Meaning<T>(s: Scalars<T>, env: Env<T>, e: Expr): T {
    match e
    case Leaf(op) => LeafValue(s, env, op)
    case Unary(op, x) => UnaryValue(s, op, Meaning(s, env, x))
    case Binary(op, x, y) => s.arithmetic(op, Meaning(s, env, x), Meaning(s, env, y))
    case Select(c, x, y) => s.pick(Meaning(s, env, c), Meaning(s, env, x), Meaning(s, env, y))
  }

  // ----- Flattening

  datatype Flat = FlatLeaf(leaf: LeafOp) | FlatUnary(unary: UnaryOp) | FlatBinary(binary: BinaryOp) | FlatSelect

  function Token(e: Expr): Flat {
    match e
    case Leaf(op) => FlatLeaf(op)
    case Unary(op, _) => FlatUnary(op)
    case Binary(op, _, _) => FlatBinary(op)
    case Select(_, _, _) => FlatSelect
  }

  function Postorder(e: Expr): seq<Flat> {
    match e
    case Leaf(_) => [Token(e)]
    case Unary(_, x) => Postorder(x) + [Token(e)]
    case Binary(_, x, y) => Postorder(x) + Postorder(y) + [Token(e)]
    case Select(c, x, y) => Postorder(c) + Postorder(x) + Postorder(y) + [Token(e)]
  }

  /** A worklist entry: a node, and whether its children have been emitted. */
  type Work = (Expr, bool)

  /** What a worklist has yet to emit; its last entry is popped first. */
  ghost function Pending(stack: seq<Work>): seq<Flat> {
    if stack == [] then []
    else
      var (e, processed) := stack[|stack| - 1];
      (if processed then [Token(e)] else Postorder(e)) + Pending(stack[..|stack| - 1])
  }

  ghost function Effort(stack: seq<Work>): nat {
    if stack == [] then 0
    else
      var (e, processed) := stack[|stack| - 1];
      (if processed then 1 else 2 * e.Size()) + Effort(stack[..|stack| - 1])
  }

  lemma PendingPush(stack: seq<Work>, w: Work)
    ensures Pending(stack + [w]) == (if w.1 then [Token(w.0)] else Postorder(w.0)) + Pending(stack)
    ensures Effort(stack + [w]) == (if w.1 then 1 else 2 * w.0.Size()) + Effort(stack)
  {
    assert (stack + [w])[..|stack|] == stack;
  }

  /** The children of a node pushed last to first. */
  function PushChildren(stack: seq<Work>, children: seq<Expr>): seq<Work>
    decreases |children|
  {
    if children == [] then stack
    else PushChildren(stack + [(children[|children| - 1], false)], children[..|children| - 1])
  }

  lemma Reassociate(a: seq<Flat>, b: seq<Flat>, c: seq<Flat>, d: seq<Flat>, rest: seq<Flat>)
    ensures a + (d + rest) == (a + d) + rest
    ensures a + (b + (d + rest)) == (a + b + d) + rest
    ensures a + (b + (c + (d + rest))) == (a + b + c + d) + rest
  {
  }

  lemma ExpandPending(stack: seq<Work>, e: Expr)
    ensures Pending(PushChildren(stack + [(e, true)], e.Children())) == Postorder(e) + Pending(stack)
    ensures Effort(PushChildren(stack + [(e, true)], e.Children())) < 2 * e.Size() + Effort(stack)
  {
    var marked := stack + [(e, true)];
    PendingPush(stack, (e, true));
    match e
    case Leaf(_) =>
    case Unary(_, x) =>
      PendingPush(marked, (x, false));
      PushOne(marked, x);
      Reassociate(Postorder(x), [], [], [Token(e)], Pending(stack));
    case Binary(_, x, y) =>
      PendingPush(marked, (y, false));
      PendingPush(marked + [(y, false)], (x, false));
      PushTwo(marked, x, y);
      Reassociate(Postorder(x), Postorder(y), [], [Token(e)], Pending(stack));
    case Select(c, x, y) =>
      PendingPush(marked, (y, false));
      PendingPush(marked + [(y, false)], (x, false));
      PendingPush(marked + [(y, false)] + [(x, false)], (c, false));
      PushThree(marked, c, x, y);
      Reassociate(Postorder(c), Postorder(x), Postorder(y), [Token(e)], Pending(stack));
  }

  lemma PushOne(stack: seq<Work>, x: Expr)
    ensures PushChildren(stack, [x]) == stack + [(x, false)]
  {
    assert [x][..0] == [];
  }

  lemma PushTwo(stack: seq<Work>, x: Expr, y: Expr)
    ensures PushChildren(stack, [x, y]) == stack + [(y, false)] + [(x, false)]
  {
    assert [x, y][..1] == [x];
    PushOne(stack + [(y, false)], x);
  }

  lemma PushThree(stack: seq<Work>, x: Expr, y: Expr, z: Expr)
    ensures PushChildren(stack, [x, y, z]) == stack + [(z, false)] + [(y, false)] + [(x, false)]
  {
    assert [x, y, z][..2] == [x, y];
    PushTwo(stack + [(z, false)], x, y);
  }

  /** The worklist walk appends exactly the postorder of the tree. */
  method FlattenInto(e: Expr, out: seq<Flat>) returns (r: seq<Flat>)
    ensures r == out + Postorder(e)
  {
    var stack: seq<Work> := [(e, false)];
    r := out;
    PendingPush([], (e, false));
    assert [] + stack == stack;
    while stack != []
      invariant r + Pending(stack) == out + Postorder(e)
      decreases Effort(stack)
    {
      var (node, processed) := stack[|stack| - 1];
      var rest := stack[..|stack| - 1];
      stack := rest;
      if processed {
        r := r + [Token(node)];
        continue;
      }
      ExpandPending(rest, node);
      stack := stack + [(node, true)];
      match node {
        case Leaf(_) =>
        case Unary(_, x) =>
          PushOne(stack, x);
          stack := stack + [(x, false)];
        case Binary(_, x, y) =>
          PushTwo(stack, x, y);
          stack := stack + [(y, false)] + [(x, false)];
        case Select(c, x, y) =>
          PushThree(stack, c, x, y);
          stack := stack + [(y, false)] + [(x, false)] + [(c, false)];
      }
    }
  }

  // ----- Equality by plans

  /** The plan of a node's children, without the node's own token. */
  function Body(e: Expr): seq<Flat> {
    match e
    case Leaf(_) => []
    case Unary(_, x) => Postorder(x)
    case Binary(_, x, y) => Postorder(x) + Postorder(y)
    case Select(c, x, y) => Postorder(c) + Postorder(x) + Postorder(y)
  }

  lemma TokensAgree(e: Expr, f: Expr, x: seq<Flat>, y: seq<Flat>)
    requires x + Postorder(e) == y + Postorder(f)
    ensures Token(e) == Token(f) && x + Body(e) == y + Body(f)
  {
    assert Postorder(e) == Body(e) + [Token(e)] && Postorder(f) == Body(f) + [Token(f)];
    var p, q := x + Body(e), y + Body(f);
    assert x + Postorder(e) == p + [Token(e)] && y + Postorder(f) == q + [Token(f)];
    assert (p + [Token(e)])[|p|] == Token(e) && (q + [Token(f)])[|q|] == Token(f);
    assert (p + [Token(e)])[..|p|] == p && (q + [Token(f)])[..|q|] == q;
  }

  lemma Shift(x: seq<Flat>, a: seq<Flat>, b: seq<Flat>, c: seq<Flat>)
    ensures x + (a + c) == (x + a) + c
    ensures x + (a + b + c) == (x + a + b) + c
  {
  }

  lemma Shift4(x: seq<Flat>, a: seq<Flat>, b: seq<Flat>, c: seq<Flat>, d: seq<Flat>)
    ensures x + (a + b + c + d) == x + a + b + c + d
  {
  }

  /** Two plans that end with whole postorders and agree, agree tree by tree. */
  lemma {:induction false} PostorderUnique(e: Expr, f: Expr, x: seq<Flat>, y: seq<Flat>)
    requires x + Postorder(e) == y + Postorder(f)
    ensures e == f && x == y
    decreases e
  {
    TokensAgree(e, f, x, y);
    match e
    case Leaf(_) =>
      assert x + [] == x && y + [] == y;
    case Unary(_, a) =>
      PostorderUnique(a, f.a, x, y);
    case Binary(_, a, b) =>
      Shift(x, Postorder(a), [], Postorder(b));
      Shift(y, Postorder(f.a), [], Postorder(f.b));
      PostorderUnique(b, f.b, x + Postorder(a), y + Postorder(f.a));
      PostorderUnique(a, f.a, x, y);
    case Select(c, a, b) =>
      Shift(x, Postorder(c), Postorder(a), Postorder(b));
      Shift(y, Postorder(f.cond), Postorder(f.a), Postorder(f.b));
      PostorderUnique(b, f.b, x + Postorder(c) + Postorder(a), y + Postorder(f.cond) + Postorder(f.a));
      PostorderUnique(a, f.a, x + Postorder(c), y + Postorder(f.cond));
      PostorderUnique(c, f.cond, x, y);
  }

  /** `eq` compares flattened plans, and that is structural equality. */
  method Equal(e: Expr, f: Expr) returns (r: bool)
    ensures r <==> e == f
  {
    var p := FlattenInto(e, []);
    var q := FlattenInto(f, []);
    if p == q {
      PostorderUnique(e, f, [], []);
    }
    r := p == q;
  }
}
