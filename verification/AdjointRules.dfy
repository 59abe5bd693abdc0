/** The adjoint of each operation: the contributions a cotangent makes to the operands, as new graph nodes. */
module AdjointRules {
  import opened DTypes
  import opened Wrappers
  import opened Dag
  import opened InnerProduct
  import opened ScalarGraph

  datatype GradError = NonFloatLoss | NonFloatTarget(index: nat) | NotDifferentiable(tag: nat)

  /** The process-wide id counter and the node constructors that draw from it. */
  class NodeIds {
    var next: nat

    constructor (first: nat)
      ensures next == first
    {
      next := first;
    }

    method Make(kind: Kind, dtype: DType, args: seq<Term>) returns (n: Term)
      modifies this
      ensures n == Node(old(next), Op(kind, dtype), args) && next == old(next) + 1
    {
      n := Node(next, Op(kind, dtype), args);
      next := next + 1;
    }

    method Full(value: real, dtype: DType) returns (n: Term)
      modifies this
      ensures n.id == old(next) && next == old(next) + 1 && forall w: World :: Eval(w, n) == value
    {
      n := Make(Constant(value), dtype, []);
      forall w: World { EvalIs(w, n); }
    }

    method Sum(a: Term, b: Term) returns (n: Term)
      modifies this
      ensures n.id == old(next) && next == old(next) + 1 && forall w: World :: Eval(w, n) == Eval(w, a) + Eval(w, b)
    {
      n := Make(Kind.Add, a.op.dtype, [a, b]);
      forall w: World { EvalIs(w, n); }
    }

    method Difference(a: Term, b: Term) returns (n: Term)
      modifies this
      ensures n.id == old(next) && next == old(next) + 1 && forall w: World :: Eval(w, n) == Eval(w, a) - Eval(w, b)
    {
      n := Make(Kind.Sub, a.op.dtype, [a, b]);
      forall w: World { EvalIs(w, n); }
    }

    method Product(a: Term, b: Term) returns (n: Term)
      modifies this
      ensures n.id == old(next) && next == old(next) + 1 && forall w: World :: Eval(w, n) == Eval(w, a) * Eval(w, b)
    {
      n := Make(Kind.Mul, a.op.dtype, [a, b]);
      forall w: World { EvalIs(w, n); }
    }

    method Ratio(a: Term, b: Term) returns (n: Term)
      modifies this
      ensures n.id == old(next) && next == old(next) + 1 && forall w: World :: Eval(w, n) == Quot(Eval(w, a), Eval(w, b))
    {
      n := Make(Kind.Div, a.op.dtype, [a, b]);
      forall w: World { EvalIs(w, n); }
    }

    method Negated(a: Term) returns (n: Term)
      modifies this
      ensures n.id == old(next) && next == old(next) + 1 && forall w: World :: Eval(w, n) == -Eval(w, a)
    {
      n := Make(Kind.Neg, a.op.dtype, [a]);
      forall w: World { EvalIs(w, n); }
    }

    method Applied(f: Elementary, a: Term) returns (n: Term)
      modifies this
      ensures n.id == old(next) && next == old(next) + 1 && forall w: World :: Eval(w, n) == w.elementary(f, Eval(w, a))
    {
      n := Make(Apply(f), a.op.dtype, [a]);
      forall w: World { EvalIs(w, n); }
    }

    /** A comparison, which is an integer, as a mask of the given floating-point type. */
    method Mask(relation: Relation, a: Term, b: Term, dtype: DType) returns (n: Term)
      requires dtype.IsFloat()
      modifies this
      ensures next == old(next) + 2
      ensures forall w: World :: Eval(w, n) == Truth(relation.Holds(Eval(w, a), Eval(w, b)))
    {
      var mask := Make(Compare(relation), U8, [a, b]);
      n := Make(Cast, dtype, [mask]);
      forall w: World
        ensures Eval(w, n) == Truth(relation.Holds(Eval(w, a), Eval(w, b)))
      {
        EvalIs(w, mask);
        EvalIs(w, n);
      }
    }

    method Chosen(cond: Term, a: Term, b: Term, dtype: DType) returns (n: Term)
      modifies this
      ensures n.id == old(next) && next == old(next) + 1
      ensures forall w: World :: Eval(w, n) == if Eval(w, cond) != 0.0 then Eval(w, a) else Eval(w, b)
    {
      n := Make(Kind.Where, dtype, [cond, a, b]);
      forall w: World { EvalIs(w, n); }
    }
  }

  // ----- Contributions

  ghost function Contributed(w: World, out: seq<(Term, Term)>): (vs: seq<real>)
    ensures |vs| == |out| && forall k :: 0 <= k < |out| ==> vs[k] == Eval(w, out[k].1)
  {
    seq(|out|, k requires 0 <= k < |out| => Eval(w, out[k].1))
  }

  ghost function InputTangents(w: World, t: nat, out: seq<(Term, Term)>): (ts: seq<real>)
    ensures |ts| == |out| && forall k :: 0 <= k < |out| ==> ts[k] == Tangent(w, t, out[k].0)
  {
    seq(|out|, k requires 0 <= k < |out| => Tangent(w, t, out[k].0))
  }

  /** What contributions carry on: the sum of each one times the tangent of the node it goes to. */
  ghost function Flow(w: World, t: nat, out: seq<(Term, Term)>): real {
    Dot(Contributed(w, out), InputTangents(w, t, out))
  }

  lemma FlowOfOne(w: World, t: nat, a: Term, ga: Term, x: real, y: real)
    requires x == Eval(w, ga) && y == Tangent(w, t, a)
    ensures Flow(w, t, [(a, ga)]) == x * y
  {
    assert Contributed(w, [(a, ga)]) == [x];
    assert InputTangents(w, t, [(a, ga)]) == [y];
    DotOfOne(x, y);
  }

  lemma FlowOfTwo(w: World, t: nat, a: Term, ga: Term, b: Term, gb: Term, x0: real, y0: real, x1: real, y1: real)
    requires x0 == Eval(w, ga) && y0 == Tangent(w, t, a) && x1 == Eval(w, gb) && y1 == Tangent(w, t, b)
    ensures Flow(w, t, [(a, ga), (b, gb)]) == x0 * y0 + x1 * y1
  {
    var out := [(a, ga), (b, gb)];
    assert Contributed(w, out) == [x0, x1];
    assert InputTangents(w, t, out) == [y0, y1];
    DotOfTwo(x0, x1, y0, y1);
  }

  /** The contributions go to operands and account for exactly the cotangent times the tangent of the node. */
  ghost predicate Adjoint(node: Term, g: Term, out: seq<(Term, Term)>) {
    && (forall i :: 0 <= i < |out| ==> out[i].0 in node.args)
    && (forall w: World, t: nat :: t != node.id ==> Flow(w, t, out) == Eval(w, g) * Tangent(w, t, node))
  }

  // ----- Proofs that contributions are adjoint

  lemma AdjointOfOne(node: Term, g: Term, ga: Term)
    requires |node.args| == 1
    requires forall w: World, t: nat :: t != node.id ==>
      Eval(w, ga) * Tangent(w, t, node.args[0]) == Eval(w, g) * Tangent(w, t, node)
    ensures Adjoint(node, g, [(node.args[0], ga)])
  {
    var a := node.args[0];
    forall w: World, t: nat | t != node.id
      ensures Flow(w, t, [(a, ga)]) == Eval(w, g) * Tangent(w, t, node)
    {
      FlowOfOne(w, t, a, ga, Eval(w, ga), Tangent(w, t, a));
    }
  }

  /** Contributions to the two listed operands. */
  lemma AdjointOfTwo(node: Term, g: Term, a: Term, ga: Term, b: Term, gb: Term)
    requires a in node.args && b in node.args
    requires forall w: World, t: nat :: t != node.id ==>
      Eval(w, ga) * Tangent(w, t, a) + Eval(w, gb) * Tangent(w, t, b) == Eval(w, g) * Tangent(w, t, node)
    ensures Adjoint(node, g, [(a, ga), (b, gb)])
  {
    forall w: World, t: nat | t != node.id
      ensures Flow(w, t, [(a, ga), (b, gb)]) == Eval(w, g) * Tangent(w, t, node)
    {
      FlowOfTwo(w, t, a, ga, b, gb, Eval(w, ga), Tangent(w, t, a), Eval(w, gb), Tangent(w, t, b));
    }
  }

  /** The tangent of a differentiable unary node. */
  lemma UnaryTangent(w: World, t: nat, node: Term)
    requires |node.args| == 1 && node.op.dtype.IsFloat() && t != node.id
    ensures Tangent(w, t, node) == Rate(w, node.op.kind, [Eval(w, node.args[0])], [Tangent(w, t, node.args[0])])
  {
    TangentIs(w, t, node);
    assert Evals(w, node.args) == [Eval(w, node.args[0])];
    assert Tangents(w, t, node.args) == [Tangent(w, t, node.args[0])];
  }

  lemma BinaryTangent(w: World, t: nat, node: Term)
    requires |node.args| == 2 && node.op.dtype.IsFloat() && t != node.id
    ensures Tangent(w, t, node)
            == Rate(w, node.op.kind, [Eval(w, node.args[0]), Eval(w, node.args[1])],
                    [Tangent(w, t, node.args[0]), Tangent(w, t, node.args[1])])
  {
    TangentIs(w, t, node);
    assert Evals(w, node.args) == [Eval(w, node.args[0]), Eval(w, node.args[1])];
    assert Tangents(w, t, node.args) == [Tangent(w, t, node.args[0]), Tangent(w, t, node.args[1])];
  }

  lemma ProductRule(g: real, va: real, vb: real, ta: real, tb: real)
    ensures (g * vb) * ta + (g * va) * tb == g * (ta * vb + va * tb)
  {
  }

  lemma QuotByProduct(g: real, x: real, y: real)
    ensures Quot(g * x, y) == g * Quot(x, y) && Quot(x * g, y) == Quot(x, y) * g
  {
  }

  lemma QuotientRule(g: real, va: real, vb: real, square: real, ta: real, tb: real)
    ensures Quot(g, vb) * ta + (-Quot(g * va, square)) * tb == g * (Quot(ta, vb) - Quot(va * tb, square))
  {
    QuotByProduct(g, ta, vb);
    QuotByProduct(ta, g, vb);
    QuotByProduct(g, va * tb, square);
    QuotByProduct(tb, g * va, square);
    assert (g * va) * tb == g * (va * tb);
    Distribute(g, Quot(g, vb), Quot(g * va, square), ta, tb, Quot(ta, vb), Quot(va * tb, square));
  }

  lemma Distribute(g: real, x: real, y: real, ta: real, tb: real, u: real, v: real)
    requires x * ta == g * u && y * tb == g * v
    ensures x * ta + (-y) * tb == g * (u - v)
  {
  }

  lemma SqrtRule(g: real, s: real)
    ensures Quot(g * 0.5, s) == g * Quot(1.0, 2.0 * s)
  {
    if s != 0.0 {
      assert 1.0 / (2.0 * s) == 0.5 / s;
      assert g * 0.5 / s == g * (0.5 / s);
    }
  }

  // ----- The rules

  method AddRule(ids: NodeIds, node: Term, g: Term) returns (out: seq<(Term, Term)>)
    requires node.op.kind == Kind.Add && |node.args| == 2 && node.op.dtype.IsFloat()
    ensures Adjoint(node, g, out)
  {
    var a, b := node.args[0], node.args[1];
    forall w: World, t: nat | t != node.id
      ensures Eval(w, g) * Tangent(w, t, a) + Eval(w, g) * Tangent(w, t, b) == Eval(w, g) * Tangent(w, t, node)
    {
      BinaryTangent(w, t, node);
    }
    AdjointOfTwo(node, g, a, g, b, g);
    out := [(a, g), (b, g)];
  }

  method SubRule(ids: NodeIds, node: Term, g: Term) returns (out: seq<(Term, Term)>)
    requires node.op.kind == Kind.Sub && |node.args| == 2 && node.op.dtype.IsFloat()
    modifies ids
    ensures ids.next >= old(ids.next) && Adjoint(node, g, out)
  {
    var a, b := node.args[0], node.args[1];
    var gb := ids.Negated(g);
    forall w: World, t: nat | t != node.id
      ensures Eval(w, g) * Tangent(w, t, a) + Eval(w, gb) * Tangent(w, t, b) == Eval(w, g) * Tangent(w, t, node)
    {
      BinaryTangent(w, t, node);
    }
    AdjointOfTwo(node, g, a, g, b, gb);
    out := [(a, g), (b, gb)];
  }

  method MulRule(ids: NodeIds, node: Term, g: Term) returns (out: seq<(Term, Term)>)
    requires node.op.kind == Kind.Mul && |node.args| == 2 && node.op.dtype.IsFloat()
    modifies ids
    ensures ids.next >= old(ids.next) && Adjoint(node, g, out)
  {
    var a, b := node.args[0], node.args[1];
    var ga := ids.Product(g, b);
    var gb := ids.Product(g, a);
    forall w: World, t: nat | t != node.id
      ensures Eval(w, ga) * Tangent(w, t, a) + Eval(w, gb) * Tangent(w, t, b) == Eval(w, g) * Tangent(w, t, node)
    {
      BinaryTangent(w, t, node);
      ProductRule(Eval(w, g), Eval(w, a), Eval(w, b), Tangent(w, t, a), Tangent(w, t, b));
    }
    AdjointOfTwo(node, g, a, ga, b, gb);
    out := [(a, ga), (b, gb)];
  }

  lemma DivTangent(w: World, t: nat, node: Term, va: real, vb: real, square: real, ta: real, tb: real)
    requires node.op.kind == Kind.Div && |node.args| == 2 && node.op.dtype.IsFloat() && t != node.id
    requires va == Eval(w, node.args[0]) && vb == Eval(w, node.args[1]) && square == vb * vb
    requires ta == Tangent(w, t, node.args[0]) && tb == Tangent(w, t, node.args[1])
    ensures Tangent(w, t, node) == Quot(ta, vb) - Quot(va * tb, square)
  {
    BinaryTangent(w, t, node);
  }

  method DivRule(ids: NodeIds, node: Term, g: Term) returns (out: seq<(Term, Term)>)
    requires node.op.kind == Kind.Div && |node.args| == 2 && node.op.dtype.IsFloat()
    modifies ids
    ensures ids.next >= old(ids.next) && Adjoint(node, g, out)
  {
    var a, b := node.args[0], node.args[1];
    var ga := ids.Ratio(g, b);
    var numerator := ids.Product(g, a);
    var denominator := ids.Product(b, b);
    var ratio := ids.Ratio(numerator, denominator);
    var gb := ids.Negated(ratio);
    forall w: World, t: nat | t != node.id
      ensures Eval(w, ga) * Tangent(w, t, a) + Eval(w, gb) * Tangent(w, t, b) == Eval(w, g) * Tangent(w, t, node)
    {
      var va, vb, square := Eval(w, a), Eval(w, b), Eval(w, denominator);
      var ta, tb := Tangent(w, t, a), Tangent(w, t, b);
      DivTangent(w, t, node, va, vb, square, ta, tb);
      QuotientRule(Eval(w, g), va, vb, square, ta, tb);
    }
    AdjointOfTwo(node, g, a, ga, b, gb);
    out := [(a, ga), (b, gb)];
  }

  /** Ties route the cotangent to the left operand. */
  method ExtremumRule(ids: NodeIds, node: Term, g: Term) returns (out: seq<(Term, Term)>)
    requires node.op.kind == Kind.Maximum || node.op.kind == Kind.Minimum
    requires |node.args| == 2 && node.op.dtype.IsFloat()
    modifies ids
    ensures ids.next >= old(ids.next) && Adjoint(node, g, out)
  {
    var a, b := node.args[0], node.args[1];
    var maskA, maskB;
    if node.op.kind == Kind.Maximum {
      maskA := ids.Mask(AtLeast, a, b, node.op.dtype);
      maskB := ids.Mask(Less, a, b, node.op.dtype);
    } else {
      maskA := ids.Mask(AtMost, a, b, node.op.dtype);
      maskB := ids.Mask(Greater, a, b, node.op.dtype);
    }
    var ga := ids.Product(g, maskA);
    var gb := ids.Product(g, maskB);
    forall w: World, t: nat | t != node.id
      ensures Eval(w, ga) * Tangent(w, t, a) + Eval(w, gb) * Tangent(w, t, b) == Eval(w, g) * Tangent(w, t, node)
    {
      BinaryTangent(w, t, node);
      SelectionRule(Eval(w, g), Eval(w, maskA), Eval(w, maskB), Tangent(w, t, a), Tangent(w, t, b));
    }
    AdjointOfTwo(node, g, a, ga, b, gb);
    out := [(a, ga), (b, gb)];
  }

  lemma SelectionRule(g: real, ma: real, mb: real, ta: real, tb: real)
    requires (ma == 1.0 && mb == 0.0) || (ma == 0.0 && mb == 1.0)
    ensures (g * ma) * ta + (g * mb) * tb == g * (if ma == 1.0 then ta else tb)
  {
  }

  lemma ScaledRule(ga: real, g: real, s: real, ta: real)
    requires ga == g * s
    ensures ga * ta == g * (s * ta)
  {
  }

  /** One contribution that scales the cotangent by the slope `s` of the operation. */
  lemma AdjointByScale(node: Term, g: Term, ga: Term, s: World -> real)
    requires |node.args| == 1
    requires forall w: World :: Eval(w, ga) == Eval(w, g) * s(w)
    requires forall w: World, t: nat :: t != node.id ==> Tangent(w, t, node) == s(w) * Tangent(w, t, node.args[0])
    ensures Adjoint(node, g, [(node.args[0], ga)])
  {
    forall w: World, t: nat | t != node.id
      ensures Eval(w, ga) * Tangent(w, t, node.args[0]) == Eval(w, g) * Tangent(w, t, node)
    {
      ScaledRule(Eval(w, ga), Eval(w, g), s(w), Tangent(w, t, node.args[0]));
    }
    AdjointOfOne(node, g, ga);
  }

  /** The operation passes its operand's tangent through unscaled. */
  method PassRule(ids: NodeIds, node: Term, g: Term) returns (out: seq<(Term, Term)>)
    requires node.op.kind.Expose?
    requires |node.args| == 1 && node.op.dtype.IsFloat()
    ensures Adjoint(node, g, out)
  {
    forall w: World, t: nat | t != node.id
      ensures Eval(w, g) * Tangent(w, t, node.args[0]) == Eval(w, g) * Tangent(w, t, node)
    {
      UnaryTangent(w, t, node);
    }
    AdjointOfOne(node, g, g);
    out := [(node.args[0], g)];
  }

  method NegRule(ids: NodeIds, node: Term, g: Term) returns (out: seq<(Term, Term)>)
    requires node.op.kind == Kind.Neg && |node.args| == 1 && node.op.dtype.IsFloat()
    modifies ids
    ensures ids.next >= old(ids.next) && Adjoint(node, g, out)
  {
    var ga := ids.Negated(g);
    forall w: World, t: nat | t != node.id
      ensures Tangent(w, t, node) == -1.0 * Tangent(w, t, node.args[0])
    {
      UnaryTangent(w, t, node);
    }
    AdjointByScale(node, g, ga, w => -1.0);
    out := [(node.args[0], ga)];
  }

  /** The sign of the operand, as the difference of two masks. */
  method AbsRule(ids: NodeIds, node: Term, g: Term) returns (out: seq<(Term, Term)>)
    requires node.op.kind == Kind.Abs && |node.args| == 1 && node.op.dtype.IsFloat()
    modifies ids
    ensures ids.next >= old(ids.next) && Adjoint(node, g, out)
  {
    var a := node.args[0];
    var zero := ids.Full(0.0, a.op.dtype);
    var positive := ids.Mask(Greater, a, zero, node.op.dtype);
    var negative := ids.Mask(Less, a, zero, node.op.dtype);
    var sign := ids.Difference(positive, negative);
    var ga := ids.Product(g, sign);
    forall w: World, t: nat | t != node.id
      ensures Tangent(w, t, node) == Eval(w, sign) * Tangent(w, t, a)
    {
      UnaryTangent(w, t, node);
    }
    AdjointByScale(node, g, ga, w => Eval(w, sign));
    out := [(a, ga)];
  }

  method ReluRule(ids: NodeIds, node: Term, g: Term) returns (out: seq<(Term, Term)>)
    requires node.op.kind == Kind.Relu && |node.args| == 1 && node.op.dtype.IsFloat()
    modifies ids
    ensures ids.next >= old(ids.next) && Adjoint(node, g, out)
  {
    var a := node.args[0];
    var zero := ids.Full(0.0, a.op.dtype);
    var mask := ids.Mask(Greater, a, zero, node.op.dtype);
    var ga := ids.Product(g, mask);
    forall w: World, t: nat | t != node.id
      ensures Tangent(w, t, node) == Eval(w, mask) * Tangent(w, t, a)
    {
      UnaryTangent(w, t, node);
    }
    AdjointByScale(node, g, ga, w => Eval(w, mask));
    out := [(a, ga)];
  }

  lemma ElementaryTangent(node: Term, f: Elementary)
    requires node.op.kind == Apply(f) && |node.args| == 1 && node.op.dtype.IsFloat()
    ensures forall w: World, t: nat :: t != node.id ==>
      Tangent(w, t, node) == Slope(w, f, Eval(w, node.args[0])) * Tangent(w, t, node.args[0])
    ensures forall w: World :: Eval(w, node) == w.elementary(f, Eval(w, node.args[0]))
  {
    forall w: World, t: nat | t != node.id
      ensures Tangent(w, t, node) == Slope(w, f, Eval(w, node.args[0])) * Tangent(w, t, node.args[0])
    {
      UnaryTangent(w, t, node);
    }
    forall w: World
      ensures Eval(w, node) == w.elementary(f, Eval(w, node.args[0]))
    {
      EvalIs(w, node);
    }
  }

  /** The node that scales the cotangent by the slope of an elementary function. */
  method Scaled(ids: NodeIds, f: Elementary, node: Term, g: Term) returns (ga: Term)
    requires node.op.kind == Apply(f) && |node.args| == 1 && node.op.dtype.IsFloat()
    modifies ids
    ensures ids.next >= old(ids.next)
    ensures forall w: World :: Eval(w, ga) == Eval(w, g) * Slope(w, f, Eval(w, node.args[0]))
  {
    var a := node.args[0];
    ElementaryTangent(node, f);
    match f {
      case Sqrt =>
        ga := ScaledBySqrt(ids, node, g);
      case Exp =>
        ga := ids.Product(g, node);
      case Log =>
        ga := ids.Ratio(g, a);
        forall w: World
          ensures Eval(w, ga) == Eval(w, g) * Quot(1.0, Eval(w, a))
        {
          QuotByProduct(Eval(w, g), 1.0, Eval(w, a));
        }
      case Sin =>
        var slope := ids.Applied(Cos, a);
        ga := ids.Product(g, slope);
      case Cos =>
        var sine := ids.Applied(Sin, a);
        var product := ids.Product(g, sine);
        ga := ids.Negated(product);
      case Tanh =>
        var one := ids.Full(1.0, node.op.dtype);
        var square := ids.Product(node, node);
        var negated := ids.Negated(square);
        var slope := ids.Sum(one, negated);
        ga := ids.Product(g, slope);
      case _ =>
        ga := ids.Full(0.0, a.op.dtype);
    }
  }

  method ScaledBySqrt(ids: NodeIds, node: Term, g: Term) returns (ga: Term)
    requires node.op.kind == Apply(Sqrt) && |node.args| == 1 && node.op.dtype.IsFloat()
    modifies ids
    ensures ids.next >= old(ids.next)
    ensures forall w: World :: Eval(w, ga) == Eval(w, g) * Slope(w, Sqrt, Eval(w, node.args[0]))
  {
    ElementaryTangent(node, Sqrt);
    var half := ids.Full(0.5, node.op.dtype);
    var halved := ids.Product(g, half);
    ga := ids.Ratio(halved, node);
    forall w: World
      ensures Eval(w, ga) == Eval(w, g) * Slope(w, Sqrt, Eval(w, node.args[0]))
    {
      SqrtRule(Eval(w, g), Eval(w, node));
    }
  }

  method ElementaryRule(ids: NodeIds, node: Term, g: Term) returns (out: seq<(Term, Term)>)
    requires node.op.kind.Apply? && |node.args| == 1 && node.op.dtype.IsFloat()
    modifies ids
    ensures ids.next >= old(ids.next) && Adjoint(node, g, out)
  {
    var a, f := node.args[0], node.op.kind.function_;
    var ga := Scaled(ids, f, node, g);
    ElementaryTangent(node, f);
    AdjointByScale(node, g, ga, w => Slope(w, f, Eval(w, a)));
    out := [(a, ga)];
  }

  lemma WhereTangent(w: World, t: nat, node: Term)
    requires node.op.kind == Kind.Where && |node.args| == 3 && node.op.dtype.IsFloat() && t != node.id
    ensures Tangent(w, t, node)
            == if Eval(w, node.args[0]) != 0.0 then Tangent(w, t, node.args[1]) else Tangent(w, t, node.args[2])
  {
    TangentIs(w, t, node);
    assert Evals(w, node.args)[0] == Eval(w, node.args[0]);
  }

  method WhereRule(ids: NodeIds, node: Term, g: Term) returns (out: seq<(Term, Term)>)
    requires node.op.kind == Kind.Where && |node.args| == 3 && node.op.dtype.IsFloat()
    modifies ids
    ensures ids.next >= old(ids.next) && Adjoint(node, g, out)
  {
    var cond, a, b := node.args[0], node.args[1], node.args[2];
    var zero := ids.Full(0.0, node.op.dtype);
    var ga := ids.Chosen(cond, g, zero, node.op.dtype);
    var gb := ids.Chosen(cond, zero, g, node.op.dtype);
    forall w: World, t: nat | t != node.id
      ensures Eval(w, ga) * Tangent(w, t, a) + Eval(w, gb) * Tangent(w, t, b) == Eval(w, g) * Tangent(w, t, node)
    {
      WhereTangent(w, t, node);
    }
    AdjointOfTwo(node, g, a, ga, b, gb);
    out := [(a, ga), (b, gb)];
  }

  /** Nothing flows to the operands of a source, a constant or a stopped gradient, which do not vary. */
  lemma NothingIsAdjoint(node: Term, g: Term)
    requires node.op.kind.Source? || node.op.kind.Constant? || node.op.kind.StopGradient?
    requires node.op.dtype.IsFloat()
    ensures Adjoint(node, g, [])
  {
    forall w: World, t: nat | t != node.id
      ensures Flow(w, t, []) == Eval(w, g) * Tangent(w, t, node)
    {
      TangentIs(w, t, node);
    }
  }

  /**
   * The contributions of a node other than a checkpoint. Only operations without an adjoint are refused.
   */
  method Propagate(ids: NodeIds, node: Term, g: Term) returns (r: Result<seq<(Term, Term)>, GradError>)
    requires Typed(node) && node.op.dtype.IsFloat() && !node.op.kind.Checkpoint?
    modifies ids
    ensures ids.next >= old(ids.next)
    ensures r.Failure? <==> node.op.kind.Barred? || node.op.kind.Opaque?
    ensures r.Success? ==> Adjoint(node, g, r.value)
  {
    var out;
    match node.op.kind {
      case Source(_) =>
        NothingIsAdjoint(node, g);
        out := [];
      case Constant(_) =>
        NothingIsAdjoint(node, g);
        out := [];
      case StopGradient =>
        NothingIsAdjoint(node, g);
        out := [];
      case Neg => out := NegRule(ids, node, g);
      case Abs => out := AbsRule(ids, node, g);
      case Relu => out := ReluRule(ids, node, g);
      case Apply(_) => out := ElementaryRule(ids, node, g);
      case Add => out := AddRule(ids, node, g);
      case Sub => out := SubRule(ids, node, g);
      case Mul => out := MulRule(ids, node, g);
      case Div => out := DivRule(ids, node, g);
      case Maximum => out := ExtremumRule(ids, node, g);
      case Minimum => out := ExtremumRule(ids, node, g);
      case Where => out := WhereRule(ids, node, g);
      case Cast => out := CastRule(ids, node, g);
      case Expose => out := PassRule(ids, node, g);
      case Barred(tag) => return Failure(NotDifferentiable(tag));
      case Opaque(tag) => return Failure(NotDifferentiable(tag));
      case Compare(_) => assert false;
      case Checkpoint => assert false;
    }
    return Success(out);
  }

  /** A cast carries the cotangent back, in the operand's type, unless the operand is an integer. */
  method CastRule(ids: NodeIds, node: Term, g: Term) returns (out: seq<(Term, Term)>)
    requires node.op.kind == Kind.Cast && |node.args| == 1 && node.op.dtype.IsFloat()
    modifies ids
    ensures ids.next >= old(ids.next) && Adjoint(node, g, out)
  {
    var a := node.args[0];
    out := [];
    forall w: World, t: nat | t != node.id
      ensures Tangent(w, t, node) == Tangent(w, t, a)
      ensures !a.op.dtype.IsFloat() ==> Tangent(w, t, a) == 0.0
    {
      UnaryTangent(w, t, node);
      TangentIs(w, t, a);
    }
    if a.op.dtype.IsFloat() {
      var ga := g;
      if g.op.dtype != a.op.dtype {
        ga := ids.Make(Kind.Cast, a.op.dtype, [g]);
        forall w: World
          ensures Eval(w, ga) == Eval(w, g)
        {
          EvalIs(w, ga);
        }
      }
      AdjointOfOne(node, g, ga);
      out := [(a, ga)];
    }
  }
}
