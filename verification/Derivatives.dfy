/**
 * Forward-mode tangents are derivatives: as the value of a leaf varies, the value of a node changes at the rate of its
 * tangent, wherever no operation on the way has a kink.
 */
module Derivatives {
  import opened DTypes
  import opened Dag
  import opened ScalarGraph
  import opened Calculus
  import opened Exposure
  import opened Autodiff

  // ----- Varying a leaf

  /** The world in which the source numbered `t` holds `h` more. */
  ghost function Shift(w: World, t: nat, h: real): World {
    w.(source := (x: nat) => if x == t then w.source(x) + h else w.source(x))
  }

  /** The value of a node as the source `t` moves. */
  ghost function Path(w: World, t: nat, n: Term): real -> real {
    (h: real) => Eval(Shift(w, t, h), n)
  }

  /** An elementary function as a function of one variable. */
  ghost function Curve(w: World, f: Elementary): real -> real {
    (y: real) => w.elementary(f, y)
  }

  ghost function Conversion(w: World, dtype: DType): real -> real {
    (y: real) => w.convert(dtype, y)
  }

  /** Worlds that agree on the sources below a node agree on its value. */
  lemma {:induction false} EvalIsLocal(w: World, v: World, n: Term)
    requires v == w.(source := v.source) && forall x :: x in Below(n) ==> v.source(x.id) == w.source(x.id)
    ensures Eval(v, n) == Eval(w, n)
    decreases n
  {
    EvalIs(w, n);
    EvalIs(v, n);
    assert n in Below(n);
    forall k | 0 <= k < |n.args|
      ensures Eval(v, n.args[k]) == Eval(w, n.args[k])
    {
      BelowAllHas(n.args, k);
      assert forall x :: x in Below(n.args[k]) ==> x in Below(n);
      EvalIsLocal(w, v, n.args[k]);
    }
    assert Evals(v, n.args) == Evals(w, n.args);
  }

  lemma PathStarts(w: World, t: nat, n: Term)
    ensures Path(w, t, n)(0.0) == Eval(w, n)
  {
    EvalIsLocal(w, Shift(w, t, 0.0), n);
  }

  /** A node that is not a source computes its value from those of its operands. */
  lemma PathIs(w: World, t: nat, n: Term, h: real)
    requires !n.op.kind.Source?
    ensures Path(w, t, n)(h) == Value(w, n.id, n.op, Evals(Shift(w, t, h), n.args))
    ensures forall k :: 0 <= k < |n.args| ==> Evals(Shift(w, t, h), n.args)[k] == Path(w, t, n.args[k])(h)
  {
    EvalIs(Shift(w, t, h), n);
  }

  // ----- Away from kinks

  /** The textbook derivatives of the elementary functions; the step functions are flat between their steps. */
  ghost predicate Textbook(w: World, f: Elementary, x: real) {
    match f
    case Sqrt => w.elementary(Sqrt, x) != 0.0 && HasDerivative(Curve(w, Sqrt), x, 1.0 / (2.0 * w.elementary(Sqrt, x)))
    case Exp => HasDerivative(Curve(w, Exp), x, w.elementary(Exp, x))
    case Log => x != 0.0 && HasDerivative(Curve(w, Log), x, 1.0 / x)
    case Sin => HasDerivative(Curve(w, Sin), x, w.elementary(Cos, x))
    case Cos => HasDerivative(Curve(w, Cos), x, -w.elementary(Sin, x))
    case Tanh => HasDerivative(Curve(w, Tanh), x, 1.0 - w.elementary(Tanh, x) * w.elementary(Tanh, x))
    case _ => FlatNear(Curve(w, f), x)
  }

  /** Not floating point, or not above the leaf. */
  ghost predicate Fixed(t: nat, n: Term) {
    !n.op.dtype.IsFloat() || !IdBelow(t, n)
  }

  ghost predicate AllFixed(t: nat, nodes: seq<Term>) {
    forall k :: 0 <= k < |nodes| ==> Fixed(t, nodes[k])
  }

  /** The operation of a node has no kink where it stands, and does not stop the tangent. */
  ghost predicate Smooth(w: World, t: nat, n: Term) {
    && FitsArity(n.op.kind, |n.args|)
    && (n.id == t ==> n.op.kind.Source? && n.op.dtype.IsFloat())
    && (AllFixed(t, n.args) ||
        match n.op.kind
        case Abs => Eval(w, n.args[0]) != 0.0
        case Relu => Eval(w, n.args[0]) != 0.0
        case Apply(f) => Textbook(w, f, Eval(w, n.args[0]))
        case Div => Eval(w, n.args[1]) != 0.0
        case Maximum => Eval(w, n.args[0]) != Eval(w, n.args[1])
        case Minimum => Eval(w, n.args[0]) != Eval(w, n.args[1])
        case Compare(_) => Eval(w, n.args[0]) != Eval(w, n.args[1])
        case Where => Fixed(t, n.args[0]) || Eval(w, n.args[0]) != 0.0
        case Cast => n.op.dtype.IsFloat() || FlatNear(Conversion(w, n.op.dtype), Eval(w, n.args[0]))
        case StopGradient => false
        case Barred(_) => false
        case Opaque(_) => false
        case _ => true)
    && (!n.op.dtype.IsFloat() && !n.op.kind.Compare? && !n.op.kind.Cast? ==> AllFixed(t, n.args))
  }

  ghost predicate SmoothBelow(w: World, t: nat, n: Term) {
    forall x :: x in Below(n) ==> Smooth(w, t, x)
  }

  // ----- Functions along the path

  /** What is known of a node: its derivative, and that it stands still if it is fixed. */
  ghost predicate Follows(w: World, t: nat, n: Term) {
    && HasDerivative(Path(w, t, n), 0.0, Tangent(w, t, n))
    && (Fixed(t, n) ==> FlatNear(Path(w, t, n), 0.0))
  }

  lemma FixedHasNoTangent(w: World, t: nat, n: Term)
    requires Fixed(t, n)
    ensures Tangent(w, t, n) == 0.0
  {
    TangentIs(w, t, n);
    if !IdBelow(t, n) {
      TangentIsLocal(w, t, n);
    }
  }

  /** Where all operands stand still the node does. */
  lemma {:induction false} CommonDelta(w: World, t: nat, nodes: seq<Term>) returns (delta: real)
    requires forall k :: 0 <= k < |nodes| ==> FlatNear(Path(w, t, nodes[k]), 0.0)
    ensures delta > 0.0
    ensures forall k, h: real :: 0 <= k < |nodes| && Magnitude(h) < delta ==> Path(w, t, nodes[k])(h) == Path(w, t, nodes[k])(0.0)
  {
    if nodes == [] {
      delta := 1.0;
    } else {
      var n := |nodes| - 1;
      var rest := CommonDelta(w, t, nodes[..n]);
      assert FlatNear(Path(w, t, nodes[n]), 0.0);
      var own: real :| FlatWithin(Path(w, t, nodes[n]), 0.0, own);
      delta := if rest < own then rest else own;
      forall k, h: real | 0 <= k < |nodes| && Magnitude(h) < delta
        ensures Path(w, t, nodes[k])(h) == Path(w, t, nodes[k])(0.0)
      {
        if k < n {
          assert nodes[..n][k] == nodes[k];
        } else {
          assert Magnitude(h - 0.0) < own;
        }
      }
    }
  }

  lemma StandsStill(w: World, t: nat, n: Term)
    requires !n.op.kind.Source? && forall k :: 0 <= k < |n.args| ==> FlatNear(Path(w, t, n.args[k]), 0.0)
    ensures FlatNear(Path(w, t, n), 0.0)
  {
    var delta := CommonDelta(w, t, n.args);
    forall h: real | Magnitude(h - 0.0) < delta
      ensures Path(w, t, n)(h) == Path(w, t, n)(0.0)
    {
      PathIs(w, t, n, h);
      PathIs(w, t, n, 0.0);
      assert Evals(Shift(w, t, h), n.args) == Evals(Shift(w, t, 0.0), n.args);
    }
    assert FlatWithin(Path(w, t, n), 0.0, delta);
  }

  /** What does not depend on the leaf never moves. */
  lemma UnrelatedIsFlat(w: World, t: nat, n: Term)
    requires !IdBelow(t, n)
    ensures FlatNear(Path(w, t, n), 0.0)
  {
    forall h: real
      ensures Path(w, t, n)(h) == Path(w, t, n)(0.0)
    {
      EvalIsLocal(w, Shift(w, t, h), n);
      EvalIsLocal(w, Shift(w, t, 0.0), n);
    }
    assert FlatWithin(Path(w, t, n), 0.0, 1.0);
  }

  // ----- One operation at a time

  /** Follows from agreement with another function around the start. */
  lemma FollowsNear(w: World, t: nat, n: Term, f: real -> real, d: real, delta: real)
    requires HasDerivative(f, 0.0, d) && delta > 0.0 && d == Tangent(w, t, n)
    requires forall h: real :: Magnitude(h - 0.0) < delta ==> f(h) == Path(w, t, n)(h)
    ensures HasDerivative(Path(w, t, n), 0.0, Tangent(w, t, n))
  {
    assert AgreeNear(f, Path(w, t, n), 0.0, delta);
    Locally(f, Path(w, t, n), 0.0, d, delta);
  }

  /** The tangent of a node that is not the leaf, by its operands' tangents. */
  lemma TangentIsRate(w: World, t: nat, n: Term)
    requires n.op.dtype.IsFloat() && n.id != t
    ensures Tangent(w, t, n) == Rate(w, n.op.kind, Evals(w, n.args), Tangents(w, t, n.args))
  {
    TangentIs(w, t, n);
  }

  /** A float node of this kind away from the leaf, whose operands follow. */
  ghost predicate Ready(w: World, t: nat, n: Term) {
    && n.op.dtype.IsFloat() && n.id != t && !n.op.kind.Source? && FitsArity(n.op.kind, |n.args|)
    && forall k :: 0 <= k < |n.args| ==> Follows(w, t, n.args[k])
  }

  lemma NegFollows(w: World, t: nat, n: Term)
    requires Ready(w, t, n) && n.op.kind.Neg?
    ensures HasDerivative(Path(w, t, n), 0.0, Tangent(w, t, n))
  {
    var f := Path(w, t, n.args[0]);
    TangentIsRate(w, t, n);
    forall h: real
      ensures Path(w, t, n)(h) == -1.0 * f(h)
    {
      PathIs(w, t, n, h);
    }
    ScaleDerivative(f, Path(w, t, n), 0.0, Tangent(w, t, n.args[0]), -1.0, Tangent(w, t, n));
  }

  /** Operations that hand their operand on. */
  lemma CopyFollows(w: World, t: nat, n: Term)
    requires Ready(w, t, n) && (n.op.kind.Cast? || n.op.kind.Expose? || n.op.kind.Checkpoint?)
    ensures HasDerivative(Path(w, t, n), 0.0, Tangent(w, t, n))
  {
    TangentIsRate(w, t, n);
    forall h: real
      ensures Path(w, t, n)(h) == Path(w, t, n.args[0])(h)
    {
      PathIs(w, t, n, h);
    }
    FollowsNear(w, t, n, Path(w, t, n.args[0]), Tangent(w, t, n.args[0]), 1.0);
  }

  lemma AddFollows(w: World, t: nat, n: Term)
    requires Ready(w, t, n) && n.op.kind.Add?
    ensures HasDerivative(Path(w, t, n), 0.0, Tangent(w, t, n))
  {
    var f, g := Path(w, t, n.args[0]), Path(w, t, n.args[1]);
    TangentIsRate(w, t, n);
    forall h: real
      ensures Path(w, t, n)(h) == f(h) + g(h)
    {
      PathIs(w, t, n, h);
    }
    SumDerivative(f, g, Path(w, t, n), 0.0, Tangent(w, t, n.args[0]), Tangent(w, t, n.args[1]), Tangent(w, t, n));
  }

  lemma SubFollows(w: World, t: nat, n: Term)
    requires Ready(w, t, n) && n.op.kind.Sub?
    ensures HasDerivative(Path(w, t, n), 0.0, Tangent(w, t, n))
  {
    var f, g := Path(w, t, n.args[0]), Path(w, t, n.args[1]);
    var a, b := Tangent(w, t, n.args[0]), Tangent(w, t, n.args[1]);
    TangentIsRate(w, t, n);
    ScaleDerivative(g, Negated(g), 0.0, b, -1.0, -b);
    forall h: real
      ensures Path(w, t, n)(h) == f(h) + Negated(g)(h)
    {
      PathIs(w, t, n, h);
    }
    SumDerivative(f, Negated(g), Path(w, t, n), 0.0, a, -b, Tangent(w, t, n));
  }

  lemma MulFollows(w: World, t: nat, n: Term)
    requires Ready(w, t, n) && n.op.kind.Mul?
    ensures HasDerivative(Path(w, t, n), 0.0, Tangent(w, t, n))
  {
    var f, g := Path(w, t, n.args[0]), Path(w, t, n.args[1]);
    TangentIsRate(w, t, n);
    PathStarts(w, t, n.args[0]);
    PathStarts(w, t, n.args[1]);
    forall h: real
      ensures Path(w, t, n)(h) == f(h) * g(h)
    {
      PathIs(w, t, n, h);
    }
    ProductDerivative(f, g, Path(w, t, n), 0.0, Tangent(w, t, n.args[0]), Tangent(w, t, n.args[1]), Tangent(w, t, n));
  }

  // Division

  /** A function that inverts another where that is not zero, and is zero elsewhere. */
  ghost predicate Inverts(u: real -> real, g: real -> real) {
    forall h: real :: if g(h) == 0.0 then u(h) == 0.0 else u(h) * g(h) == 1.0
  }

  ghost function Reciprocal(): real -> real {
    (y: real) => Quot(1.0, y)
  }

  ghost function Inverse(g: real -> real): real -> real {
    (h: real) => Reciprocal()(g(h))
  }

  lemma InverseInverts(g: real -> real)
    ensures Inverts(Inverse(g), g)
  {
  }

  lemma InverseDerivative(g: real -> real, b: real, r: real)
    requires HasDerivative(g, 0.0, b) && g(0.0) != 0.0 && r * (g(0.0) * g(0.0)) == -1.0
    ensures HasDerivative(Inverse(g), 0.0, r * b)
  {
    ReciprocalDerivative(Reciprocal(), g(0.0), r);
    Chain(g, Reciprocal(), Inverse(g), 0.0, b, r, r * b);
  }

  /** Division is multiplication by the inverse. */
  lemma QuotientTimes(p: real, q: real, u: real)
    requires if q == 0.0 then u == 0.0 else u * q == 1.0
    ensures Quot(p, q) == p * u
  {
    if q != 0.0 {
      assert (p * u) * q == p * (u * q);
    }
  }

  lemma NegativeSquareInverse(q: real) returns (r: real)
    requires q != 0.0
    ensures q * q != 0.0 && r * (q * q) == -1.0
  {
    assert q * q != 0.0;
    r := -1.0 / (q * q);
  }

  /** The quotient rule. */
  ghost function RateOfQuotient(p: real, q: real, a: real, b: real): real {
    Quot(a, q) - Quot(p * b, q * q)
  }

  lemma RateIsQuotientRule(w: World, vs: seq<real>, ts: seq<real>)
    requires |vs| == |ts| == 2
    ensures Rate(w, Kind.Div, vs, ts) == RateOfQuotient(vs[0], vs[1], ts[0], ts[1])
  {
  }

  lemma QuotientRate(p: real, q: real, a: real, b: real, u: real, r: real, c: real)
    requires q != 0.0 && q * q != 0.0 && r * (q * q) == -1.0 && u * q == 1.0 && c == r * b
    ensures RateOfQuotient(p, q, a, b) == a * u + p * c
  {
    QuotientTimes(a, q, u);
    assert -r * (q * q) == 1.0;
    QuotientTimes(p * b, q * q, -r);
    assert (p * b) * -r == -(p * (r * b));
  }

  lemma QuotientDerivative(f: real -> real, g: real -> real, u: real -> real, h: real -> real, a: real, b: real, c: real, d: real)
    requires HasDerivative(f, 0.0, a) && HasDerivative(u, 0.0, c) && Inverts(u, g)
    requires (forall y: real :: h(y) == Quot(f(y), g(y))) && d == a * u(0.0) + f(0.0) * c
    ensures HasDerivative(h, 0.0, d)
  {
    forall y: real
      ensures h(y) == f(y) * u(y)
    {
      QuotientTimes(f(y), g(y), u(y));
    }
    ProductDerivative(f, u, h, 0.0, a, c, d);
  }

  lemma QuotientPath(w: World, t: nat, n: Term)
    requires n.op.kind.Div? && |n.args| == 2
    ensures forall h: real :: Path(w, t, n)(h) == Quot(Path(w, t, n.args[0])(h), Path(w, t, n.args[1])(h))
  {
    forall h: real
      ensures Path(w, t, n)(h) == Quot(Path(w, t, n.args[0])(h), Path(w, t, n.args[1])(h))
    {
      PathIs(w, t, n, h);
    }
  }

  lemma QuotientTangent(w: World, t: nat, n: Term, p: real, q: real)
    requires n.op.dtype.IsFloat() && n.id != t && n.op.kind.Div? && |n.args| == 2
    requires p == Eval(w, n.args[0]) && q == Eval(w, n.args[1])
    ensures Tangent(w, t, n) == RateOfQuotient(p, q, Tangent(w, t, n.args[0]), Tangent(w, t, n.args[1]))
  {
    TangentIsRate(w, t, n);
    RateIsQuotientRule(w, Evals(w, n.args), Tangents(w, t, n.args));
  }

  lemma DivFollows(w: World, t: nat, n: Term)
    requires Ready(w, t, n) && n.op.kind.Div? && Eval(w, n.args[1]) != 0.0
    ensures HasDerivative(Path(w, t, n), 0.0, Tangent(w, t, n))
  {
    var f, g := Path(w, t, n.args[0]), Path(w, t, n.args[1]);
    PathStarts(w, t, n.args[0]);
    PathStarts(w, t, n.args[1]);
    QuotientTangent(w, t, n, f(0.0), g(0.0));
    QuotientPath(w, t, n);
    QuotientFollows(f, g, Path(w, t, n), Tangent(w, t, n.args[0]), Tangent(w, t, n.args[1]), Tangent(w, t, n));
  }

  lemma InverseFollows(g: real -> real, b: real) returns (u: real -> real, r: real, c: real)
    requires HasDerivative(g, 0.0, b) && g(0.0) != 0.0
    ensures g(0.0) * g(0.0) != 0.0 && r * (g(0.0) * g(0.0)) == -1.0 && c == r * b
    ensures HasDerivative(u, 0.0, c) && Inverts(u, g)
  {
    r := NegativeSquareInverse(g(0.0));
    c := r * b;
    u := Inverse(g);
    InverseDerivative(g, b, r);
    InverseInverts(g);
  }

  lemma InverseAt(u: real -> real, g: real -> real, p: real, a: real, b: real, r: real, c: real, d: real)
    requires Inverts(u, g) && g(0.0) != 0.0 && g(0.0) * g(0.0) != 0.0 && r * (g(0.0) * g(0.0)) == -1.0 && c == r * b
    requires d == RateOfQuotient(p, g(0.0), a, b)
    ensures d == a * u(0.0) + p * c
  {
    assert u(0.0) * g(0.0) == 1.0;
    QuotientRate(p, g(0.0), a, b, u(0.0), r, c);
  }

  lemma QuotientFollows(f: real -> real, g: real -> real, h: real -> real, a: real, b: real, d: real)
    requires HasDerivative(f, 0.0, a) && HasDerivative(g, 0.0, b) && g(0.0) != 0.0
    requires (forall y: real :: h(y) == Quot(f(y), g(y))) && d == RateOfQuotient(f(0.0), g(0.0), a, b)
    ensures HasDerivative(h, 0.0, d)
  {
    var u, r, c := InverseFollows(g, b);
    InverseAt(u, g, f(0.0), a, b, r, c, d);
    QuotientDerivative(f, g, u, h, a, b, c, d);
  }

  // Elementary functions

  lemma ApplyFollows(w: World, t: nat, n: Term)
    requires Ready(w, t, n) && n.op.kind.Apply? && Textbook(w, n.op.kind.function_, Eval(w, n.args[0]))
    ensures HasDerivative(Path(w, t, n), 0.0, Tangent(w, t, n))
  {
    var f, x := n.op.kind.function_, Eval(w, n.args[0]);
    TangentIsRate(w, t, n);
    PathStarts(w, t, n.args[0]);
    CurveHasSlope(w, f, x);
    forall h: real
      ensures Path(w, t, n)(h) == Curve(w, f)(Path(w, t, n.args[0])(h))
    {
      PathIs(w, t, n, h);
    }
    Chain(Path(w, t, n.args[0]), Curve(w, f), Path(w, t, n), 0.0, Tangent(w, t, n.args[0]), Slope(w, f, x), Tangent(w, t, n));
  }

  lemma QuotIsQuotient(x: real, y: real)
    requires y != 0.0
    ensures Quot(x, y) == x / y
  {
  }

  lemma TanhSlope(w: World, x: real)
    ensures Slope(w, Tanh, x) == 1.0 - w.elementary(Tanh, x) * w.elementary(Tanh, x)
  {
  }

  lemma CurveHasSlope(w: World, f: Elementary, x: real)
    requires Textbook(w, f, x)
    ensures HasDerivative(Curve(w, f), x, Slope(w, f, x))
  {
    match f
    case Sqrt =>
      var twice := 2.0 * w.elementary(Sqrt, x);
      assert twice != 0.0;
      QuotIsQuotient(1.0, twice);
    case Log => QuotIsQuotient(1.0, x);
    case Exp =>
    case Sin =>
    case Cos =>
    case Tanh => TanhSlope(w, x);
    case _ => FlatIsZero(Curve(w, f), x);
  }

  // Piecewise operations

  lemma AbsFollows(w: World, t: nat, n: Term)
    requires Ready(w, t, n) && n.op.kind.Abs? && Eval(w, n.args[0]) != 0.0
    ensures HasDerivative(Path(w, t, n), 0.0, Tangent(w, t, n))
  {
    var f, a := Path(w, t, n.args[0]), Tangent(w, t, n.args[0]);
    TangentIsRate(w, t, n);
    PathStarts(w, t, n.args[0]);
    var delta := KeepsSign(f, 0.0, a);
    ScaleDerivative(f, Negated(f), 0.0, a, -1.0, -a);
    forall h: real | Magnitude(h - 0.0) < delta
      ensures Path(w, t, n)(h) == if f(0.0) > 0.0 then f(h) else Negated(f)(h)
    {
      PathIs(w, t, n, h);
    }
    if f(0.0) > 0.0 {
      FollowsNear(w, t, n, f, a, delta);
    } else {
      FollowsNear(w, t, n, Negated(f), -a, delta);
    }
  }

  ghost function Nothing(): real -> real {
    (h: real) => 0.0
  }

  lemma ReluFollows(w: World, t: nat, n: Term)
    requires Ready(w, t, n) && n.op.kind.Relu? && Eval(w, n.args[0]) != 0.0
    ensures HasDerivative(Path(w, t, n), 0.0, Tangent(w, t, n))
  {
    var f, a := Path(w, t, n.args[0]), Tangent(w, t, n.args[0]);
    TangentIsRate(w, t, n);
    PathStarts(w, t, n.args[0]);
    var delta := KeepsSign(f, 0.0, a);
    assert FlatWithin(Nothing(), 0.0, 1.0);
    FlatIsZero(Nothing(), 0.0);
    forall h: real | Magnitude(h - 0.0) < delta
      ensures Path(w, t, n)(h) == if f(0.0) > 0.0 then f(h) else Nothing()(h)
    {
      PathIs(w, t, n, h);
    }
    if f(0.0) > 0.0 {
      FollowsNear(w, t, n, f, a, delta);
    } else {
      FollowsNear(w, t, n, Nothing(), 0.0, delta);
    }
  }

  /** How far two operands keep their order. */
  lemma KeepsOrder(f: real -> real, g: real -> real, a: real, b: real) returns (delta: real)
    requires HasDerivative(f, 0.0, a) && HasDerivative(g, 0.0, b) && f(0.0) != g(0.0)
    ensures delta > 0.0
    ensures forall h: real :: Magnitude(h - 0.0) < delta ==> f(h) != g(h) && (f(h) > g(h) <==> f(0.0) > g(0.0))
  {
    var difference := (h: real) => f(h) + Negated(g)(h);
    ScaleDerivative(g, Negated(g), 0.0, b, -1.0, -b);
    SumDerivative(f, Negated(g), difference, 0.0, a, -b, a + -b);
    delta := KeepsSign(difference, 0.0, a + -b);
    forall h: real | Magnitude(h - 0.0) < delta
      ensures f(h) != g(h) && (f(h) > g(h) <==> f(0.0) > g(0.0))
    {
      assert difference(h) == f(h) - g(h) && difference(0.0) == f(0.0) - g(0.0);
    }
  }

  lemma ExtremumFollows(w: World, t: nat, n: Term)
    requires Ready(w, t, n) && (n.op.kind.Maximum? || n.op.kind.Minimum?) && Eval(w, n.args[0]) != Eval(w, n.args[1])
    ensures HasDerivative(Path(w, t, n), 0.0, Tangent(w, t, n))
  {
    var f, g := Path(w, t, n.args[0]), Path(w, t, n.args[1]);
    var a, b := Tangent(w, t, n.args[0]), Tangent(w, t, n.args[1]);
    TangentIsRate(w, t, n);
    PathStarts(w, t, n.args[0]);
    PathStarts(w, t, n.args[1]);
    var delta := KeepsOrder(f, g, a, b);
    var left := n.op.kind.Maximum? <==> f(0.0) > g(0.0);
    forall h: real | Magnitude(h - 0.0) < delta
      ensures Path(w, t, n)(h) == if left then f(h) else g(h)
    {
      PathIs(w, t, n, h);
    }
    if left {
      FollowsNear(w, t, n, f, a, delta);
    } else {
      FollowsNear(w, t, n, g, b, delta);
    }
  }

  lemma CompareIsFlat(w: World, t: nat, n: Term)
    requires n.op.kind.Compare? && |n.args| == 2 && Eval(w, n.args[0]) != Eval(w, n.args[1])
    requires Follows(w, t, n.args[0]) && Follows(w, t, n.args[1])
    ensures FlatNear(Path(w, t, n), 0.0)
  {
    var f, g := Path(w, t, n.args[0]), Path(w, t, n.args[1]);
    PathStarts(w, t, n.args[0]);
    PathStarts(w, t, n.args[1]);
    var delta := KeepsOrder(f, g, Tangent(w, t, n.args[0]), Tangent(w, t, n.args[1]));
    PathIs(w, t, n, 0.0);
    forall h: real | Magnitude(h - 0.0) < delta
      ensures Path(w, t, n)(h) == Path(w, t, n)(0.0)
    {
      PathIs(w, t, n, h);
    }
    assert FlatWithin(Path(w, t, n), 0.0, delta);
  }

  lemma ConversionIsFlat(w: World, t: nat, n: Term)
    requires n.op.kind.Cast? && !n.op.dtype.IsFloat() && |n.args| == 1 && Follows(w, t, n.args[0])
    requires FlatNear(Conversion(w, n.op.dtype), Eval(w, n.args[0]))
    ensures FlatNear(Path(w, t, n), 0.0)
  {
    var f, convert := Path(w, t, n.args[0]), Conversion(w, n.op.dtype);
    PathStarts(w, t, n.args[0]);
    var margin: real :| FlatWithin(convert, Eval(w, n.args[0]), margin);
    var delta := Continuous(f, 0.0, Tangent(w, t, n.args[0]), margin);
    PathIs(w, t, n, 0.0);
    forall h: real | Magnitude(h - 0.0) < delta
      ensures Path(w, t, n)(h) == Path(w, t, n)(0.0)
    {
      PathIs(w, t, n, h);
      assert convert(f(h)) == convert(f(0.0));
    }
    assert FlatWithin(Path(w, t, n), 0.0, delta);
  }

  lemma WhereFollows(w: World, t: nat, n: Term)
    requires Ready(w, t, n) && n.op.kind.Where? && (Fixed(t, n.args[0]) || Eval(w, n.args[0]) != 0.0)
    ensures HasDerivative(Path(w, t, n), 0.0, Tangent(w, t, n))
  {
    var c, f, g := Path(w, t, n.args[0]), Path(w, t, n.args[1]), Path(w, t, n.args[2]);
    TangentIsRate(w, t, n);
    PathStarts(w, t, n.args[0]);
    var delta: real;
    if Fixed(t, n.args[0]) {
      delta :| FlatWithin(c, 0.0, delta);
    } else {
      delta := KeepsSign(c, 0.0, Tangent(w, t, n.args[0]));
    }
    forall h: real | Magnitude(h - 0.0) < delta
      ensures Path(w, t, n)(h) == if c(0.0) != 0.0 then f(h) else g(h)
    {
      PathIs(w, t, n, h);
    }
    if c(0.0) != 0.0 {
      FollowsNear(w, t, n, f, Tangent(w, t, n.args[1]), delta);
    } else {
      FollowsNear(w, t, n, g, Tangent(w, t, n.args[2]), delta);
    }
  }

  // ----- The whole graph

  lemma LeafFollows(w: World, t: nat, n: Term)
    requires n.op.kind.Source? && n.op.dtype.IsFloat() && n.id == t && n.args == []
    ensures HasDerivative(Path(w, t, n), 0.0, Tangent(w, t, n))
  {
    TangentIs(w, t, n);
    forall h: real
      ensures Path(w, t, n)(h) == h + w.source(t)
    {
      EvalIs(Shift(w, t, h), n);
    }
    IdentityDerivative(Path(w, t, n), 0.0, w.source(t));
  }

  lemma OperationFollows(w: World, t: nat, n: Term)
    requires Smooth(w, t, n) && Ready(w, t, n) && !AllFixed(t, n.args)
    ensures HasDerivative(Path(w, t, n), 0.0, Tangent(w, t, n))
  {
    match n.op.kind
    case Neg => NegFollows(w, t, n);
    case Abs => AbsFollows(w, t, n);
    case Relu => ReluFollows(w, t, n);
    case Apply(_) => ApplyFollows(w, t, n);
    case Add => AddFollows(w, t, n);
    case Sub => SubFollows(w, t, n);
    case Mul => MulFollows(w, t, n);
    case Div => DivFollows(w, t, n);
    case Maximum => ExtremumFollows(w, t, n);
    case Minimum => ExtremumFollows(w, t, n);
    case Compare(_) =>
      CompareIsFlat(w, t, n);
      FlatIsZero(Path(w, t, n), 0.0);
      TangentIsRate(w, t, n);
    case Where => WhereFollows(w, t, n);
    case Cast => CopyFollows(w, t, n);
    case Expose => CopyFollows(w, t, n);
    case Checkpoint => CopyFollows(w, t, n);
    case _ =>
  }

  /** A node over fixed operands is flat, and its tangent is zero. */
  lemma OverFixed(w: World, t: nat, n: Term)
    requires !n.op.kind.Source? && n.id != t && AllFixed(t, n.args) && forall k :: 0 <= k < |n.args| ==> Follows(w, t, n.args[k])
    ensures FlatNear(Path(w, t, n), 0.0) && Tangent(w, t, n) == 0.0
  {
    StandsStill(w, t, n);
    TangentIs(w, t, n);
    forall k | 0 <= k < |n.args|
      ensures Tangents(w, t, n.args)[k] == 0.0
    {
      FixedHasNoTangent(w, t, n.args[k]);
    }
    RateOfZero(w, n.op.kind, Evals(w, n.args), Tangents(w, t, n.args));
  }

  /** Every node follows its tangent. */
  lemma {:induction false} NodeFollows(w: World, t: nat, n: Term)
    requires SmoothBelow(w, t, n)
    ensures Follows(w, t, n)
    decreases n
  {
    assert n in Below(n) && Smooth(w, t, n);
    forall k | 0 <= k < |n.args|
      ensures Follows(w, t, n.args[k])
    {
      BelowAllHas(n.args, k);
      assert forall x :: x in Below(n.args[k]) ==> x in Below(n);
      NodeFollows(w, t, n.args[k]);
    }
    if !IdBelow(t, n) {
      UnrelatedIsFlat(w, t, n);
      FixedHasNoTangent(w, t, n);
      FlatIsZero(Path(w, t, n), 0.0);
    } else if n.id == t {
      LeafFollows(w, t, n);
    } else if AllFixed(t, n.args) {
      RelatedIsOperation(w, t, n);
      OverFixed(w, t, n);
      FlatIsZero(Path(w, t, n), 0.0);
    } else if n.op.dtype.IsFloat() {
      RelatedIsOperation(w, t, n);
      OperationFollows(w, t, n);
    } else {
      FixedHasNoTangent(w, t, n);
      if n.op.kind.Compare? {
        CompareIsFlat(w, t, n);
      } else {
        ConversionIsFlat(w, t, n);
      }
      FlatIsZero(Path(w, t, n), 0.0);
    }
  }

  /** A node above the leaf that is not the leaf has operands, so it is not a source. */
  lemma RelatedIsOperation(w: World, t: nat, n: Term)
    requires IdBelow(t, n) && n.id != t && Smooth(w, t, n)
    ensures !n.op.kind.Source?
  {
    assert n.args == [] ==> Below(n) == {n};
  }

  /** As a leaf varies, the loss changes at the rate of its tangent; this is the only rate it can have. */
  lemma TangentIsDerivative(w: World, t: nat, loss: Term)
    requires SmoothBelow(w, t, loss)
    ensures HasDerivative(Path(w, t, loss), 0.0, Tangent(w, t, loss))
    ensures forall d: real :: HasDerivative(Path(w, t, loss), 0.0, d) ==> d == Tangent(w, t, loss)
  {
    NodeFollows(w, t, loss);
    forall d: real | HasDerivative(Path(w, t, loss), 0.0, d)
      ensures d == Tangent(w, t, loss)
    {
      DerivativeOnce(Path(w, t, loss), 0.0, d, Tangent(w, t, loss));
    }
  }

  /** What differentiation returns for an exposed leaf evaluates to the derivative of the loss. */
  lemma GradientIsDerivative(w: World, gradients: seq<Term>, wrt: seq<Term>, loss: Term, i: nat)
    requires AreGradients(gradients, wrt, loss) && i < |wrt| && Exposed(wrt[i].id, loss) && SmoothBelow(w, wrt[i].id, loss)
    ensures HasDerivative(Path(w, wrt[i].id, loss), 0.0, Eval(w, gradients[i]))
  {
    TangentIsDerivative(w, wrt[i].id, loss);
    assert IsGradient(gradients[i], wrt[i], loss);
  }
}
