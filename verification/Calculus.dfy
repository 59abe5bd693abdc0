/** Derivatives of functions of one real variable, by approximation, and the rules for them. */
module Calculus {
  function Magnitude(x: real): real {
    if x < 0.0 then -x else x
  }

  /** The change over a step `k` is off the line with slope `d` by at most `eps` times the step. */
  ghost predicate Close(change: real, k: real, d: real, eps: real) {
    Magnitude(change - k * d) <= eps * Magnitude(k)
  }

  ghost predicate Within(f: real -> real, x: real, d: real, eps: real, delta: real) {
    delta > 0.0 && forall y: real :: Magnitude(y - x) < delta ==> Close(f(y) - f(x), y - x, d, eps)
  }

  ghost predicate Near(f: real -> real, x: real, d: real, eps: real) {
    exists delta: real :: Within(f, x, d, eps, delta)
  }

  /** `d` is the derivative of `f` at `x`: the line is as close as one likes, near enough to the point. */
  ghost predicate HasDerivative(f: real -> real, x: real, d: real) {
    forall eps: real :: eps > 0.0 ==> Near(f, x, d, eps)
  }

  ghost predicate AgreeNear(f: real -> real, g: real -> real, x: real, delta: real) {
    delta > 0.0 && forall y: real :: Magnitude(y - x) < delta ==> f(y) == g(y)
  }

  ghost predicate FlatWithin(f: real -> real, x: real, delta: real) {
    delta > 0.0 && forall y: real :: Magnitude(y - x) < delta ==> f(y) == f(x)
  }

  /** A function is constant around a point. */
  ghost predicate FlatNear(f: real -> real, x: real) {
    exists delta: real :: FlatWithin(f, x, delta)
  }

  // ----- Magnitudes

  lemma MagnitudeOfProduct(a: real, b: real)
    ensures Magnitude(a * b) == Magnitude(a) * Magnitude(b)
  {
    if a < 0.0 && b < 0.0 {
      assert a * b == (-a) * (-b);
    } else if a < 0.0 {
      assert a * b == -((-a) * b);
    } else if b < 0.0 {
      assert a * b == -(a * (-b));
    }
  }

  lemma Triangle(a: real, b: real)
    ensures Magnitude(a + b) <= Magnitude(a) + Magnitude(b)
  {
  }

  lemma Grows(a: real, b: real, c: real)
    requires a <= b && c >= 0.0
    ensures a * c <= b * c && c * a <= c * b
  {
  }

  lemma PositiveProduct(a: real, b: real, p: real)
    requires a > 0.0 && b > 0.0 && p == a * b
    ensures p > 0.0
  {
  }

  lemma GrowsStrictly(a: real, b: real, c: real)
    requires a < b && c > 0.0
    ensures a * c < b * c
  {
  }

  lemma Distributes(a: real, b: real, c: real)
    ensures (a + b) * c == a * c + b * c && c * (a + b) == c * a + c * b
  {
  }

  lemma Regroup(a: real, b: real, c: real)
    ensures (a * b) * c == a * (b * c) == (a * c) * b
  {
  }

  /** An equal share of a positive bound. */
  lemma Share(eps: real, size: real) returns (small: real)
    requires eps > 0.0 && size >= 1.0
    ensures small > 0.0 && small * size == eps
  {
    small := eps / size;
  }

  // ----- Locality

  /** Only values near the point matter. */
  lemma Locally(f: real -> real, g: real -> real, x: real, d: real, near: real)
    requires HasDerivative(f, x, d) && AgreeNear(f, g, x, near)
    ensures HasDerivative(g, x, d)
  {
    assert Magnitude(x - x) < near;
    forall eps: real | eps > 0.0
      ensures Near(g, x, d, eps)
    {
      assert Near(f, x, d, eps);
      var delta: real :| Within(f, x, d, eps, delta);
      assert Within(g, x, d, eps, if delta < near then delta else near);
    }
  }

  lemma NoError(k: real, eps: real, value: real)
    requires eps > 0.0
    ensures Close(value - value, k, 0.0, eps)
  {
    Grows(0.0, eps, Magnitude(k));
  }

  lemma FlatIsZero(f: real -> real, x: real)
    requires FlatNear(f, x)
    ensures HasDerivative(f, x, 0.0)
  {
    var delta: real :| FlatWithin(f, x, delta);
    forall eps: real | eps > 0.0
      ensures Near(f, x, 0.0, eps)
    {
      forall y: real | Magnitude(y - x) < delta
        ensures Close(f(y) - f(x), y - x, 0.0, eps)
      {
        NoError(y - x, eps, f(x));
      }
      assert Within(f, x, 0.0, eps, delta);
    }
  }

  lemma OneToOne(y: real, x: real, c: real, eps: real)
    requires eps > 0.0
    ensures Close((y + c) - (x + c), y - x, 1.0, eps)
  {
    Grows(0.0, eps, Magnitude(y - x));
  }

  lemma IdentityDerivative(f: real -> real, x: real, c: real)
    requires forall y: real :: f(y) == y + c
    ensures HasDerivative(f, x, 1.0)
  {
    forall eps: real | eps > 0.0
      ensures Near(f, x, 1.0, eps)
    {
      forall y: real
        ensures Close(f(y) - f(x), y - x, 1.0, eps)
      {
        OneToOne(y, x, c, eps);
      }
      assert Within(f, x, 1.0, eps, 1.0);
    }
  }

  // ----- Sums and multiples

  lemma SumAt(fc: real, gc: real, hc: real, k: real, a: real, b: real, half: real, eps: real)
    requires Close(fc, k, a, half) && Close(gc, k, b, half) && half + half == eps && hc == fc + gc
    ensures Close(hc, k, a + b, eps)
  {
    Distributes(a, b, k);
    Distributes(half, half, Magnitude(k));
    Triangle(fc - k * a, gc - k * b);
  }

  lemma SumDerivative(f: real -> real, g: real -> real, h: real -> real, x: real, a: real, b: real, d: real)
    requires HasDerivative(f, x, a) && HasDerivative(g, x, b) && (forall y: real :: h(y) == f(y) + g(y)) && d == a + b
    ensures HasDerivative(h, x, d)
  {
    forall eps: real | eps > 0.0
      ensures Near(h, x, d, eps)
    {
      var half := eps / 2.0;
      assert Near(f, x, a, half) && Near(g, x, b, half);
      var df: real :| Within(f, x, a, half, df);
      var dg: real :| Within(g, x, b, half, dg);
      var delta := if df < dg then df else dg;
      forall y: real | Magnitude(y - x) < delta
        ensures Close(h(y) - h(x), y - x, d, eps)
      {
        SumAt(f(y) - f(x), g(y) - g(x), h(y) - h(x), y - x, a, b, half, eps);
      }
      assert Within(h, x, d, eps, delta);
    }
  }

  lemma ScaleAt(fc: real, hc: real, k: real, a: real, p: real, small: real, eps: real)
    requires Close(fc, k, a, small) && small * (Magnitude(p) + 1.0) == eps && small > 0.0 && hc == p * fc
    ensures Close(hc, k, p * a, eps)
  {
    ScaledError(fc, k, a, p);
    MagnitudeOfProduct(p, fc - k * a);
    Grows(Magnitude(fc - k * a), small * Magnitude(k), Magnitude(p));
    ScaledBound(Magnitude(p), small, Magnitude(k), eps);
  }

  lemma ScaledError(fc: real, k: real, a: real, p: real)
    ensures p * fc - k * (p * a) == p * (fc - k * a)
  {
    Regroup(k, p, a);
    assert p * (fc - k * a) == p * fc - p * (k * a);
  }

  lemma ScaledChange(p: real, fy: real, fx: real)
    ensures p * fy - p * fx == p * (fy - fx)
  {
  }

  lemma ScaledBound(p: real, small: real, distance: real, eps: real)
    requires p >= 0.0 && distance >= 0.0 && small > 0.0 && small * (p + 1.0) == eps
    ensures p * (small * distance) <= eps * distance
  {
    Regroup(p, small, distance);
    Grows(p * small, eps, distance);
  }

  lemma ScaleDerivative(f: real -> real, h: real -> real, x: real, a: real, p: real, d: real)
    requires HasDerivative(f, x, a) && (forall y: real :: h(y) == p * f(y)) && d == p * a
    ensures HasDerivative(h, x, d)
  {
    forall eps: real | eps > 0.0
      ensures Near(h, x, d, eps)
    {
      var small := Share(eps, Magnitude(p) + 1.0);
      assert Near(f, x, a, small);
      var delta: real :| Within(f, x, a, small, delta);
      forall y: real | Magnitude(y - x) < delta
        ensures Close(h(y) - h(x), y - x, d, eps)
      {
        ScaledChange(p, f(y), f(x));
        ScaleAt(f(y) - f(x), h(y) - h(x), y - x, a, p, small, eps);
      }
      assert Within(h, x, d, eps, delta);
    }
  }

  // ----- Composition

  lemma MoveBound(error: real, part: real, size: real, distance: real, e: real)
    requires Magnitude(error) <= e * distance && Magnitude(part) == distance * size && e <= 1.0 && distance >= 0.0
    ensures Magnitude(error + part) <= (size + 1.0) * distance
  {
    Triangle(error, part);
    Grows(e, 1.0, distance);
    Distributes(size, 1.0, distance);
  }

  /** A function moves at most in proportion to the step. */
  lemma MoveIsSmall(move: real, k: real, a: real, e: real, size: real)
    requires Close(move, k, a, e) && 0.0 < e <= 1.0 && size == Magnitude(a) + 1.0
    ensures Magnitude(move) <= size * Magnitude(k)
  {
    MagnitudeOfProduct(k, a);
    MoveBound(move - k * a, k * a, Magnitude(a), Magnitude(k), e);
  }

  lemma Reaches(move: real, k: real, outer: real, reach: real, bound: real)
    requires Magnitude(move) <= outer * Magnitude(k) && outer >= 1.0 && Magnitude(k) < reach && reach * outer == bound
    ensures Magnitude(move) < bound
  {
    GrowsStrictly(Magnitude(k), reach, outer);
  }

  lemma OuterError(move: real, k: real, e2: real, outer: real, half: real)
    requires Magnitude(move) <= outer * Magnitude(k) && e2 > 0.0 && e2 * outer == half
    ensures e2 * Magnitude(move) <= half * Magnitude(k)
  {
    Grows(Magnitude(move), outer * Magnitude(k), e2);
    Regroup(e2, outer, Magnitude(k));
  }

  lemma InnerError(error: real, k: real, c: real, e: real, size: real, half: real)
    requires Magnitude(error) <= e * Magnitude(k) && 0.0 < e && size == Magnitude(c) + 1.0 && e * size <= half
    ensures Magnitude(error * c) <= half * Magnitude(k)
  {
    MagnitudeOfProduct(error, c);
    Grows(Magnitude(error), e * Magnitude(k), Magnitude(c));
    ScaledBound(Magnitude(c), e, Magnitude(k), e * size);
    Grows(e * size, half, Magnitude(k));
  }

  lemma SplitError(change: real, move: real, k: real, a: real, c: real)
    ensures change - k * (c * a) == (change - move * c) + (move - k * a) * c
  {
    Regroup(k, c, a);
    Regroup(k, a, c);
    assert (move - k * a) * c == move * c - (k * a) * c;
  }

  lemma ErrorsJoin(off: real, u: real, w: real, half: real, distance: real, eps: real)
    requires off == u + w && Magnitude(u) <= half * distance && Magnitude(w) <= half * distance && half + half == eps
    ensures Magnitude(off) <= eps * distance
  {
    Triangle(u, w);
    Distributes(half, half, distance);
  }

  lemma OuterPart(error: real, move: real, k: real, size: real, half: real, outer: real)
    requires Magnitude(error) <= outer * Magnitude(move) && Magnitude(move) <= size * Magnitude(k) && outer > 0.0 && outer * size == half
    ensures Magnitude(error) <= half * Magnitude(k)
  {
    OuterError(move, k, outer, size, half);
  }

  lemma PartsJoin(change: real, move: real, k: real, a: real, c: real, d: real, u: real, w: real, bound: real, half: real, eps: real)
    requires u == change - move * c && w == (move - k * a) * c && bound == half * Magnitude(k) && d == c * a && half + half == eps
    requires Magnitude(u) <= bound && Magnitude(w) <= bound
    ensures Close(change, k, d, eps)
  {
    SplitError(change, move, k, a, c);
    ErrorsJoin(change - k * (c * a), u, w, half, Magnitude(k), eps);
  }

  lemma ChainOuter(change: real, move: real, k: real, a: real, c: real, u: real, inner: real, outer: real, size: real, half: real, bound: real)
    requires Close(change, move, c, outer) && Close(move, k, a, inner) && u == change - move * c && bound == half * Magnitude(k)
    requires 0.0 < inner <= 1.0 && outer > 0.0 && size == Magnitude(a) + 1.0 && outer * size == half
    ensures Magnitude(u) <= bound
  {
    MoveIsSmall(move, k, a, inner, size);
    OuterPart(u, move, k, size, half, outer);
  }

  lemma ChainInner(move: real, k: real, a: real, c: real, w: real, inner: real, size: real, half: real, bound: real)
    requires Close(move, k, a, inner) && 0.0 < inner && size == Magnitude(c) + 1.0 && inner * size <= half
    requires w == (move - k * a) * c && bound == half * Magnitude(k)
    ensures Magnitude(w) <= bound
  {
    InnerError(move - k * a, k, c, inner, size, half);
  }

  lemma ChainAt(change: real, move: real, k: real, a: real, c: real, d: real, u: real, w: real, bound: real,
                inner: real, outer: real, sizeA: real, sizeC: real, half: real, eps: real)
    requires Close(change, move, c, outer) && Close(move, k, a, inner)
    requires u == change - move * c && w == (move - k * a) * c && bound == half * Magnitude(k) && d == c * a
    requires 0.0 < inner <= 1.0 && outer > 0.0 && half + half == eps
    requires sizeA == Magnitude(a) + 1.0 && outer * sizeA == half && sizeC == Magnitude(c) + 1.0 && inner * sizeC <= half
    ensures Close(change, k, d, eps)
  {
    ChainOuter(change, move, k, a, c, u, inner, outer, sizeA, half, bound);
    ChainInner(move, k, a, c, w, inner, sizeC, half, bound);
    PartsJoin(change, move, k, a, c, d, u, w, bound, half, eps);
  }

  lemma ChainNear(f: real -> real, g: real -> real, h: real -> real, x: real, a: real, c: real, d: real, inner: real, outer: real,
                  sizeA: real, sizeC: real, half: real, eps: real)
    requires HasDerivative(f, x, a) && HasDerivative(g, f(x), c) && (forall y: real :: h(y) == g(f(y))) && d == c * a
    requires 0.0 < inner <= 1.0 && outer > 0.0 && half + half == eps
    requires sizeA == Magnitude(a) + 1.0 && outer * sizeA == half && sizeC == Magnitude(c) + 1.0 && inner * sizeC <= half
    ensures Near(h, x, d, eps)
  {
    assert Near(f, x, a, inner) && Near(g, f(x), c, outer);
    var df: real :| Within(f, x, a, inner, df);
    var dg: real :| Within(g, f(x), c, outer, dg);
    var dc := Continuous(f, x, a, dg);
    var delta := if df < dc then df else dc;
    forall y: real | Magnitude(y - x) < delta
      ensures Close(h(y) - h(x), y - x, d, eps)
    {
      var change, move, k := g(f(y)) - g(f(x)), f(y) - f(x), y - x;
      ChainAt(change, move, k, a, c, d, change - move * c, (move - k * a) * c, half * Magnitude(k), inner, outer, sizeA, sizeC, half, eps);
    }
    assert Within(h, x, d, eps, delta);
  }

  lemma Chain(f: real -> real, g: real -> real, h: real -> real, x: real, a: real, c: real, d: real)
    requires HasDerivative(f, x, a) && HasDerivative(g, f(x), c) && (forall y: real :: h(y) == g(f(y))) && d == c * a
    ensures HasDerivative(h, x, d)
  {
    forall eps: real | eps > 0.0
      ensures Near(h, x, d, eps)
    {
      var half, sizeA, sizeC := eps / 2.0, Magnitude(a) + 1.0, Magnitude(c) + 1.0;
      var outer := Share(half, sizeA);
      var inner := Share(half, sizeC);
      var least := if inner < 1.0 then inner else 1.0;
      Grows(least, inner, sizeC);
      ChainNear(f, g, h, x, a, c, d, least, outer, sizeA, sizeC, half, eps);
    }
  }

  // ----- Products

  lemma SquareAt(y: real, x: real, eps: real)
    requires Magnitude(y - x) < eps
    ensures Close(y * y - x * x, y - x, 2.0 * x, eps)
  {
    assert y * y - x * x - (y - x) * (2.0 * x) == (y - x) * (y - x);
    MagnitudeOfProduct(y - x, y - x);
    Grows(Magnitude(y - x), eps, Magnitude(y - x));
  }

  lemma SquareDerivative(f: real -> real, x: real, d: real)
    requires (forall y: real :: f(y) == y * y) && d == 2.0 * x
    ensures HasDerivative(f, x, d)
  {
    forall eps: real | eps > 0.0
      ensures Near(f, x, d, eps)
    {
      forall y: real | Magnitude(y - x) < eps
        ensures Close(f(y) - f(x), y - x, d, eps)
      {
        SquareAt(y, x, eps);
      }
      assert Within(f, x, d, eps, eps);
    }
  }

  /** The square of a function. */
  lemma SquaredDerivative(f: real -> real, h: real -> real, x: real, a: real, d: real)
    requires HasDerivative(f, x, a) && (forall y: real :: h(y) == f(y) * f(y)) && d == 2.0 * f(x) * a
    ensures HasDerivative(h, x, d)
  {
    var square := (y: real) => y * y;
    SquareDerivative(square, f(x), 2.0 * f(x));
    Chain(f, square, h, x, a, 2.0 * f(x), d);
  }

  lemma SumSquared(f: real -> real, g: real -> real, h: real -> real, x: real, a: real, b: real, d: real)
    requires HasDerivative(f, x, a) && HasDerivative(g, x, b)
    requires (forall y: real :: h(y) == (f(y) + g(y)) * (f(y) + g(y))) && d == 2.0 * (f(x) + g(x)) * (a + b)
    ensures HasDerivative(h, x, d)
  {
    var sum := (y: real) => f(y) + g(y);
    SumDerivative(f, g, sum, x, a, b, a + b);
    SquaredDerivative(sum, h, x, a + b, d);
  }

  lemma QuarterOfDifference(plus: real -> real, minus: real -> real, h: real -> real, x: real, up: real, down: real, d: real)
    requires HasDerivative(plus, x, up) && HasDerivative(minus, x, down)
    requires (forall y: real :: h(y) == 0.25 * plus(y) + -0.25 * minus(y)) && d == 0.25 * up + -0.25 * down
    ensures HasDerivative(h, x, d)
  {
    var p, m := (y: real) => 0.25 * plus(y), (y: real) => -0.25 * minus(y);
    ScaleDerivative(plus, p, x, up, 0.25, 0.25 * up);
    ScaleDerivative(minus, m, x, down, -0.25, -0.25 * down);
    SumDerivative(p, m, h, x, 0.25 * up, -0.25 * down, d);
  }

  ghost function SquareOfSum(f: real -> real, g: real -> real): real -> real {
    (y: real) => (f(y) + g(y)) * (f(y) + g(y))
  }

  ghost function Negated(g: real -> real): real -> real {
    (y: real) => -1.0 * g(y)
  }

  /** The product rule, from the squares of sum and difference. */
  lemma ProductDerivative(f: real -> real, g: real -> real, h: real -> real, x: real, a: real, b: real, d: real)
    requires HasDerivative(f, x, a) && HasDerivative(g, x, b) && (forall y: real :: h(y) == f(y) * g(y)) && d == a * g(x) + f(x) * b
    ensures HasDerivative(h, x, d)
  {
    var up, down := 2.0 * (f(x) + g(x)) * (a + b), 2.0 * (f(x) + Negated(g)(x)) * (a + -b);
    ScaleDerivative(g, Negated(g), x, b, -1.0, -b);
    SumSquared(f, g, SquareOfSum(f, g), x, a, b, up);
    SumSquared(f, Negated(g), SquareOfSum(f, Negated(g)), x, a, -b, down);
    Polarized(f, g, h);
    PolarizedRate(f(x), g(x), a, b);
    QuarterOfDifference(SquareOfSum(f, g), SquareOfSum(f, Negated(g)), h, x, up, down, d);
  }

  lemma Polarized(f: real -> real, g: real -> real, h: real -> real)
    requires forall y: real :: h(y) == f(y) * g(y)
    ensures forall y: real :: h(y) == 0.25 * SquareOfSum(f, g)(y) + -0.25 * SquareOfSum(f, Negated(g))(y)
  {
    forall y: real
      ensures h(y) == 0.25 * SquareOfSum(f, g)(y) + -0.25 * SquareOfSum(f, Negated(g))(y)
    {
      Polarization(f(y), g(y));
    }
  }

  lemma Polarization(p: real, q: real)
    ensures p * q == 0.25 * ((p + q) * (p + q)) + -0.25 * ((p + -1.0 * q) * (p + -1.0 * q))
  {
  }

  lemma PolarizedRate(p: real, q: real, a: real, b: real)
    ensures 0.25 * (2.0 * (p + q) * (a + b)) + -0.25 * (2.0 * (p + -1.0 * q) * (a + -b)) == a * q + p * b
  {
  }

  // ----- Reciprocals

  /** The error of the line through `1 / x`, times `x * x * y`, is the square of the step. */
  lemma ReciprocalRemainder(x: real, y: real, p: real, q: real, r: real)
    requires p * y == 1.0 && q * x == 1.0 && r * (x * x) == -1.0
    ensures (p - q - (y - x) * r) * (x * x * y) == (y - x) * (y - x)
  {
    var bottom := x * x * y;
    assert p * bottom == (x * x) * (p * y);
    assert q * bottom == (q * x) * (x * y);
    assert ((y - x) * r) * bottom == ((y - x) * y) * (r * (x * x));
    assert (p - q - (y - x) * r) * bottom == p * bottom - q * bottom - ((y - x) * r) * bottom;
    assert x * x - x * y + (y - x) * y == (y - x) * (y - x);
  }

  /** A quotient of a square by something large is small. */
  lemma SmallQuotient(error: real, bottom: real, k: real, eps: real, cube: real)
    requires error * bottom == k * k && Magnitude(bottom) >= cube > 0.0 && Magnitude(k) < eps * cube && eps > 0.0
    ensures Magnitude(error) <= eps * Magnitude(k)
  {
    MagnitudeOfProduct(error, bottom);
    MagnitudeOfProduct(k, k);
    var bound := eps * Magnitude(k);
    Grows(Magnitude(k), eps * cube, Magnitude(k));
    Grows(cube, Magnitude(bottom), bound);
    Regroup(eps, cube, Magnitude(k));
    if Magnitude(error) > bound {
      GrowsStrictly(bound, Magnitude(error), Magnitude(bottom));
    }
  }

  lemma FarFromZero(x: real, y: real)
    requires x != 0.0 && Magnitude(y - x) < Magnitude(x) / 2.0
    ensures Magnitude(y) >= Magnitude(x) / 2.0 && y != 0.0
  {
  }

  lemma CubeIsPositive(x: real, half: real, square: real, cube: real)
    requires x != 0.0 && half == Magnitude(x) / 2.0 && square == Magnitude(x) * Magnitude(x) && cube == square * half
    ensures square > 0.0 && cube > 0.0
  {
    PositiveProduct(Magnitude(x), Magnitude(x), square);
    PositiveProduct(square, half, cube);
  }

  lemma CubeBelow(x: real, y: real, half: real, square: real, cube: real)
    requires square == Magnitude(x) * Magnitude(x) && cube == square * half && square > 0.0 && Magnitude(y) >= half
    ensures Magnitude(x * x * y) >= cube
  {
    MagnitudeOfProduct(x * x, y);
    MagnitudeOfProduct(x, x);
    Grows(half, Magnitude(y), square);
  }

  lemma ReciprocalAt(x: real, y: real, p: real, q: real, r: real, eps: real, half: real, cube: real)
    requires p * y == 1.0 && q * x == 1.0 && r * (x * x) == -1.0
    requires eps > 0.0 && Magnitude(x * x * y) >= cube > 0.0 && Magnitude(y - x) < eps * cube
    ensures Close(p - q, y - x, r, eps)
  {
    ReciprocalRemainder(x, y, p, q, r);
    SmallQuotient(p - q - (y - x) * r, x * x * y, y - x, eps, cube);
  }

  lemma ReciprocalPoint(x: real, y: real, p: real, q: real, d: real, eps: real, half: real, square: real, cube: real, reach: real)
    requires x != 0.0 && half == Magnitude(x) / 2.0 && square == Magnitude(x) * Magnitude(x) && cube == square * half && square > 0.0 && cube > 0.0
    requires reach == eps * cube && eps > 0.0 && Magnitude(y - x) < half && Magnitude(y - x) < reach
    requires (y != 0.0 ==> p * y == 1.0) && q * x == 1.0 && d * (x * x) == -1.0
    ensures Close(p - q, y - x, d, eps)
  {
    FarFromZero(x, y);
    CubeBelow(x, y, half, square, cube);
    ReciprocalAt(x, y, p, q, d, eps, half, cube);
  }

  lemma ReciprocalWithin(f: real -> real, x: real, d: real, eps: real, half: real, square: real, cube: real, reach: real, delta: real)
    requires x != 0.0 && half == Magnitude(x) / 2.0 && square == Magnitude(x) * Magnitude(x) && cube == square * half && square > 0.0 && cube > 0.0
    requires reach == eps * cube && eps > 0.0 && 0.0 < delta <= half && delta <= reach
    requires (forall y: real :: y != 0.0 ==> f(y) * y == 1.0) && d * (x * x) == -1.0
    ensures Within(f, x, d, eps, delta)
  {
    forall y: real | Magnitude(y - x) < delta
      ensures Close(f(y) - f(x), y - x, d, eps)
    {
      ReciprocalPoint(x, y, f(y), f(x), d, eps, half, square, cube, reach);
    }
  }

  lemma ReciprocalNear(f: real -> real, x: real, d: real, eps: real)
    requires x != 0.0 && (forall y: real :: y != 0.0 ==> f(y) * y == 1.0) && d * (x * x) == -1.0 && eps > 0.0
    ensures Near(f, x, d, eps)
  {
    var half, square := Magnitude(x) / 2.0, Magnitude(x) * Magnitude(x);
    var cube := square * half;
    CubeIsPositive(x, half, square, cube);
    var reach := eps * cube;
    PositiveProduct(eps, cube, reach);
    ReciprocalWithin(f, x, d, eps, half, square, cube, reach, if half < reach then half else reach);
  }

  lemma ReciprocalDerivative(f: real -> real, x: real, d: real)
    requires x != 0.0 && (forall y: real :: y != 0.0 ==> f(y) * y == 1.0) && d * (x * x) == -1.0
    ensures HasDerivative(f, x, d)
  {
    forall eps: real | eps > 0.0
      ensures Near(f, x, d, eps)
    {
      ReciprocalNear(f, x, d, eps);
    }
  }

  // ----- Staying on one side

  lemma MovesBelow(move: real, k: real, d: real, size: real, reach: real, margin: real)
    requires Close(move, k, d, 1.0) && Magnitude(k) < reach && reach * size == margin && size == Magnitude(d) + 1.0
    ensures Magnitude(move) < margin
  {
    MoveIsSmall(move, k, d, 1.0, size);
    Reaches(move, k, size, reach, margin);
  }

  lemma StepsBelow(f: real -> real, x: real, d: real, near: real, size: real, reach: real, margin: real)
    requires Within(f, x, d, 1.0, near) && reach * size == margin && size == Magnitude(d) + 1.0
    ensures forall y: real :: Magnitude(y - x) < near && Magnitude(y - x) < reach ==> Magnitude(f(y) - f(x)) < margin
  {
    forall y: real | Magnitude(y - x) < near && Magnitude(y - x) < reach
      ensures Magnitude(f(y) - f(x)) < margin
    {
      MovesBelow(f(y) - f(x), y - x, d, size, reach, margin);
    }
  }

  /** A function with a derivative at a point does not jump there. */
  lemma Continuous(f: real -> real, x: real, d: real, margin: real) returns (delta: real)
    requires HasDerivative(f, x, d) && margin > 0.0
    ensures delta > 0.0 && forall y: real :: Magnitude(y - x) < delta ==> Magnitude(f(y) - f(x)) < margin
  {
    assert Near(f, x, d, 1.0);
    var near: real :| Within(f, x, d, 1.0, near);
    var size := Magnitude(d) + 1.0;
    var reach := Share(margin, size);
    StepsBelow(f, x, d, near, size, reach, margin);
    delta := if near < reach then near else reach;
  }

  lemma KeepsSign(f: real -> real, x: real, d: real) returns (delta: real)
    requires HasDerivative(f, x, d) && f(x) != 0.0
    ensures delta > 0.0 && forall y: real :: Magnitude(y - x) < delta ==> (f(y) > 0.0 <==> f(x) > 0.0) && f(y) != 0.0
  {
    delta := Continuous(f, x, d, Magnitude(f(x)));
  }

  // ----- Uniqueness

  lemma SlopesAgree(change: real, k: real, a: real, b: real, eps: real, apart: real)
    requires Close(change, k, a, eps) && Close(change, k, b, eps) && k > 0.0 && eps > 0.0 && apart == k * (a - b)
    ensures Magnitude(a - b) <= eps + eps
  {
    var u, v, bound := change - k * a, change - k * b, eps * k;
    assert apart == v - u;
    Triangle(v, -u);
    MagnitudeOfProduct(k, a - b);
    Distributes(eps, eps, k);
    assert Magnitude(apart) <= bound + bound == (eps + eps) * k;
    if Magnitude(a - b) > eps + eps {
      GrowsStrictly(eps + eps, Magnitude(a - b), k);
    }
  }

  /** A function has at most one derivative at a point. */
  lemma DerivativeOnce(f: real -> real, x: real, a: real, b: real)
    requires HasDerivative(f, x, a) && HasDerivative(f, x, b)
    ensures a == b
  {
    if a != b {
      var eps := Magnitude(a - b) / 4.0;
      assert Near(f, x, a, eps) && Near(f, x, b, eps);
      var da: real :| Within(f, x, a, eps, da);
      var db: real :| Within(f, x, b, eps, db);
      var k := (if da < db then da else db) / 2.0;
      assert Close(f(x + k) - f(x), x + k - x, a, eps) && Close(f(x + k) - f(x), x + k - x, b, eps);
      SlopesAgree(f(x + k) - f(x), k, a, b, eps, k * (a - b));
    }
  }
}
