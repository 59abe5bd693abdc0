/** What the fused GELU steps compute in exact arithmetic, and how close their constants are to the intended numbers. */
module GeluMeaning {
  import opened Arithmetic
  import opened KernelExprs
  import opened FoldMeaning

  // ----- Constants

  lemma Scales(c: real, p: real, q: real, all: real, m: real)
    requires all == p * q && c * p == m
    ensures c * all == m * q
  {
    assert c * (p * q) == (c * p) * q;
  }

  lemma UnitsAre(bits: Bits, exponent: nat, fraction: nat, m: real, q: real)
    requires 0 < exponent < 1075 && fraction < FRACTION && bits == FRACTION * exponent + fraction
    requires m == (FRACTION + fraction) as real && q == Power(exponent - 1)
    ensures ExponentOf(bits) == exponent && SignOf(bits) == 0 && Units(bits) == m * q
  {
    FieldsOf(bits, 0, exponent, fraction);
  }

  /** A positive normal bit pattern, by its exponent and fraction fields. */
  lemma NormalEncodes(bits: Bits, exponent: nat, fraction: nat, down: nat, c: real, p: real, q: real, m: real)
    requires 0 < exponent < 1075 && fraction < FRACTION && bits == FRACTION * exponent + fraction && down == 1075 - exponent
    requires p == Power(down) && q == Power(exponent - 1) && m == (FRACTION + fraction) as real && c * p == m
    ensures Encodes(bits, Finite(c))
  {
    UnitsAre(bits, exponent, fraction, m, q);
    PowerSum(down, exponent - 1);
    Scales(c, p, q, Power(1074), m);
  }

  lemma PowersOfTwo()
    ensures Power(53) == 9007199254740992.0 && Power(57) == 144115188075855872.0
  {
    PowerOf52();
    assert Power(53) == 2.0 * Power(52);
    PowerSum(53, 4);
    assert Power(4) == 16.0;
  }

  const UNIT53: real := 1.0 / 9007199254740992.0
  const UNIT57: real := 1.0 / 144115188075855872.0

  /** Half the distance to the neighbouring numbers on either side encloses the inverse square root of two. */
  ghost predicate IsInverseRootOfTwo(c: real) {
    c > 0.0 && 2.0 * ((c - UNIT53 / 2.0) * (c - UNIT53 / 2.0)) < 1.0 < 2.0 * ((c + UNIT53 / 2.0) * (c + UNIT53 / 2.0))
  }

  ghost predicate IsNear(c: real, intended: real, unit: real) {
    -(unit / 2.0) <= c - intended <= unit / 2.0
  }

  lemma InverseRootEncodes() returns (c: real)
    ensures Encodes(FRAC_1_SQRT_2, Finite(c)) && IsInverseRootOfTwo(c)
  {
    c := 6369051672525773.0 / 9007199254740992.0;
    PowersOfTwo();
    var fraction := FRAC_1_SQRT_2 - FRACTION * 1022;
    NormalEncodes(FRAC_1_SQRT_2, 1022, fraction, 53, c, Power(53), Power(1021), (FRACTION + fraction) as real);
  }

  lemma CubicEncodes() returns (c: real)
    ensures Encodes(GELU_CUBIC, Finite(c)) && IsNear(c, 0.044715, UNIT57)
  {
    c := 6444110634811895.0 / 144115188075855872.0;
    PowersOfTwo();
    var fraction := GELU_CUBIC - FRACTION * 1018;
    NormalEncodes(GELU_CUBIC, 1018, fraction, 57, c, Power(57), Power(1017), (FRACTION + fraction) as real);
  }

  lemma ScaleEncodes() returns (c: real)
    ensures Encodes(SQRT_2_OVER_PI, Finite(c)) && IsNear(c, 0.7978845608028654, UNIT53)
  {
    c := 7186705221432913.0 / 9007199254740992.0;
    PowersOfTwo();
    var fraction := SQRT_2_OVER_PI - FRACTION * 1022;
    NormalEncodes(SQRT_2_OVER_PI, 1022, fraction, 53, c, Power(53), Power(1021), (FRACTION + fraction) as real);
  }

  lemma HalfAndOneEncode()
    ensures Encodes(HALF, Finite(0.5)) && Encodes(ONE, Finite(1.0))
  {
    PowersOfTwo();
    PowerOf52();
    NormalEncodes(HALF, 1022, 0, 53, 0.5, Power(53), Power(1021), FRACTION as real);
    NormalEncodes(ONE, 1023, 0, 52, 1.0, Power(52), Power(1022), FRACTION as real);
  }

  // ----- The steps

  ghost predicate MathIs(s: Scalars<Extended>, op: UnaryOp, f: real -> real) {
    forall y: real :: s.math(op, Finite(y)) == Finite(f(y))
  }

  lemma MathAt(s: Scalars<Extended>, op: UnaryOp, f: real -> real, y: real)
    requires MathIs(s, op, f)
    ensures s.math(op, Finite(y)) == Finite(f(y))
  {
  }

  lemma ConstantIs(s: Scalars<Extended>, bits: Bits, c: real)
    requires Exact(s) && Encodes(bits, Finite(c))
    ensures s.fromBits(bits) == Finite(c)
  {
  }

  lemma Adds(s: Scalars<Extended>, a: real, b: real, sum: real)
    requires Exact(s) && sum == a + b
    ensures s.arithmetic(Add, Finite(a), Finite(b)) == Finite(sum)
  {
  }

  lemma Multiplies(s: Scalars<Extended>, a: real, b: real, product: real)
    requires Exact(s) && product == a * b
    ensures s.arithmetic(Mul, Finite(a), Finite(b)) == Finite(product)
  {
  }

  /** The steps of one evaluation, by their results. */
  lemma GeluSteps(s: Scalars<Extended>, x: Extended, c: Extended, half: Extended, one: Extended, scaled: Extended, inner: Extended,
                  halved: Extended, sum: Extended, r: Extended)
    requires s.fromBits(FRAC_1_SQRT_2) == c && s.fromBits(HALF) == half && s.fromBits(ONE) == one
    requires s.arithmetic(Mul, x, c) == scaled && s.math(Erf, scaled) == inner && s.arithmetic(Mul, x, half) == halved
    requires s.arithmetic(Add, one, inner) == sum && s.arithmetic(Mul, halved, sum) == r
    ensures UnaryValue(s, Gelu, x) == r
  {
  }

  lemma GeluTanhSteps(s: Scalars<Extended>, x: Extended, k: Extended, q: Extended, half: Extended, one: Extended, square: Extended,
                      cube: Extended, cubic: Extended, bent: Extended, scaled: Extended, inner: Extended, halved: Extended, sum: Extended,
                      r: Extended)
    requires s.fromBits(GELU_CUBIC) == k && s.fromBits(SQRT_2_OVER_PI) == q && s.fromBits(HALF) == half && s.fromBits(ONE) == one
    requires s.arithmetic(Mul, x, x) == square && s.arithmetic(Mul, square, x) == cube && s.arithmetic(Mul, cube, k) == cubic
    requires s.arithmetic(Add, x, cubic) == bent && s.arithmetic(Mul, bent, q) == scaled && s.math(Tanh, scaled) == inner
    requires s.arithmetic(Mul, x, half) == halved && s.arithmetic(Add, one, inner) == sum && s.arithmetic(Mul, halved, sum) == r
    ensures UnaryValue(s, GeluTanh, x) == r
  {
  }

  /** `x / 2 * (1 + g)`, the shape of both forms. */
  function Gated(x: real, g: real): real {
    x * 0.5 * (1.0 + g)
  }

  lemma GatedIs(x: real, g: real, halved: real, sum: real)
    requires halved == x * 0.5 && sum == 1.0 + g
    ensures Gated(x, g) == halved * sum
  {
  }

  /** The argument of the hyperbolic tangent. */
  function Bent(x: real, k: real, q: real): real {
    (x + x * x * x * k) * q
  }

  lemma GatedComputes(s: Scalars<Extended>, x: real, inner: real, halved: real, sum: real)
    requires Exact(s) && Encodes(HALF, Finite(0.5)) && Encodes(ONE, Finite(1.0)) && halved == x * 0.5 && sum == 1.0 + inner
    ensures s.fromBits(HALF) == Finite(0.5) && s.fromBits(ONE) == Finite(1.0) && s.arithmetic(Mul, Finite(x), Finite(0.5)) == Finite(halved)
    ensures s.arithmetic(Add, Finite(1.0), Finite(inner)) == Finite(sum)
    ensures s.arithmetic(Mul, Finite(halved), Finite(sum)) == Finite(Gated(x, inner))
  {
    ConstantIs(s, HALF, 0.5);
    ConstantIs(s, ONE, 1.0);
    Multiplies(s, x, 0.5, halved);
    Adds(s, 1.0, inner, sum);
    GatedIs(x, inner, halved, sum);
    Multiplies(s, halved, sum, Gated(x, inner));
  }

  lemma GeluAt(s: Scalars<Extended>, erf: real -> real, c: real, x: real, scaled: real, inner: real, halved: real, sum: real)
    requires Exact(s) && MathIs(s, Erf, erf) && Encodes(FRAC_1_SQRT_2, Finite(c))
    requires Encodes(HALF, Finite(0.5)) && Encodes(ONE, Finite(1.0))
    requires scaled == x * c && inner == erf(scaled) && halved == x * 0.5 && sum == 1.0 + inner
    ensures UnaryValue(s, Gelu, Finite(x)) == Finite(Gated(x, inner))
  {
    ConstantIs(s, FRAC_1_SQRT_2, c);
    Multiplies(s, x, c, scaled);
    MathAt(s, Erf, erf, scaled);
    GatedComputes(s, x, inner, halved, sum);
    GeluSteps(s, Finite(x), Finite(c), Finite(0.5), Finite(1.0), Finite(scaled), Finite(inner), Finite(halved), Finite(sum),
              Finite(Gated(x, inner)));
  }

  lemma BentIs(x: real, k: real, q: real, square: real, cube: real, cubic: real, bent: real)
    requires square == x * x && cube == square * x && cubic == cube * k && bent == x + cubic
    ensures Bent(x, k, q) == bent * q
  {
  }

  lemma BentComputes(s: Scalars<Extended>, k: real, q: real, x: real, square: real, cube: real, cubic: real, bent: real, scaled: real)
    requires Exact(s) && Encodes(GELU_CUBIC, Finite(k)) && Encodes(SQRT_2_OVER_PI, Finite(q))
    requires square == x * x && cube == square * x && cubic == cube * k && bent == x + cubic && scaled == bent * q
    ensures s.fromBits(GELU_CUBIC) == Finite(k) && s.fromBits(SQRT_2_OVER_PI) == Finite(q)
    ensures s.arithmetic(Mul, Finite(x), Finite(x)) == Finite(square) && s.arithmetic(Mul, Finite(square), Finite(x)) == Finite(cube)
    ensures s.arithmetic(Mul, Finite(cube), Finite(k)) == Finite(cubic) && s.arithmetic(Add, Finite(x), Finite(cubic)) == Finite(bent)
    ensures s.arithmetic(Mul, Finite(bent), Finite(q)) == Finite(scaled)
  {
    ConstantIs(s, GELU_CUBIC, k);
    ConstantIs(s, SQRT_2_OVER_PI, q);
    Multiplies(s, x, x, square);
    Multiplies(s, square, x, cube);
    Multiplies(s, cube, k, cubic);
    Adds(s, x, cubic, bent);
    Multiplies(s, bent, q, scaled);
  }

  lemma GeluTanhAt(s: Scalars<Extended>, tanh: real -> real, k: real, q: real, x: real, square: real, cube: real, cubic: real, bent: real,
                   scaled: real, inner: real, halved: real, sum: real)
    requires Exact(s) && MathIs(s, Tanh, tanh)
    requires Encodes(GELU_CUBIC, Finite(k)) && Encodes(SQRT_2_OVER_PI, Finite(q)) && Encodes(HALF, Finite(0.5)) && Encodes(ONE, Finite(1.0))
    requires square == x * x && cube == square * x && cubic == cube * k && bent == x + cubic && scaled == bent * q
    requires inner == tanh(scaled) && halved == x * 0.5 && sum == 1.0 + inner
    ensures UnaryValue(s, GeluTanh, Finite(x)) == Finite(Gated(x, inner))
  {
    BentComputes(s, k, q, x, square, cube, cubic, bent, scaled);
    MathAt(s, Tanh, tanh, scaled);
    GatedComputes(s, x, inner, halved, sum);
    GeluTanhSteps(s, Finite(x), Finite(k), Finite(q), Finite(0.5), Finite(1.0), Finite(square), Finite(cube), Finite(cubic), Finite(bent),
                  Finite(scaled), Finite(inner), Finite(halved), Finite(sum), Finite(Gated(x, inner)));
  }

  lemma GeluWith(s: Scalars<Extended>, erf: real -> real, c: real, x: real)
    requires Exact(s) && MathIs(s, Erf, erf) && Encodes(FRAC_1_SQRT_2, Finite(c))
    ensures UnaryValue(s, Gelu, Finite(x)) == Finite(Gated(x, erf(x * c)))
  {
    var scaled := x * c;
    HalfAndOneEncode();
    GeluAt(s, erf, c, x, scaled, erf(scaled), x * 0.5, 1.0 + erf(scaled));
  }

  lemma GeluTanhWith(s: Scalars<Extended>, tanh: real -> real, k: real, q: real, x: real)
    requires Exact(s) && MathIs(s, Tanh, tanh) && Encodes(GELU_CUBIC, Finite(k)) && Encodes(SQRT_2_OVER_PI, Finite(q))
    ensures UnaryValue(s, GeluTanh, Finite(x)) == Finite(Gated(x, tanh(Bent(x, k, q))))
  {
    var square := x * x;
    var cube := square * x;
    var cubic := cube * k;
    var bent := x + cubic;
    BentIs(x, k, q, square, cube, cubic, bent);
    var inner := tanh(Bent(x, k, q));
    HalfAndOneEncode();
    GeluTanhAt(s, tanh, k, q, x, square, cube, cubic, bent, Bent(x, k, q), inner, x * 0.5, 1.0 + inner);
  }

  /** `x / 2 * (1 + erf(x / sqrt 2))`, with the nearest constant. */
  lemma GeluComputes(s: Scalars<Extended>, erf: real -> real) returns (c: real)
    requires Exact(s) && MathIs(s, Erf, erf)
    ensures IsInverseRootOfTwo(c)
    ensures forall x: real :: UnaryValue(s, Gelu, Finite(x)) == Finite(Gated(x, erf(x * c)))
  {
    c := InverseRootEncodes();
    forall x: real
      ensures UnaryValue(s, Gelu, Finite(x)) == Finite(Gated(x, erf(x * c)))
    {
      GeluWith(s, erf, c, x);
    }
  }

  /** `x / 2 * (1 + tanh(q (x + k x^3)))`, with the nearest constants. */
  lemma GeluTanhComputes(s: Scalars<Extended>, tanh: real -> real) returns (k: real, q: real)
    requires Exact(s) && MathIs(s, Tanh, tanh)
    ensures IsNear(k, 0.044715, UNIT57) && IsNear(q, 0.7978845608028654, UNIT53)
    ensures forall x: real :: UnaryValue(s, GeluTanh, Finite(x)) == Finite(Gated(x, tanh(Bent(x, k, q))))
  {
    k := CubicEncodes();
    q := ScaleEncodes();
    forall x: real
      ensures UnaryValue(s, GeluTanh, Finite(x)) == Finite(Gated(x, tanh(Bent(x, k, q))))
    {
      GeluTanhWith(s, tanh, k, q, x);
    }
  }
}
