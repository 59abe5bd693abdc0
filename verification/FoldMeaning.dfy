/**
 * What a fused reduction computes in exact arithmetic: extended reals with the two infinities at the ends of their
 * order, and constants read from their bit patterns.
 */
module FoldMeaning {
  import opened Wrappers
  import opened Arithmetic
  import opened Strides
  import opened Reduction
  import opened KernelExprs
  import opened FusionRun

  datatype Extended = Below | Finite(value: real) | Above

  predicate Leq(a: Extended, b: Extended) {
    a.Below? || b.Above? || (a.Finite? && b.Finite? && a.value <= b.value)
  }

  // ----- Bit patterns

  const FRACTION: nat := 0x10_0000_0000_0000

  function Power(n: nat): (r: real)
    ensures r > 0.0
  {
    if n == 0 then 1.0 else 2.0 * Power(n - 1)
  }

  function SignOf(bits: Bits): nat {
    Quotient(Quotient(bits, FRACTION), 2048) % 2
  }

  function ExponentOf(bits: Bits): nat {
    Quotient(bits, FRACTION) % 2048
  }

  /** The magnitude of a finite bit pattern, in units of the least positive number. */
  function Units(bits: Bits): real {
    var f := Remainder(bits, FRACTION);
    if ExponentOf(bits) == 0 then f as real else (FRACTION + f) as real * Power(ExponentOf(bits) - 1)
  }

  /** The binary64 bit pattern stands for this number or infinity. */
  ghost predicate Encodes(bits: Bits, x: Extended) {
    if ExponentOf(bits) == 2047 then x == if SignOf(bits) == 1 then Below else Above
    else x.Finite? && x.value * Power(1074) == if SignOf(bits) == 1 then -Units(bits) else Units(bits)
  }

  // ----- Exact arithmetic

  ghost predicate ExactConstants(s: Scalars<Extended>) {
    forall bits: Bits, x :: Encodes(bits, x) ==> s.fromBits(bits) == x
  }

  ghost predicate ExactSums(s: Scalars<Extended>) {
    forall a: real, b: real :: s.arithmetic(Add, Finite(a), Finite(b)) == Finite(a + b)
  }

  ghost predicate ExactProducts(s: Scalars<Extended>) {
    && (forall a: real, b: real :: s.arithmetic(Mul, Finite(a), Finite(b)) == Finite(a * b))
    && (forall a: real, b: real :: b != 0.0 ==> s.arithmetic(Div, Finite(a), Finite(b)) == Finite(a / b))
  }

  ghost predicate ExactOrder(s: Scalars<Extended>) {
    && (forall a, b :: s.arithmetic(Max, a, b) == if Leq(a, b) then b else a)
    && (forall a, b :: s.arithmetic(Min, a, b) == if Leq(a, b) then a else b)
  }

  /** Finite sums, products and quotients and the order are exact; constants have the value they encode. */
  ghost predicate Exact(s: Scalars<Extended>) {
    ExactConstants(s) && ExactSums(s) && ExactProducts(s) && ExactOrder(s)
  }

  function ExactFinite(op: BinaryOp, x: real, y: real): real {
    if op == Add then x + y else if op == Mul then x * y else if op == Div && y != 0.0 then x / y else 0.0
  }

  function ExactOp(op: BinaryOp, a: Extended, b: Extended): Extended {
    if op == Max then (if Leq(a, b) then b else a)
    else if op == Min then (if Leq(a, b) then a else b)
    else
      match (a, b)
      case (Finite(x), Finite(y)) => Finite(ExactFinite(op, x, y))
      case _ => Finite(0.0)
  }

  function Decoded(bits: Bits): Extended {
    if ExponentOf(bits) == 2047 then if SignOf(bits) == 1 then Below else Above
    else Finite((if SignOf(bits) == 1 then -Units(bits) else Units(bits)) / Power(1074))
  }

  lemma QuotientIs(x: real, y: real, p: real)
    requires p > 0.0 && x * p == y
    ensures x == y / p
  {
  }

  lemma DecodedIsEncoded(bits: Bits, x: Extended)
    requires Encodes(bits, x)
    ensures Decoded(bits) == x
  {
    if ExponentOf(bits) != 2047 {
      QuotientIs(x.value, if SignOf(bits) == 1 then -Units(bits) else Units(bits), Power(1074));
    }
  }

  ghost function ExactScalars(): Scalars<Extended> {
    Scalars((bits: Bits) => Decoded(bits), (x: Extended, dtype) => x, (op, x: Extended) => x, (x: Extended, bits: Bits) => x,
            (op: BinaryOp, a: Extended, b: Extended) => ExactOp(op, a, b), (c: Extended, a: Extended, b: Extended) => a,
            (node: nat, dtype, x: Extended) => x)
  }

  /** There is such arithmetic. */
  lemma ExactArithmeticExists()
    ensures Exact(ExactScalars())
  {
    forall bits: Bits, x | Encodes(bits, x)
      ensures ExactScalars().fromBits(bits) == x
    {
      DecodedIsEncoded(bits, x);
    }
    SumsAreExact();
    ProductsAreExact();
    OrderIsExact();
  }

  lemma OperationIs(op: BinaryOp, a: Extended, b: Extended)
    ensures ExactScalars().arithmetic(op, a, b) == ExactOp(op, a, b)
  {
  }

  lemma FiniteOperationIs(op: BinaryOp, x: real, y: real)
    requires op != Max && op != Min
    ensures ExactOp(op, Finite(x), Finite(y)) == Finite(ExactFinite(op, x, y))
  {
  }

  lemma SumsAreExact()
    ensures ExactSums(ExactScalars())
  {
    forall a: real, b: real
      ensures ExactScalars().arithmetic(Add, Finite(a), Finite(b)) == Finite(a + b)
    {
      OperationIs(Add, Finite(a), Finite(b));
      FiniteOperationIs(Add, a, b);
    }
  }

  lemma ProductsAreExact()
    ensures ExactProducts(ExactScalars())
  {
    forall a: real, b: real
      ensures ExactScalars().arithmetic(Mul, Finite(a), Finite(b)) == Finite(a * b)
      ensures b != 0.0 ==> ExactScalars().arithmetic(Div, Finite(a), Finite(b)) == Finite(a / b)
    {
      OperationIs(Mul, Finite(a), Finite(b));
      FiniteOperationIs(Mul, a, b);
      OperationIs(Div, Finite(a), Finite(b));
      FiniteOperationIs(Div, a, b);
    }
  }

  lemma OrderIsExact()
    ensures ExactOrder(ExactScalars())
  {
    forall a, b
      ensures ExactScalars().arithmetic(Max, a, b) == if Leq(a, b) then b else a
      ensures ExactScalars().arithmetic(Min, a, b) == if Leq(a, b) then a else b
    {
      OperationIs(Max, a, b);
      OperationIs(Min, a, b);
    }
  }

  lemma PowerSum(a: nat, b: nat)
    ensures Power(a + b) == Power(a) * Power(b)
  {
    if a > 0 {
      PowerSum(a - 1, b);
    }
  }

  lemma PowerOf52()
    ensures Power(52) == FRACTION as real
  {
    assert Power(13) == 8192.0 by {
      assert Power(4) == 16.0;
      assert Power(8) == 256.0;
    }
    PowerSum(13, 13);
    PowerSum(26, 26);
  }

  /** The fields of a bit pattern. */
  lemma FieldsOf(bits: Bits, sign: nat, exponent: nat, fraction: nat)
    requires sign < 2 && exponent < 2048 && fraction < FRACTION && bits == FRACTION * (2048 * sign + exponent) + fraction
    ensures SignOf(bits) == sign && ExponentOf(bits) == exponent && Remainder(bits, FRACTION) == fraction
  {
    QuotientOnce(bits, FRACTION, 2048 * sign + exponent, fraction);
    QuotientOnce(2048 * sign + exponent, 2048, sign, exponent);
  }

  lemma OneEncodes()
    ensures Encodes(InitBits(Prod), Finite(1.0))
  {
    PowerOf52();
    PowerSum(52, 1022);
    FieldsOf(InitBits(Prod), 0, 1023, 0);
    assert Units(InitBits(Prod)) == FRACTION as real * Power(1022);
  }

  /** The starting values encode zero, one and the infinities. */
  lemma StartsEncode()
    ensures Encodes(InitBits(Sum), Finite(0.0)) && Encodes(InitBits(Mean), Finite(0.0)) && Encodes(InitBits(Prod), Finite(1.0))
    ensures Encodes(InitBits(Maximum), Below) && Encodes(InitBits(Minimum), Above)
  {
    OneEncodes();
    FieldsOf(InitBits(Sum), 0, 0, 0);
    FieldsOf(InitBits(Mean), 0, 0, 0);
    FieldsOf(InitBits(Maximum), 1, 2047, 0);
    FieldsOf(InitBits(Minimum), 0, 2047, 0);
  }

  // ----- Fibres

  /** The values of the elements that reduce to a cell, in input order. */
  ghost function FibreValues<T>(value: nat -> T, shape: Shape, dims: set<nat>, o: nat, n: nat): seq<T> {
    if n == 0 then []
    else FibreValues(value, shape, dims, o, n - 1) + if OutputIndex(n - 1, shape, dims) == o then [value(n - 1)] else []
  }

  lemma {:induction false} FibreHasSize<T>(value: nat -> T, shape: Shape, dims: set<nat>, o: nat, n: nat)
    ensures |FibreValues(value, shape, dims, o, n)| == FibreSize(n, o, shape, dims)
  {
    if n > 0 {
      FibreHasSize(value, shape, dims, o, n - 1);
    }
  }

  ghost predicate AllFinite(values: seq<Extended>) {
    forall i :: 0 <= i < |values| ==> values[i].Finite?
  }

  ghost function SumOf(values: seq<Extended>): real
    requires AllFinite(values)
  {
    if values == [] then 0.0 else SumOf(values[..|values| - 1]) + values[|values| - 1].value
  }

  ghost function ProductOf(values: seq<Extended>): real
    requires AllFinite(values)
  {
    if values == [] then 1.0 else ProductOf(values[..|values| - 1]) * values[|values| - 1].value
  }

  ghost predicate IsGreatest(values: seq<Extended>, cell: Extended) {
    (forall i :: 0 <= i < |values| ==> Leq(values[i], cell)) && if values == [] then cell == Below else cell in values
  }

  ghost predicate IsLeast(values: seq<Extended>, cell: Extended) {
    (forall i :: 0 <= i < |values| ==> Leq(cell, values[i])) && if values == [] then cell == Above else cell in values
  }

  /** Before the division of a mean. */
  ghost predicate IsFolded(op: ReduceOp, values: seq<Extended>, cell: Extended) {
    match op
    case Sum => AllFinite(values) ==> cell == Finite(SumOf(values))
    case Mean => AllFinite(values) ==> cell == Finite(SumOf(values))
    case Prod => AllFinite(values) ==> cell == Finite(ProductOf(values))
    case Maximum => IsGreatest(values, cell)
    case Minimum => IsLeast(values, cell)
  }

  /** The sum, product, greatest, least or average of the values. */
  ghost predicate IsReduced(op: ReduceOp, values: seq<Extended>, cell: Extended) {
    match op
    case Mean => AllFinite(values) && values != [] ==> cell == Finite(SumOf(values) / |values| as real)
    case _ => IsFolded(op, values, cell)
  }

  lemma StartIsFolded(s: Scalars<Extended>, op: ReduceOp)
    requires ExactConstants(s)
    ensures IsFolded(op, [], s.fromBits(InitBits(op)))
  {
    StartsEncode();
  }

  lemma FiniteFront(values: seq<Extended>, x: Extended)
    requires AllFinite(values + [x])
    ensures AllFinite(values) && x.Finite? && (values + [x])[..|values|] == values
  {
    assert forall i :: 0 <= i < |values| ==> values[i] == (values + [x])[i];
    assert (values + [x])[|values|] == x;
  }

  lemma SumsOneMore(s: Scalars<Extended>, values: seq<Extended>, cell: Extended, x: Extended)
    requires ExactSums(s) && (AllFinite(values) ==> cell == Finite(SumOf(values)))
    ensures AllFinite(values + [x]) ==> s.arithmetic(Add, cell, x) == Finite(SumOf(values + [x]))
  {
    if AllFinite(values + [x]) {
      FiniteFront(values, x);
    }
  }

  lemma ProductSnoc(values: seq<Extended>, x: Extended)
    requires AllFinite(values + [x]) && AllFinite(values) && x.Finite?
    ensures ProductOf(values + [x]) == ProductOf(values) * x.value
  {
    FiniteFront(values, x);
  }

  lemma ProductsOneMore(s: Scalars<Extended>, values: seq<Extended>, cell: Extended, x: Extended)
    requires ExactProducts(s) && (AllFinite(values) ==> cell == Finite(ProductOf(values)))
    ensures AllFinite(values + [x]) ==> s.arithmetic(Mul, cell, x) == Finite(ProductOf(values + [x]))
  {
    if AllFinite(values + [x]) {
      FiniteFront(values, x);
      ProductSnoc(values, x);
      MultipliesTo(s, ProductOf(values), x.value);
    }
  }

  lemma MultipliesTo(s: Scalars<Extended>, a: real, b: real)
    requires ExactProducts(s)
    ensures s.arithmetic(Mul, Finite(a), Finite(b)) == Finite(a * b)
  {
  }

  lemma GreatestOneMore(s: Scalars<Extended>, values: seq<Extended>, cell: Extended, x: Extended)
    requires ExactOrder(s) && IsGreatest(values, cell)
    ensures IsGreatest(values + [x], s.arithmetic(Max, cell, x))
  {
    var more, next := values + [x], s.arithmetic(Max, cell, x);
    forall i | 0 <= i < |more|
      ensures Leq(more[i], next)
    {
      assert i < |values| ==> more[i] == values[i];
    }
    assert more[|values|] == x && forall i :: 0 <= i < |values| ==> values[i] == more[i];
  }

  lemma LeastOneMore(s: Scalars<Extended>, values: seq<Extended>, cell: Extended, x: Extended)
    requires ExactOrder(s) && IsLeast(values, cell)
    ensures IsLeast(values + [x], s.arithmetic(Min, cell, x))
  {
    var more, next := values + [x], s.arithmetic(Min, cell, x);
    forall i | 0 <= i < |more|
      ensures Leq(next, more[i])
    {
      assert i < |values| ==> more[i] == values[i];
    }
    assert more[|values|] == x && forall i :: 0 <= i < |values| ==> values[i] == more[i];
  }

  /** One more value. */
  lemma FoldsOneMore(s: Scalars<Extended>, op: ReduceOp, values: seq<Extended>, cell: Extended, x: Extended)
    requires ExactSums(s) && ExactProducts(s) && ExactOrder(s) && IsFolded(op, values, cell)
    ensures IsFolded(op, values + [x], s.arithmetic(FoldOp(op), cell, x))
  {
    match op
    case Sum => SumsOneMore(s, values, cell, x);
    case Mean => SumsOneMore(s, values, cell, x);
    case Prod => ProductsOneMore(s, values, cell, x);
    case Maximum => GreatestOneMore(s, values, cell, x);
    case Minimum => LeastOneMore(s, values, cell, x);
  }

  lemma FibreGrows<T>(value: nat -> T, shape: Shape, dims: set<nat>, o: nat, n: nat)
    ensures FibreValues(value, shape, dims, o, n + 1)
            == if OutputIndex(n, shape, dims) == o then FibreValues(value, shape, dims, o, n) + [value(n)]
               else FibreValues(value, shape, dims, o, n)
  {
  }

  lemma FoldGrows(s: Scalars<Extended>, op: ReduceOp, value: nat -> Extended, shape: Shape, dims: set<nat>, o: nat, n: nat)
    ensures FoldFibre(s, op, value, shape, dims, o, n + 1)
            == if OutputIndex(n, shape, dims) == o then s.arithmetic(FoldOp(op), FoldFibre(s, op, value, shape, dims, o, n), value(n))
               else FoldFibre(s, op, value, shape, dims, o, n)
  {
  }

  lemma FoldStep(s: Scalars<Extended>, op: ReduceOp, before: seq<Extended>, cell: Extended, x: Extended, hit: bool,
                 after: seq<Extended>, next: Extended)
    requires Exact(s) && IsFolded(op, before, cell)
    requires after == (if hit then before + [x] else before) && next == if hit then s.arithmetic(FoldOp(op), cell, x) else cell
    ensures IsFolded(op, after, next)
  {
    if hit {
      FoldsOneMore(s, op, before, cell, x);
    }
  }

  lemma FoldStarts(s: Scalars<Extended>, op: ReduceOp, value: nat -> Extended, shape: Shape, dims: set<nat>, o: nat)
    requires Exact(s)
    ensures IsFolded(op, FibreValues(value, shape, dims, o, 0), FoldFibre(s, op, value, shape, dims, o, 0))
  {
    StartIsFolded(s, op);
  }

  lemma FoldContinues(s: Scalars<Extended>, op: ReduceOp, value: nat -> Extended, shape: Shape, dims: set<nat>, o: nat, n: nat,
                      before: seq<Extended>, cell: Extended, after: seq<Extended>, next: Extended)
    requires before == FibreValues(value, shape, dims, o, n) && cell == FoldFibre(s, op, value, shape, dims, o, n)
    requires after == FibreValues(value, shape, dims, o, n + 1) && next == FoldFibre(s, op, value, shape, dims, o, n + 1)
    requires Exact(s) && IsFolded(op, before, cell)
    ensures IsFolded(op, after, next)
  {
    FibreGrows(value, shape, dims, o, n);
    FoldGrows(s, op, value, shape, dims, o, n);
    FoldStep(s, op, before, cell, value(n), OutputIndex(n, shape, dims) == o, after, next);
  }

  lemma {:induction false} FoldIsReduced(s: Scalars<Extended>, op: ReduceOp, value: nat -> Extended, shape: Shape, dims: set<nat>, o: nat,
                                         n: nat, values: seq<Extended>, cell: Extended)
    requires Exact(s) && values == FibreValues(value, shape, dims, o, n) && cell == FoldFibre(s, op, value, shape, dims, o, n)
    ensures IsFolded(op, values, cell)
  {
    if n == 0 {
      FoldStarts(s, op, value, shape, dims, o);
    } else {
      var before, was := FibreValues(value, shape, dims, o, n - 1), FoldFibre(s, op, value, shape, dims, o, n - 1);
      FoldIsReduced(s, op, value, shape, dims, o, n - 1, before, was);
      FoldContinues(s, op, value, shape, dims, o, n - 1, before, was, values, cell);
    }
  }

  lemma MeanOfFold(s: Scalars<Extended>, values: seq<Extended>, cell: Extended, extent: Extended)
    requires ExactProducts(s) && IsFolded(Mean, values, cell) && extent == Finite(|values| as real)
    ensures IsReduced(Mean, values, s.arithmetic(Div, cell, extent))
  {
    assert values != [] ==> |values| as real != 0.0;
  }

  lemma FinishedIsReduced(s: Scalars<Extended>, fromCount: nat -> Extended, op: ReduceOp, shape: Shape, dims: set<nat>,
                          values: seq<Extended>, folded: Extended)
    requires Exact(s) && fromCount(|values|) == Finite(|values| as real) && |values| == ReducedExtent(shape, dims)
    requires IsFolded(op, values, folded)
    ensures IsReduced(op, values, Finished(s, fromCount, op, shape, dims, folded))
  {
    if op.Mean? {
      MeanOfFold(s, values, folded, fromCount(|values|));
    }
  }

  /**
   * A finished cell of a fused reduction is the sum, product, greatest or least of its fibre, and a mean its sum over
   * its size.
   */
  lemma ReducedCell(s: Scalars<Extended>, fromCount: nat -> Extended, op: ReduceOp, value: nat -> Extended, shape: Shape, dims: set<nat>, o: nat)
    requires Exact(s) && forall k: nat :: fromCount(k) == Finite(k as real)
    requires (forall d :: 0 <= d < |shape| ==> shape[d] > 0) && o < Product(ReducedShape(shape, dims, false))
    ensures IsReduced(op, FibreValues(value, shape, dims, o, Product(shape)),
                      Finished(s, fromCount, op, shape, dims, FoldFibre(s, op, value, shape, dims, o, Product(shape))))
  {
    var values := FibreValues(value, shape, dims, o, Product(shape));
    var folded := FoldFibre(s, op, value, shape, dims, o, Product(shape));
    FoldIsReduced(s, op, value, shape, dims, o, Product(shape), values, folded);
    FibreHasSize(value, shape, dims, o, Product(shape));
    FibreIsReducedExtent(o, shape, dims);
    assert |values| == ReducedExtent(shape, dims);
    FinishedIsReduced(s, fromCount, op, shape, dims, values, folded);
  }
}
