/** Why adding the mask of stepwise attention hides a key: its constant is the least finite value of the element type. */
module MaskMeaning {
  import opened Arithmetic
  import opened DTypes
  import opened NodeInfo
  import opened HalfRounding
  import opened Tensors
  import opened TensorGraph

  // ----- The constant

  /** Mantissa bits and exponent bias of the format whose range a mask of this element type spans. */
  function FormatOf(dtype: DType): (nat, nat) {
    match dtype
    case F16 => (10, 15)
    case BF16 => (7, 127)
    case _ => (23, 127)
  }

  /** The value is the whole number that the largest finite code of the format stands for, read with its scale. */
  ghost predicate IsLargestFinite(value: real, m: nat, b: nat)
    requires 1 <= b + m
  {
    && Infinity(m, b) > 0 && value.Floor >= 0 && value == value.Floor as real
    && CodeMagnitude(Infinity(m, b) - 1, m) == Times(value.Floor, Pow2(b + m - 1))
  }

  lemma LargestCode(m: nat, b: nat)
    requires 1 <= m <= b
    ensures Infinity(m, b) > 0
    ensures CodeMagnitude(Infinity(m, b) - 1, m) == Times(Times(2 * Pow2(m) - 1, Pow2(b - m)), Pow2(b + m - 1))
  {
    var p := Pow2(m);
    assert Infinity(m, b) - 1 == p * (2 * b) + (p - 1) by {
      assert (2 * b + 1) * p == p * (2 * b) + p;
    }
    CodeOf(Infinity(m, b) - 1, 2 * b, p - 1, m);
    Pow2Sum(b - m, b + m - 1);
    assert (b - m) + (b + m - 1) == 2 * b - 1;
    Regroups(2 * p - 1, Pow2(b - m), Pow2(b + m - 1));
  }

  lemma Regroups(a: nat, b: nat, c: nat)
    ensures Times(a, b * c) == Times(Times(a, b), c)
  {
    assert a * (b * c) == (a * b) * c;
  }

  lemma PowerStep(a: nat, b: nat, x: nat, y: nat)
    requires Pow2(a) == x && Pow2(b) == y
    ensures Pow2(a + b) == Times(x, y)
  {
    Pow2Sum(a, b);
  }

  lemma PowersOfTwo()
    ensures Pow2(5) == 32 && Pow2(7) == 128 && Pow2(10) == 1024 && Pow2(23) == 0x800000
    ensures Pow2(104) == 0x100000000000000000000000000
    ensures Pow2(120) == 0x1000000000000000000000000000000
  {
    assert Pow2(2) == 4;
    assert Pow2(3) == 8;
    assert Pow2(5) == 4 * Pow2(3);
    PowerStep(5, 2, 0x20, 0x4);
    PowerStep(5, 5, 0x20, 0x20);
    PowerStep(10, 10, 0x400, 0x400);
    PowerStep(20, 3, 0x100000, 0x8);
    PowerStep(20, 20, 0x100000, 0x100000);
    PowerStep(40, 10, 0x10000000000, 0x400);
    PowerStep(50, 2, 0x4000000000000, 0x4);
    PowerStep(52, 52, 0x10000000000000, 0x10000000000000);
    PowerStep(104, 10, 0x100000000000000000000000000, 0x400);
    PowerStep(114, 5, 0x40000000000000000000000000000, 0x20);
    assert Pow2(120) == 2 * Pow2(119);
  }

  lemma TopIs(dtype: DType, m: nat, b: nat)
    requires (m, b) == FormatOf(dtype)
    ensures -Minimum(dtype) == Times(2 * Pow2(m) - 1, Pow2(b - m)) as real
  {
    PowersOfTwo();
  }

  /** The mask constant is the least finite value; types without a case of their own use that of single precision. */
  lemma MinimumIsLeastFinite(dtype: DType)
    ensures var (m, b) := FormatOf(dtype); IsLargestFinite(-Minimum(dtype), m, b)
  {
    var (m, b) := FormatOf(dtype);
    TopIs(dtype, m, b);
    LargestCode(m, b);
    assert -Minimum(dtype) == Times(2 * Pow2(m) - 1, Pow2(b - m)) as real;
  }

  // ----- The law

  /** Rounding keeps the order and these values. */
  ghost predicate RoundsInOrder(w: World, dtype: DType) {
    && (forall x: real, y: real :: x <= y ==> w.arithmetic.cast(dtype, x) <= w.arithmetic.cast(dtype, y))
    && w.arithmetic.cast(dtype, 0.0) == 0.0 && w.arithmetic.cast(dtype, Minimum(dtype)) == Minimum(dtype)
    && w.arithmetic.cast(dtype, Quarter(dtype)) == Quarter(dtype) && w.arithmetic.cast(dtype, Half(dtype)) == Half(dtype)
  }

  function Quarter(dtype: DType): real {
    Minimum(dtype) / 4.0
  }

  function Half(dtype: DType): real {
    Minimum(dtype) / 2.0
  }

  ghost predicate SumsAreRounded(w: World, dtype: DType) {
    forall a: real, b: real :: w.arithmetic.binary(Add, dtype, a, b) == w.arithmetic.cast(dtype, a + b)
  }

  /** Single precision keeps the values that bound scores of the element type. */
  ghost predicate WidensInOrder(w: World, dtype: DType) {
    && (forall x: real, y: real :: x <= y ==> w.arithmetic.cast(F32, x) <= w.arithmetic.cast(F32, y))
    && w.arithmetic.cast(F32, Quarter(dtype)) == Quarter(dtype) && w.arithmetic.cast(F32, Half(dtype)) == Half(dtype)
  }

  /** Less than a quarter of the largest finite value in size. */
  predicate IsModerate(dtype: DType, score: real) {
    Quarter(dtype) < score < -Quarter(dtype)
  }

  /** Exact arithmetic is an instance. */
  lemma ExactArithmeticRounds(w: World, dtype: DType)
    requires forall x: real :: w.arithmetic.cast(dtype, x) == x
    requires forall x: real :: w.arithmetic.cast(F32, x) == x
    requires forall a: real, b: real :: w.arithmetic.binary(Add, dtype, a, b) == a + b
    ensures RoundsInOrder(w, dtype) && SumsAreRounded(w, dtype) && WidensInOrder(w, dtype)
  {
    forall a: real, b: real
      ensures w.arithmetic.binary(Add, dtype, a, b) == w.arithmetic.cast(dtype, a + b)
    {
      var sum := a + b;
      assert w.arithmetic.cast(dtype, sum) == sum;
    }
  }

  lemma MinimumIsNegative(dtype: DType)
    ensures Minimum(dtype) < Half(dtype) < Quarter(dtype) < 0.0
    ensures Minimum(dtype) - Quarter(dtype) < Half(dtype)
  {
  }

  lemma MaskedScoreIs(w: World, dtype: DType, visible: bool, scaled: real)
    requires dtype.IsFloat() && RoundsInOrder(w, dtype) && SumsAreRounded(w, dtype)
    ensures MaskedScore(w, dtype, visible, scaled) == w.arithmetic.cast(dtype, scaled + if visible then 0.0 else Minimum(dtype))
  {
  }

  lemma MaskedScoreBounds(w: World, dtype: DType, visible: bool, scaled: real)
    requires dtype.IsFloat() && RoundsInOrder(w, dtype) && SumsAreRounded(w, dtype) && IsModerate(dtype, scaled)
    ensures visible ==> MaskedScore(w, dtype, visible, scaled) >= Quarter(dtype)
    ensures visible ==> MaskedScore(w, dtype, visible, scaled) == w.arithmetic.cast(dtype, scaled)
    ensures !visible ==> MaskedScore(w, dtype, visible, scaled) <= Half(dtype)
  {
    MinimumIsNegative(dtype);
    MaskedScoreIs(w, dtype, visible, scaled);
    if visible {
      assert w.arithmetic.cast(dtype, Quarter(dtype)) == Quarter(dtype);
      assert scaled + 0.0 == scaled;
    } else {
      assert w.arithmetic.cast(dtype, Half(dtype)) == Half(dtype);
    }
  }

  ghost function ScaledAt(w: World, a: Configuration, dtype: DType, q: Tensor, k: Tensor, front: seq<nat>, i: nat, j: nat): real
    requires a.Attention?
  {
    ScaledScore(w, dtype, a.scale, RawScore(w, dtype, q, k, front, i, j))
  }

  /** A key stands after the query, or its local window has passed it. */
  predicate IsHidden(window: AttentionWindow, queries: nat, keys: nat, i: nat, j: nat) {
    var at := i + if keys > queries then keys - queries else 0;
    j > at || (window.Local? && at >= j + window.size)
  }

  lemma HiddenScore(w: World, a: Configuration, dtype: DType, q: Tensor, k: Tensor, front: seq<nat>, i: nat, j: nat)
    requires a.Attention? && a.causal && dtype.IsFloat()
    requires RoundsInOrder(w, dtype) && SumsAreRounded(w, dtype) && WidensInOrder(w, dtype)
    requires IsHidden(a.window, Back(q.shape, 2), Back(k.shape, 2), i, j) && IsModerate(dtype, ScaledAt(w, a, dtype, q, k, front, i, j))
    ensures Score(w, a, dtype, q, k, front, i, j) <= Half(dtype)
  {
    var masked := MaskedScore(w, dtype, false, ScaledAt(w, a, dtype, q, k, front, i, j));
    MaskedScoreBounds(w, dtype, false, ScaledAt(w, a, dtype, q, k, front, i, j));
    assert w.arithmetic.cast(F32, masked) <= w.arithmetic.cast(F32, Half(dtype));
  }

  lemma SeenScore(w: World, a: Configuration, dtype: DType, q: Tensor, k: Tensor, front: seq<nat>, i: nat, j: nat)
    requires a.Attention? && a.causal && dtype.IsFloat()
    requires RoundsInOrder(w, dtype) && SumsAreRounded(w, dtype) && WidensInOrder(w, dtype)
    requires !IsHidden(a.window, Back(q.shape, 2), Back(k.shape, 2), i, j) && IsModerate(dtype, ScaledAt(w, a, dtype, q, k, front, i, j))
    ensures Score(w, a, dtype, q, k, front, i, j) >= Quarter(dtype)
    ensures Score(w, a, dtype, q, k, front, i, j) == w.arithmetic.cast(F32, w.arithmetic.cast(dtype, ScaledAt(w, a, dtype, q, k, front, i, j)))
  {
    var masked := MaskedScore(w, dtype, true, ScaledAt(w, a, dtype, q, k, front, i, j));
    MaskedScoreBounds(w, dtype, true, ScaledAt(w, a, dtype, q, k, front, i, j));
    assert w.arithmetic.cast(F32, Quarter(dtype)) <= w.arithmetic.cast(F32, masked);
  }

  /**
   * Where rounding keeps the order, the score of a hidden key lies below the score of every visible one of moderate
   * size, and the mask leaves the visible score as it was.
   */
  lemma HiddenKeysScoreBelow(w: World, a: Configuration, dtype: DType, q: Tensor, k: Tensor, front: seq<nat>, i: nat, hidden: nat, seen: nat)
    requires a.Attention? && a.causal && dtype.IsFloat()
    requires RoundsInOrder(w, dtype) && SumsAreRounded(w, dtype) && WidensInOrder(w, dtype)
    requires IsHidden(a.window, Back(q.shape, 2), Back(k.shape, 2), i, hidden)
    requires !IsHidden(a.window, Back(q.shape, 2), Back(k.shape, 2), i, seen)
    requires IsModerate(dtype, ScaledAt(w, a, dtype, q, k, front, i, hidden)) && IsModerate(dtype, ScaledAt(w, a, dtype, q, k, front, i, seen))
    ensures Score(w, a, dtype, q, k, front, i, hidden) < Score(w, a, dtype, q, k, front, i, seen)
    ensures Score(w, a, dtype, q, k, front, i, seen)
            == w.arithmetic.cast(F32, w.arithmetic.cast(dtype, ScaledAt(w, a, dtype, q, k, front, i, seen)))
  {
    MinimumIsNegative(dtype);
    HiddenScore(w, a, dtype, q, k, front, i, hidden);
    SeenScore(w, a, dtype, q, k, front, i, seen);
  }
}
