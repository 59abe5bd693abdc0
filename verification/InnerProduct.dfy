/** Inner products of equally long sequences of reals. */
module InnerProduct {
  ghost function Dot(xs: seq<real>, ys: seq<real>): real
    requires |xs| == |ys|
  {
    DotTo(xs, ys, |xs|)
  }

  /** The inner product of the first `n` entries. */
  ghost function DotTo(xs: seq<real>, ys: seq<real>, n: nat): real
    requires n <= |xs| && n <= |ys|
  {
    if n == 0 then 0.0 else DotTo(xs, ys, n - 1) + xs[n - 1] * ys[n - 1]
  }

  lemma {:induction false} DotToAgrees(xs: seq<real>, ys: seq<real>, us: seq<real>, vs: seq<real>, n: nat)
    requires n <= |xs| && n <= |ys| && n <= |us| && n <= |vs|
    requires forall k :: 0 <= k < n ==> us[k] == xs[k] && vs[k] == ys[k]
    ensures DotTo(us, vs, n) == DotTo(xs, ys, n)
  {
    if n > 0 {
      DotToAgrees(xs, ys, us, vs, n - 1);
      assert us[n - 1] == xs[n - 1] && vs[n - 1] == ys[n - 1];
    }
  }

  lemma DotOfOne(x: real, y: real)
    ensures Dot([x], [y]) == x * y
  {
    assert DotTo([x], [y], 0) == 0.0;
  }

  lemma DotOfTwo(x0: real, x1: real, y0: real, y1: real)
    ensures Dot([x0, x1], [y0, y1]) == x0 * y0 + x1 * y1
  {
    assert DotTo([x0, x1], [y0, y1], 0) == 0.0;
    assert DotTo([x0, x1], [y0, y1], 1) == x0 * y0;
  }

  /** One more entry. */
  lemma DotExtends(xs: seq<real>, ys: seq<real>, longXs: seq<real>, longYs: seq<real>)
    requires |xs| == |ys| && |longXs| == |longYs| == |xs| + 1
    requires forall k :: 0 <= k < |xs| ==> longXs[k] == xs[k] && longYs[k] == ys[k]
    ensures Dot(longXs, longYs) == Dot(xs, ys) + longXs[|xs|] * longYs[|xs|]
  {
    DotToAgrees(xs, ys, longXs, longYs, |xs|);
  }

  /** Raising one entry raises the product by that much of its partner. */
  lemma {:induction false} DotChanges(xs: seq<real>, ys: seq<real>, newXs: seq<real>, j: nat, x: real, n: nat)
    requires |xs| == |ys| == |newXs| && j < n <= |xs|
    requires forall k :: 0 <= k < |xs| && k != j ==> newXs[k] == xs[k]
    requires newXs[j] == xs[j] + x
    ensures DotTo(newXs, ys, n) == DotTo(xs, ys, n) + x * ys[j]
  {
    if j == n - 1 {
      DotToAgrees(xs, ys, newXs, ys, n - 1);
      Distributes(xs[j], x, ys[j], newXs[j]);
    } else {
      DotChanges(xs, ys, newXs, j, x, n - 1);
      assert newXs[n - 1] == xs[n - 1];
    }
  }

  lemma Distributes(a: real, b: real, y: real, sum: real)
    requires sum == a + b
    ensures sum * y == a * y + b * y
  {
  }

  lemma {:induction false} DotOfZeros(xs: seq<real>, ys: seq<real>, n: nat)
    requires n <= |xs| && n <= |ys| && forall k :: 0 <= k < n ==> xs[k] * ys[k] == 0.0
    ensures DotTo(xs, ys, n) == 0.0
  {
    if n > 0 {
      DotOfZeros(xs, ys, n - 1);
      assert xs[n - 1] * ys[n - 1] == 0.0;
    }
  }

  /** Two products side by side. */
  lemma {:induction false} DotConcatenates(xs: seq<real>, ys: seq<real>, us: seq<real>, vs: seq<real>,
                                           allXs: seq<real>, allYs: seq<real>, n: nat)
    requires |xs| == |ys| && |us| == |vs| && |allXs| == |allYs| == |xs| + |us| && n <= |us|
    requires forall k :: 0 <= k < |xs| ==> allXs[k] == xs[k] && allYs[k] == ys[k]
    requires forall k :: 0 <= k < |us| ==> allXs[|xs| + k] == us[k] && allYs[|xs| + k] == vs[k]
    ensures DotTo(allXs, allYs, |xs| + n) == DotTo(xs, ys, |xs|) + DotTo(us, vs, n)
  {
    if n == 0 {
      DotToAgrees(xs, ys, allXs, allYs, |xs|);
    } else {
      DotConcatenates(xs, ys, us, vs, allXs, allYs, n - 1);
      assert allXs[|xs| + (n - 1)] == us[n - 1] && allYs[|xs| + (n - 1)] == vs[n - 1];
    }
  }
}
