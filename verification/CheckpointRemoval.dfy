/** Checkpoints do not matter: taking any of them out of a graph changes neither its value nor its leaf gradients. */
module CheckpointRemoval {
  import opened Wrappers
  import opened DTypes
  import opened Dag
  import opened ScalarGraph
  import opened AdjointRules
  import opened Exposure
  import opened Autodiff

  predicate Removed(n: Term, chosen: set<nat>) {
    n.op.kind.Checkpoint? && n.id in chosen && |n.args| == 1
  }

  /** The graph with the chosen checkpoints replaced by what they wrap. */
  function Unwrap(n: Term, chosen: set<nat>): Term
    decreases n, 1
  {
    if Removed(n, chosen) then Unwrap(n.args[0], chosen) else Node(n.id, n.op, UnwrapAll(n.args, chosen))
  }

  function UnwrapAll(nodes: seq<Term>, chosen: set<nat>): (r: seq<Term>)
    ensures |r| == |nodes| && forall k :: 0 <= k < |nodes| ==> r[k] == Unwrap(nodes[k], chosen)
    decreases nodes, 0
  {
    if nodes == [] then [] else [Unwrap(nodes[0], chosen)] + UnwrapAll(nodes[1..], chosen)
  }

  /** A checkpoint has the type of what it wraps. */
  ghost predicate CheckpointsTyped(n: Term) {
    forall x :: x in Below(n) && x.op.kind.Checkpoint? ==> |x.args| == 1 && x.op.dtype == x.args[0].op.dtype
  }

  /** Taking checkpoints out changes neither the value nor the derivative with respect to any remaining node. */
  lemma {:induction false} UnwrapAgrees(w: World, t: nat, n: Term, chosen: set<nat>)
    requires CheckpointsTyped(n) && forall x :: x in Below(n) && x.id == t ==> !Removed(x, chosen)
    ensures Eval(w, Unwrap(n, chosen)) == Eval(w, n) && Tangent(w, t, Unwrap(n, chosen)) == Tangent(w, t, n)
    ensures Unwrap(n, chosen).op.dtype == n.op.dtype
    decreases n
  {
    assert n in Below(n);
    forall k | 0 <= k < |n.args|
      ensures Eval(w, Unwrap(n.args[k], chosen)) == Eval(w, n.args[k])
      ensures Tangent(w, t, Unwrap(n.args[k], chosen)) == Tangent(w, t, n.args[k])
      ensures Unwrap(n.args[k], chosen).op.dtype == n.args[k].op.dtype
    {
      ArgBelow(n, k);
      BelowTransitive(n, n.args[k]);
      UnwrapAgrees(w, t, n.args[k], chosen);
    }
    EvalIs(w, n);
    TangentIs(w, t, n);
    if Removed(n, chosen) {
      TangentIs(w, t, n.args[0]);
    } else {
      UnwrappedAgrees(w, t, n, Unwrap(n, chosen));
    }
  }

  lemma UnwrappedAgrees(w: World, t: nat, n: Term, m: Term)
    requires m.id == n.id && m.op == n.op && |m.args| == |n.args|
    requires forall k :: 0 <= k < |n.args| ==>
      Eval(w, m.args[k]) == Eval(w, n.args[k]) && Tangent(w, t, m.args[k]) == Tangent(w, t, n.args[k])
    ensures Eval(w, m) == Eval(w, n) && Tangent(w, t, m) == Tangent(w, t, n)
  {
    EvalIs(w, n);
    EvalIs(w, m);
    TangentIs(w, t, n);
    TangentIs(w, t, m);
    assert Evals(w, m.args) == Evals(w, n.args);
    assert Tangents(w, t, m.args) == Tangents(w, t, n.args);
  }

  /** Every node of the unwrapped graph is what became of a node that was not removed. */
  lemma {:induction false} UnwrapBelow(n: Term, chosen: set<nat>, y: Term) returns (x: Term)
    requires y in Below(Unwrap(n, chosen))
    ensures x in Below(n) && !Removed(x, chosen) && y == Unwrap(x, chosen)
    ensures x.id == y.id && x.op == y.op && |x.args| == |y.args|
    decreases n
  {
    if Removed(n, chosen) {
      x := UnwrapBelow(n.args[0], chosen, y);
      BelowAllHas(n.args, 0);
    } else if y == Unwrap(n, chosen) {
      x := n;
    } else {
      var k := BelowAllSplits(UnwrapAll(n.args, chosen), y);
      x := UnwrapBelow(n.args[k], chosen, y);
      BelowAllHas(n.args, k);
    }
  }

  /** The unwrapped loss can be differentiated with respect to leaves as the wrapped one can. */
  lemma UnwrapIsLossGraph(loss: Term, leaves: seq<Term>, chosen: set<nat>, next: nat)
    requires LossGraph(loss, leaves, next) && CheckpointsTyped(loss) && forall x :: x in leaves ==> x.args == []
    ensures LossGraph(Unwrap(loss, chosen), leaves, next)
    ensures CanDifferentiate(loss, leaves) ==> CanDifferentiate(Unwrap(loss, chosen), leaves)
  {
    var plain := Unwrap(loss, chosen);
    forall y | y in Below(plain)
      ensures Typed(y) && y.id < next && exists x :: x in Below(loss) && x.op == y.op && x.id == y.id && y == Unwrap(x, chosen)
    {
      var x := UnwrapBelow(loss, chosen, y);
    }
    forall a, b | a in Below(plain) + (set x | x in leaves) && b in Below(plain) + (set x | x in leaves) && a.id == b.id
      ensures a == b
    {
      var x := OriginOf(loss, leaves, chosen, a);
      var y := OriginOf(loss, leaves, chosen, b);
      assert x.id == y.id && x in Below(loss) + (set z | z in leaves) && y in Below(loss) + (set z | z in leaves);
    }
    LossKeepsType(loss, chosen);
  }

  /** A node of the unwrapped graph, or a leaf, is what became of one of the wrapped graph or of itself. */
  lemma OriginOf(loss: Term, leaves: seq<Term>, chosen: set<nat>, a: Term) returns (x: Term)
    requires a in Below(Unwrap(loss, chosen)) || (a in leaves && a.args == [])
    ensures x in Below(loss) || x in leaves
    ensures x.id == a.id && Unwrap(x, chosen) == a
  {
    if a in Below(Unwrap(loss, chosen)) {
      x := UnwrapBelow(loss, chosen, a);
    } else {
      x := a;
    }
  }

  lemma {:induction false} LossKeepsType(n: Term, chosen: set<nat>)
    requires CheckpointsTyped(n)
    ensures Unwrap(n, chosen).op.dtype == n.op.dtype
    decreases n
  {
    if Removed(n, chosen) {
      assert n in Below(n);
      ArgBelow(n, 0);
      BelowTransitive(n, n.args[0]);
      LossKeepsType(n.args[0], chosen);
    }
  }

  /** The gradients of a leaf, one built with the checkpoints in place and one without, are equal in every world. */
  lemma CheckpointsDoNotMatter(loss: Term, leaf: Term, chosen: set<nat>, gradient: Term, plain: Term)
    requires CheckpointsTyped(loss) && leaf.args == [] && Coherent(Below(loss) + {leaf})
    requires AreGradients([gradient], [leaf], loss) && AreGradients([plain], [leaf], Unwrap(loss, chosen))
    ensures forall w: World :: Eval(w, gradient) == Eval(w, plain)
  {
    LeavesAreExposed(leaf, loss);
    forall y | y in Below(Unwrap(loss, chosen)) && y.id == leaf.id
      ensures y.args == []
    {
      var x := UnwrapBelow(loss, chosen, y);
    }
    LeavesAreExposed(leaf, Unwrap(loss, chosen));
    forall w: World
      ensures Eval(w, gradient) == Eval(w, plain)
    {
      assert IsGradient([gradient][0], [leaf][0], loss);
      assert IsGradient([plain][0], [leaf][0], Unwrap(loss, chosen));
      UnwrapAgrees(w, leaf.id, loss, chosen);
    }
  }

  /**
   * Differentiates a loss with its checkpoints and with the chosen ones taken out. Both succeed when nothing refuses an
   * adjoint, and the gradients of leaves agree in every world.
   */
  method GradBothWays(ids: NodeIds, loss: Term, leaves: seq<Term>, chosen: set<nat>)
    returns (wrapped: Result<seq<Term>, GradError>, plain: Result<seq<Term>, GradError>)
    requires LossGraph(loss, leaves, ids.next) && CheckpointsTyped(loss) && forall x :: x in leaves ==> x.args == []
    modifies ids
    ensures CanDifferentiate(loss, leaves) ==> wrapped.Success? && plain.Success?
    ensures wrapped.Success? && plain.Success? ==>
      && |wrapped.value| == |plain.value| == |leaves|
      && forall i, w: World :: 0 <= i < |leaves| ==> Eval(w, wrapped.value[i]) == Eval(w, plain.value[i])
  {
    UnwrapIsLossGraph(loss, leaves, chosen, ids.next);
    wrapped := Grad(ids, loss, leaves);
    plain := Grad(ids, Unwrap(loss, chosen), leaves);
    if wrapped.Success? && plain.Success? {
      forall i, w: World | 0 <= i < |leaves|
        ensures Eval(w, wrapped.value[i]) == Eval(w, plain.value[i])
      {
        LeafGradientsAgree(loss, leaves, chosen, wrapped.value, plain.value, i);
      }
    }
  }

  lemma LeafGradientsAgree(loss: Term, leaves: seq<Term>, chosen: set<nat>, wrapped: seq<Term>, plain: seq<Term>, i: nat)
    requires CheckpointsTyped(loss) && i < |leaves| && leaves[i].args == [] && Coherent(Below(loss) + (set x | x in leaves))
    requires AreGradients(wrapped, leaves, loss) && AreGradients(plain, leaves, Unwrap(loss, chosen))
    ensures forall w: World :: Eval(w, wrapped[i]) == Eval(w, plain[i])
  {
    assert leaves[i] in leaves;
    CheckpointsDoNotMatter(loss, leaves[i], chosen, wrapped[i], plain[i]);
  }
}
