/** The replacement of one configured operation by plain ones, over the operands it has. */
module Decomposition {
  import opened DTypes
  import opened NodeInfo
  import opened Wrappers
  import opened Dag
  import opened Strides
  import opened Tensors
  import opened TensorGraph
  import opened RotaryDecomposition
  import opened AttentionDecomposition

  /** What constructing a configured node ensures about its operands and itself. */
  ghost predicate ConfiguredFits(n: Term)
    requires n.op.Configured?
  {
    && |n.args| == 3
    && var (a, b, c) := (n.args[0], n.args[1], n.args[2]);
       match n.op.configuration
       case Attention(_, _, _, _, _, _) =>
         && AttentionFits(ShapeOf(a), ShapeOf(b), ShapeOf(c))
         && n.op.info == Info(Front(ShapeOf(a), 1) + [Back(ShapeOf(c), 1)], a.op.info.dtype, a.op.info.device)
       case Rotary(_) => RotaryFits(ShapeOf(a), ShapeOf(b), ShapeOf(c)) && n.op.info == a.op.info
  }

  /** The plain graph for a configured operation, with the next free id; nothing for other operations. */
  function Decompose(n: Term, id: nat): Option<(Term, nat)>
    requires n.op.Configured? ==> |n.args| == 3
  {
    if !n.op.Configured? then None
    else
      var (a, b, c) := (n.args[0], n.args[1], n.args[2]);
      match n.op.configuration
      case Attention(scale, causal, window, rounding, _, _) =>
        if rounding.Fused? then Some((Node(id, Plain(Sdpa(scale, causal, window), n.op.info), n.args), id + 1))
        else Some((AttentionGraph(n.op.configuration, a, b, c, id), id + AttentionNodes(n.op.configuration, a, b, c)))
      case Rotary(layout) => Some((RotaryGraph(layout, a, b, c, id), id + RotaryNodes(layout)))
  }

  // ----- Meaning

  lemma RotaryMeans(run: Run, n: Term, id: nat)
    requires Computes(run) && n.op.Configured? && n.op.configuration.Rotary? && ConfiguredFits(n)
    ensures Value(run, Decompose(n, id).value.0) == Value(run, n)
  {
    DecomposeKeepsInfo(n, id);
    var graph := Decompose(n, id).value.0;
    forall c | InShape(ShapeOf(n), c)
      ensures At(Value(run, graph), c) == At(Value(run, n), c)
    {
      RotaryGraphMeans(run, n.op.configuration.layout, n.args[0], n.args[1], n.args[2], id, c);
      ValueAt(run, n, c);
    }
    SameTensor(Value(run, graph), Value(run, n));
  }

  lemma FusedMeans(run: Run, n: Term, id: nat)
    requires Computes(run) && n.op.Configured? && n.op.configuration.Attention? && n.op.configuration.rounding.Fused? && ConfiguredFits(n)
    ensures Value(run, Decompose(n, id).value.0) == Value(run, n)
  {
    DecomposeKeepsInfo(n, id);
    var graph := Decompose(n, id).value.0;
    forall c | InShape(ShapeOf(n), c)
      ensures At(Value(run, graph), c) == At(Value(run, n), c)
    {
      ValueAt(run, graph, c);
      ValueAt(run, n, c);
    }
    SameTensor(Value(run, graph), Value(run, n));
  }

  lemma OutputShape(q: Shape, width: nat)
    requires |q| >= 2
    ensures Front(q, 1) + [width] == Front(q, 2) + [Back(q, 2), width]
  {
  }

  lemma StepwiseElement(run: Run, n: Term, id: nat, c: seq<nat>)
    requires Computes(run) && n.op.Configured? && n.op.configuration.Attention? && n.op.configuration.rounding.Stepwise? && ConfiguredFits(n)
    requires InShape(ShapeOf(n), c)
    requires ShapeOf(n) == Front(ShapeOf(n.args[0]), 2) + [Back(ShapeOf(n.args[0]), 2), Back(ShapeOf(n.args[2]), 1)]
    ensures At(Value(run, Decompose(n, id).value.0), c) == At(Value(run, n), c)
  {
    var lead, queries, width := Front(ShapeOf(n.args[0]), 2), Back(ShapeOf(n.args[0]), 2), Back(ShapeOf(n.args[2]), 1);
    var front, i, d := Front(c, 2), Back(c, 2), Back(c, 1);
    assert c == front + [i, d];
    InShapeConcat(lead, [queries, width], front, [i, d]);
    assert [i, d][0] < [queries, width][0] && [i, d][1] < [queries, width][1];
    AttentionGraphMeans(run, n.op.configuration, n.args[0], n.args[1], n.args[2], id, front, i, d);
    ValueAt(run, n, c);
  }

  lemma StepwiseMeans(run: Run, n: Term, id: nat)
    requires Computes(run) && n.op.Configured? && n.op.configuration.Attention? && n.op.configuration.rounding.Stepwise? && ConfiguredFits(n)
    ensures Value(run, Decompose(n, id).value.0) == Value(run, n)
  {
    DecomposeKeepsInfo(n, id);
    var graph := Decompose(n, id).value.0;
    OutputShape(ShapeOf(n.args[0]), Back(ShapeOf(n.args[2]), 1));
    forall c | InShape(ShapeOf(n), c)
      ensures At(Value(run, graph), c) == At(Value(run, n), c)
    {
      StepwiseElement(run, n, id, c);
    }
    SameTensor(Value(run, graph), Value(run, n));
  }

  /** The replacement has the shape, type and device of what it replaces. */
  lemma DecomposeKeepsInfo(n: Term, id: nat)
    requires n.op.Configured? && ConfiguredFits(n)
    ensures Decompose(n, id).value.0.op.info == n.op.info
  {
    if n.op.configuration.Attention? {
      OutputShape(ShapeOf(n.args[0]), Back(ShapeOf(n.args[2]), 1));
    }
  }

  /** Whatever the run, the replacement means what the configured operation means. */
  lemma DecomposeMeans(w: World, n: Term, id: nat)
    requires n.op.Configured? && ConfiguredFits(n)
    ensures Meaning(w, Decompose(n, id).value.0) == Meaning(w, n)
  {
    MeaningComputes(w);
    var run := RunOf(w);
    if n.op.configuration.Rotary? {
      RotaryMeans(run, n, id);
    } else if n.op.configuration.rounding.Fused? {
      FusedMeans(run, n, id);
    } else {
      StepwiseMeans(run, n, id);
    }
  }

  // ----- New nodes

  /** The nodes below a replacement are operands or plain and new, numbered from `first`. */
  ghost predicate GrowsFrom(args: seq<Term>, first: nat, n: Term, next: nat) {
    && first <= next
    && Coherent(Below(n))
    && forall x :: x in Below(n) ==> x in BelowAll(args) || (first <= x.id < next && x.op.Plain?)
  }

  /** A node at or below the operands, or made before. */
  ghost predicate Usable(args: seq<Term>, made: seq<Term>, x: Term) {
    x in BelowAll(args) || x in made
  }

  /** Plain nodes numbered from `first` on, each over usable ones. */
  ghost predicate Chain(args: seq<Term>, first: nat, made: seq<Term>)
    decreases |made|
  {
    made == [] ||
    var (front, n) := (made[..|made| - 1], made[|made| - 1]);
    && Chain(args, first, front) && n.id == first + |front| && n.op.Plain?
    && forall k :: 0 <= k < |n.args| ==> Usable(args, front, n.args[k])
  }

  /** What was usable still is. */
  ghost predicate Keeps(args: seq<Term>, made: seq<Term>, more: seq<Term>) {
    forall x :: Usable(args, made, x) ==> Usable(args, more, x)
  }

  /** The nodes made before id `next`. */
  ghost predicate Built(args: seq<Term>, first: nat, made: seq<Term>, next: nat) {
    Chain(args, first, made) && next == first + |made|
  }

  lemma MintPlain(args: seq<Term>, first: nat, made: seq<Term>, next: nat, n: Term) returns (more: seq<Term>)
    requires Built(args, first, made, next) && n.id == next && n.op.Plain?
    requires forall k :: 0 <= k < |n.args| ==> Usable(args, made, n.args[k])
    ensures Built(args, first, more, next + 1) && Keeps(args, made, more) && Usable(args, more, n)
  {
    more := made + [n];
    assert more[..|made|] == made;
  }

  lemma {:induction false} ChainIds(args: seq<Term>, first: nat, made: seq<Term>, k: nat)
    requires Chain(args, first, made) && k < |made|
    ensures made[k].id == first + k && made[k].op.Plain?
    ensures forall j :: 0 <= j < |made[k].args| ==> Usable(args, made, made[k].args[j])
    decreases |made|
  {
    var front := made[..|made| - 1];
    assert forall x :: x in front ==> x in made;
    if k < |front| {
      ChainIds(args, first, front, k);
    }
  }

  /** Everything below a made node is below the operands or made. */
  lemma ChainGrows(args: seq<Term>, first: nat, made: seq<Term>, root: Term)
    requires Coherent(BelowAll(args)) && (forall x :: x in BelowAll(args) ==> x.id < first)
    requires Chain(args, first, made) && Usable(args, made, root)
    ensures GrowsFrom(args, first, root, first + |made|)
  {
    var pool := BelowAll(args) + set x | x in made;
    BelowAllIsClosed(args);
    forall x | x in made
      ensures first <= x.id < first + |made| && x.op.Plain? && forall j :: 0 <= j < |x.args| ==> x.args[j] in pool
    {
      var k :| 0 <= k < |made| && made[k] == x;
      ChainIds(args, first, made, k);
      assert forall j :: 0 <= j < |x.args| ==> Usable(args, made, x.args[j]);
    }
    forall x, y | x in pool && y in pool && x.id == y.id
      ensures x == y
    {
      if x in made && y in made {
        var k, j :| 0 <= k < |made| && made[k] == x && 0 <= j < |made| && made[j] == y;
        ChainIds(args, first, made, k);
        ChainIds(args, first, made, j);
      }
    }
    ClosedHasBelow(pool, root);
  }

  lemma MintAngles(args: seq<Term>, first: nat, made: seq<Term>, next: nat, layout: RotaryLayout, positions: Term, frequencies: Term)
    returns (more: seq<Term>)
    requires Built(args, first, made, next) && Usable(args, made, positions) && Usable(args, made, frequencies)
    ensures Keeps(args, made, more) && Usable(args, more, AnglesFor(positions, frequencies, layout, next))
    ensures Built(args, first, more, next + 4 + DoubledNodes(layout))
  {
    var doubled, angles := AnglesFor(positions, frequencies, layout, next), Angles(positions, frequencies, next);
    more := MintPlain(args, first, made, next, angles.args[0].args[0]);
    more := MintPlain(args, first, more, next + 1, angles.args[0]);
    more := MintPlain(args, first, more, next + 2, angles.args[1]);
    more := MintPlain(args, first, more, next + 3, angles);
    if layout.InterleavedPairs? {
      more := MintPlain(args, first, more, next + 4, doubled.args[0].args[0]);
      more := MintPlain(args, first, more, next + 5, doubled.args[0]);
      more := MintPlain(args, first, more, next + 6, doubled);
    } else {
      more := MintPlain(args, first, more, next + 4, doubled);
    }
  }

  lemma MintTable(args: seq<Term>, first: nat, made: seq<Term>, next: nat, unary: UnaryOp, x: Term, positions: Shape, doubled: Term)
    returns (more: seq<Term>)
    requires Built(args, first, made, next) && Usable(args, made, doubled)
    ensures Keeps(args, made, more) && Usable(args, more, Table(unary, x, positions, doubled, next)) && Built(args, first, more, next + 3)
  {
    var table := Table(unary, x, positions, doubled, next);
    more := MintPlain(args, first, made, next, table.args[0].args[0]);
    more := MintPlain(args, first, more, next + 1, table.args[0]);
    more := MintPlain(args, first, more, next + 2, table);
  }

  lemma MintHalves(args: seq<Term>, first: nat, made: seq<Term>, next: nat, pairs: Term) returns (more: seq<Term>)
    requires Built(args, first, made, next) && Usable(args, made, pairs)
    ensures Keeps(args, made, more) && Usable(args, more, HalvesTurned(pairs, next)) && Built(args, first, more, next + 4)
  {
    var joined := HalvesTurned(pairs, next);
    more := MintPlain(args, first, made, next, joined.args[1]);
    more := MintPlain(args, first, more, next + 1, joined.args[0].args[0]);
    more := MintPlain(args, first, more, next + 2, joined.args[0]);
    more := MintPlain(args, first, more, next + 3, joined);
  }

  lemma MintTurned(args: seq<Term>, first: nat, made: seq<Term>, next: nat, layout: RotaryLayout, x: Term) returns (more: seq<Term>)
    requires Built(args, first, made, next) && Usable(args, made, x)
    ensures Keeps(args, made, more) && Usable(args, more, Turned(layout, x, next)) && Built(args, first, more, next + 5 + PairNodes(layout))
  {
    more := made;
    if layout.InterleavedPairs? {
      more := MintPlain(args, first, made, next, Pairs(layout, x, next));
    }
    more := MintHalves(args, first, more, next + PairNodes(layout), Pairs(layout, x, next));
    more := MintPlain(args, first, more, next + PairNodes(layout) + 4, Turned(layout, x, next));
  }

  lemma MintSum(args: seq<Term>, first: nat, made: seq<Term>, next: nat, x: Term, cosine: Term, turned: Term, sine: Term) returns (more: seq<Term>)
    requires Built(args, first, made, next) && Usable(args, made, x) && Usable(args, made, cosine)
    requires Usable(args, made, turned) && Usable(args, made, sine)
    ensures Keeps(args, made, more) && Usable(args, more, SumOfProducts(x, cosine, turned, sine, next)) && Built(args, first, more, next + 3)
  {
    var sum := SumOfProducts(x, cosine, turned, sine, next);
    more := MintPlain(args, first, made, next, sum.args[0]);
    more := MintPlain(args, first, more, next + 1, sum.args[1]);
    more := MintPlain(args, first, more, next + 2, sum);
  }

  lemma MintRotary(args: seq<Term>, first: nat, made: seq<Term>, layout: RotaryLayout, x: Term, positions: Term, frequencies: Term)
    returns (more: seq<Term>)
    requires Built(args, first, made, first) && Usable(args, made, x) && Usable(args, made, positions) && Usable(args, made, frequencies)
    ensures Usable(args, more, RotaryGraph(layout, x, positions, frequencies, first)) && Built(args, first, more, first + RotaryNodes(layout))
  {
    var doubled, next := AnglesFor(positions, frequencies, layout, first), first + 4 + DoubledNodes(layout);
    more := MintAngles(args, first, made, first, layout, positions, frequencies);
    more := MintTable(args, first, more, next, Cos, x, ShapeOf(positions), doubled);
    more := MintTable(args, first, more, next + 3, Sin, x, ShapeOf(positions), doubled);
    more := MintTurned(args, first, more, next + 6, layout, x);
    more := MintSum(args, first, more, next + 11 + PairNodes(layout), x, Table(Cos, x, ShapeOf(positions), doubled, next),
                    Turned(layout, x, next + 6), Table(Sin, x, ShapeOf(positions), doubled, next + 3));
  }

  lemma MintRepeated(args: seq<Term>, first: nat, made: seq<Term>, next: nat, a: Term, heads: nat) returns (more: seq<Term>)
    requires Built(args, first, made, next) && Usable(args, made, a)
    ensures Keeps(args, made, more) && Usable(args, more, RepeatHeads(a, heads, next)) && Built(args, first, more, next + RepeatNodes(a, heads))
  {
    var repeated := RepeatHeads(a, heads, next);
    more := made;
    if RepeatNodes(a, heads) == 3 {
      more := MintPlain(args, first, more, next, repeated.args[0].args[0]);
      more := MintPlain(args, first, more, next + 1, repeated.args[0]);
      more := MintPlain(args, first, more, next + 2, repeated);
    }
  }

  lemma MintRaw(args: seq<Term>, first: nat, made: seq<Term>, next: nat, q: Term, k: Term) returns (more: seq<Term>)
    requires Built(args, first, made, next) && Usable(args, made, q) && Usable(args, made, k)
    ensures Keeps(args, made, more) && Usable(args, more, RawScores(q, k, next)) && Built(args, first, more, next + RawNodes(q, k))
  {
    var count := RepeatNodes(k, HeadsOf(ShapeOf(q)));
    more := MintRepeated(args, first, made, next, k, HeadsOf(ShapeOf(q)));
    more := MintPlain(args, first, more, next + count, SwappedKeys(ShapeOf(q), k, next));
    more := MintPlain(args, first, more, next + count + 1, RawScores(q, k, next));
  }

  lemma MintScaled(args: seq<Term>, first: nat, made: seq<Term>, next: nat, scores: Term, scale: real) returns (more: seq<Term>)
    requires Built(args, first, made, next) && Usable(args, made, scores)
    ensures Keeps(args, made, more) && Usable(args, more, Scaled(scores, scale, next)) && Built(args, first, more, next + ScaledNodes(scale))
  {
    var scaled := Scaled(scores, scale, next);
    more := made;
    if scale != 1.0 {
      more := MintPlain(args, first, more, next, scaled.args[0].args[0]);
      more := MintPlain(args, first, more, next + 1, scaled.args[0].args[1]);
      more := MintPlain(args, first, more, next + 2, scaled.args[0]);
      more := MintPlain(args, first, more, next + 3, scaled);
    }
  }

  lemma MintAllowed(args: seq<Term>, first: nat, made: seq<Term>, next: nat, like: Term, queries: nat, keys: nat, window: AttentionWindow)
    returns (more: seq<Term>)
    requires Built(args, first, made, next)
    ensures Keeps(args, made, more) && Usable(args, more, Allowed(like, queries, keys, window, next))
    ensures Built(args, first, more, next + AllowedNodes(window))
  {
    var row, column, allowed := Rows(like, queries, keys, next), Columns(like, keys, next), Allowed(like, queries, keys, window, next);
    more := MintPlain(args, first, made, next, row.args[0]);
    more := MintPlain(args, first, more, next + 1, column.args[0]);
    more := MintPlain(args, first, more, next + 2, row);
    more := MintPlain(args, first, more, next + 3, column);
    if window.Local? {
      more := MintPlain(args, first, more, next + 4, allowed.args[0]);
      more := MintPlain(args, first, more, next + 5, allowed.args[1].args[0]);
      more := MintPlain(args, first, more, next + 6, allowed.args[1].args[1]);
      more := MintPlain(args, first, more, next + 7, allowed.args[1]);
      more := MintPlain(args, first, more, next + 8, allowed);
    } else {
      more := MintPlain(args, first, more, next + 4, allowed);
    }
  }

  lemma MintMasked(args: seq<Term>, first: nat, made: seq<Term>, next: nat, causal: bool, scores: Term, queries: nat,
                   keys: nat, window: AttentionWindow)
    returns (more: seq<Term>)
    requires Built(args, first, made, next) && Usable(args, made, scores)
    ensures Keeps(args, made, more) && Usable(args, more, MaskedIf(causal, scores, queries, keys, window, next))
    ensures Built(args, first, more, next + MaskedIfNodes(causal, window))
  {
    var masked, after := MaskedIf(causal, scores, queries, keys, window, next), next + AllowedNodes(window);
    more := made;
    if causal {
      more := MintAllowed(args, first, more, next, scores, queries, keys, window);
      more := MintPlain(args, first, more, after, masked.args[1].args[1]);
      more := MintPlain(args, first, more, after + 1, masked.args[1].args[2]);
      more := MintPlain(args, first, more, after + 2, masked.args[1]);
      more := MintPlain(args, first, more, after + 3, masked);
    }
  }

  lemma MintSoftmax(args: seq<Term>, first: nat, made: seq<Term>, next: nat, scores: Term, lead: Shape, queries: nat) returns (more: seq<Term>)
    requires Built(args, first, made, next) && Usable(args, made, scores)
    ensures Keeps(args, made, more) && Usable(args, more, SoftmaxGraph(scores, lead, queries, next)) && Built(args, first, more, next + 7)
  {
    var rounded := SoftmaxGraph(scores, lead, queries, next);
    var exponentials := rounded.args[0].args[0];
    var shifted := exponentials.args[0];
    more := MintPlain(args, first, made, next, shifted.args[0]);
    more := MintPlain(args, first, more, next + 1, shifted.args[1]);
    more := MintPlain(args, first, more, next + 2, shifted);
    more := MintPlain(args, first, more, next + 3, exponentials);
    more := MintPlain(args, first, more, next + 4, rounded.args[0].args[1]);
    more := MintPlain(args, first, more, next + 5, rounded.args[0]);
    more := MintPlain(args, first, more, next + 6, rounded);
  }

  lemma MintAttention(args: seq<Term>, first: nat, made: seq<Term>, a: Configuration, q: Term, k: Term, v: Term) returns (more: seq<Term>)
    requires Built(args, first, made, first) && a.Attention? && Usable(args, made, q) && Usable(args, made, k) && Usable(args, made, v)
    ensures Usable(args, more, AttentionGraph(a, q, k, v, first)) && Built(args, first, more, first + AttentionNodes(a, q, k, v))
  {
    var next, heads := first + RawNodes(q, k), HeadsOf(ShapeOf(q));
    more := MintRaw(args, first, made, first, q, k);
    more := MintScaled(args, first, more, next, RawScores(q, k, first), a.scale);
    more := MintMasked(args, first, more, next + ScaledNodes(a.scale), a.causal, Scaled(RawScores(q, k, first), a.scale, next),
                       Back(ShapeOf(q), 2), Back(ShapeOf(k), 2), a.window);
    next := first + ScoreNodes(a, q, k);
    more := MintSoftmax(args, first, more, next, ScoreGraph(a, q, k, first), Front(ShapeOf(q), 2), Back(ShapeOf(q), 2));
    more := MintRepeated(args, first, more, next + 7, v, heads);
    more := MintPlain(args, first, more, next + 7 + RepeatNodes(v, heads), AttentionGraph(a, q, k, v, first));
  }

  lemma DecomposeGrows(n: Term, first: nat)
    requires n.op.Configured? && |n.args| == 3 && Coherent(BelowAll(n.args)) && forall x :: x in BelowAll(n.args) ==> x.id < first
    ensures var r := Decompose(n, first).value; GrowsFrom(n.args, first, r.0, r.1)
  {
    var root, made := Decompose(n, first).value.0, [];
    forall k | 0 <= k < |n.args|
      ensures Usable(n.args, [], n.args[k])
    {
      BelowAllHas(n.args, k);
    }
    if n.op.configuration.Rotary? {
      made := MintRotary(n.args, first, [], n.op.configuration.layout, n.args[0], n.args[1], n.args[2]);
    } else if n.op.configuration.rounding.Fused? {
      made := MintPlain(n.args, first, [], first, root);
    } else {
      made := MintAttention(n.args, first, [], n.op.configuration, n.args[0], n.args[1], n.args[2]);
    }
    ChainGrows(n.args, first, made, root);
  }
}
