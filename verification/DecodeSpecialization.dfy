/** Specialization of an inference graph for stateful decode. */
module DecodeSpecialization {
  import opened Wrappers
  import opened Dag
  import opened Sorting
  import opened NodeInfo
  import opened SemanticGraph
  import opened DecodeSteps
  import opened DecodedGraph
  import opened GraphIndexes
  import opened OutputRows
  import opened Sequences

  // ----- The rewriting loop

  function Start(firstId: nat): Progress {
    Progress(map[], firstId, [], None, {}, true, None, 0, None, 0, None, false)
  }

  /** Whether some position embedding takes its cursors from a tensor. */
  ghost predicate CursorTracked(settings: Settings, order: seq<Term>, i: nat, cursorTensor: bool)
    requires i <= |order|
  {
    cursorTensor <==> settings.graphRows > 1 && exists j :: 0 <= j < i && order[j].op.kind.PositionEmbedding?
  }

  lemma StepTracksCursor(settings: Settings, order: seq<Term>, i: nat, slot: nat, st: Progress)
    requires i < |order| && Typed(order[i]) && Step(settings, st, order[i], slot).Success?
    requires CursorTracked(settings, order, i, st.cursorTensor)
    ensures CursorTracked(settings, order, i + 1, Step(settings, st, order[i], slot).value.cursorTensor)
  {
    var later := Step(settings, st, order[i], slot).value;
    assert later.cursorTensor <==> st.cursorTensor || (settings.graphRows > 1 && order[i].op.kind.PositionEmbedding?);
  }

  /** What is known of the state after some nodes. */
  ghost predicate Rewriting(settings: Settings, order: seq<Term>, i: nat, slot: nat, pool: set<Term>, firstId: nat, st: Progress)
    requires i <= |order| && AllTyped(order)
  {
    && Progressing(settings, order, i, slot, st)
    && WindowsTracked(settings, order, i, st.evictable, st.maximumWindow)
    && CursorTracked(settings, order, i, st.cursorTensor)
    && Minted(settings, order, i, slot, pool, firstId, st)
  }

  lemma StepKeepsRewriting(settings: Settings, order: seq<Term>, i: nat, slot: nat, pool: set<Term>, firstId: nat, st: Progress)
    returns (more: set<Term>)
    requires i < |order| && Topological(order) && AllTyped(order) && Rewriting(settings, order, i, slot, pool, firstId, st)
    requires Step(settings, st, order[i], slot).Success?
    ensures Rewriting(settings, order, i + 1, slot, more, firstId, Step(settings, st, order[i], slot).value)
  {
    StepKeeps(settings, order, i, slot, st);
    StepTracksWindows(settings, order, i, slot, st);
    StepTracksCursor(settings, order, i, slot, st);
    ArgsEntered(order, i, st, i);
    more := StepMints(settings, order, i, slot, pool, firstId, st);
  }

  lemma StartsRewriting(settings: Settings, order: seq<Term>, slot: nat, firstId: nat)
    requires AllTyped(order)
    ensures Rewriting(settings, order, 0, slot, {}, firstId, Start(firstId))
  {
  }

  /** Rewrites one node, or shows that the graph cannot be specialized. */
  method RewriteNext(settings: Settings, order: seq<Term>, i: nat, slot: nat, ghost pool: set<Term>, ghost firstId: nat, st: Progress)
    returns (r: Result<Progress, DecodeError>, ghost more: set<Term>)
    requires i < |order| && Topological(order) && AllTyped(order) && Rewriting(settings, order, i, slot, pool, firstId, st)
    ensures r.Success? ==> Rewriting(settings, order, i + 1, slot, more, firstId, r.value)
    ensures r.Failure? ==> !AttentionsFit(settings, order) || !KdasFit(settings, order) || !ConvsFit(settings, order)
  {
    r, more := Step(settings, st, order[i], slot), pool;
    if r.Failure? {
      StepFails(settings, order, i, slot, st);
    } else {
      more := StepKeepsRewriting(settings, order, i, slot, pool, firstId, st);
    }
  }

  /** Rewrites the nodes in order; refuses exactly the graphs that cannot be specialized. */
  method RewriteAll(settings: Settings, order: seq<Term>, slot: nat, firstId: nat)
    returns (r: Result<Progress, DecodeError>, ghost pool: set<Term>)
    requires Topological(order) && AllTyped(order)
    ensures r.Success? <==> AttentionsFit(settings, order) && KdasFit(settings, order) && ConvsFit(settings, order)
    ensures r.Success? ==> Rewriting(settings, order, |order|, slot, pool, firstId, r.value)
  {
    StartsRewriting(settings, order, slot, firstId);
    var st := Start(firstId);
    pool := {};
    for i := 0 to |order|
      invariant Rewriting(settings, order, i, slot, pool, firstId, st)
    {
      var next;
      next, pool := RewriteNext(settings, order, i, slot, pool, firstId, st);
      if next.Failure? {
        return next, pool;
      }
      st := next.value;
    }
    RewritingFits(settings, order, slot, st);
    return Success(st), pool;
  }

  // ----- The cursor slot

  /** Nodes met so far: visited, or still on the stack. */
  ghost predicate Met(x: Term, visited: set<nat>, stack: seq<Term>) {
    x.id in visited || x in stack
  }

  ghost predicate Searching(roots: seq<Term>, visited: set<nat>, stack: seq<Term>, maximum: Option<nat>) {
    && (forall x :: x in roots ==> Met(x, visited, stack))
    && (forall x :: x in stack ==> x in BelowAll(roots))
    && visited <= AllIds(roots)
    && (forall x, k :: x in BelowAll(roots) && x.id in visited && 0 <= k < |x.args| ==> Met(x.args[k], visited, stack))
    && (forall x | x in BelowAll(roots) && x.id in visited ::
          !x.op.kind.ScalarInput? && (x.op.kind.Input? ==> maximum.Some? && x.op.kind.slot <= maximum.value))
    && (maximum.Some? ==> exists x :: x in BelowAll(roots) && x.op.kind.Input? && x.op.kind.slot == maximum.value)
  }

  lemma DropMet(roots: seq<Term>, visited: set<nat>, stack: seq<Term>, maximum: Option<nat>)
    requires Searching(roots, visited, stack, maximum) && stack != [] && stack[|stack| - 1].id in visited
    ensures Searching(roots, visited, stack[..|stack| - 1], maximum)
  {
    var rest, top := stack[..|stack| - 1], stack[|stack| - 1];
    assert stack == rest + [top];
    assert forall x :: Met(x, visited, stack) ==> Met(x, visited, rest);
  }

  lemma VisitTop(roots: seq<Term>, visited: set<nat>, stack: seq<Term>, maximum: Option<nat>, later: Option<nat>)
    requires Coherent(BelowAll(roots)) && Searching(roots, visited, stack, maximum) && stack != []
    requires stack[|stack| - 1].id !in visited && !stack[|stack| - 1].op.kind.ScalarInput?
    requires later == if stack[|stack| - 1].op.kind.Input? then Larger(maximum, stack[|stack| - 1].op.kind.slot) else maximum
    ensures var top := stack[|stack| - 1];
            Searching(roots, visited + {top.id}, stack[..|stack| - 1] + top.args, later)
  {
    var rest, top := stack[..|stack| - 1], stack[|stack| - 1];
    var seen, next := visited + {top.id}, rest + top.args;
    assert stack == rest + [top] && top in stack;
    BelowAllIsClosed(roots);
    assert forall x :: Met(x, visited, stack) ==> Met(x, seen, next);
    forall x, k | x in BelowAll(roots) && x.id in seen && 0 <= k < |x.args|
      ensures Met(x.args[k], seen, next)
    {
      if x.id == top.id {
        assert x == top && x.args[k] in next;
      }
    }
  }

  /** Everything below the roots has been visited once the stack is empty. */
  lemma {:induction false} AllMet(roots: seq<Term>, visited: set<nat>, maximum: Option<nat>, n: Term, x: Term)
    requires Searching(roots, visited, [], maximum) && n in BelowAll(roots) && n.id in visited && x in Below(n)
    ensures x.id in visited
    decreases n
  {
    if x != n {
      var k := BelowAllSplits(n.args, x);
      BelowAllIsClosed(roots);
      assert Met(n.args[k], visited, []);
      AllMet(roots, visited, maximum, n.args[k], x);
    }
  }

  /** A slot above every slot the graph uses, next after the highest. */
  ghost predicate FreshSlot(roots: seq<Term>, slot: nat) {
    && (forall x :: x in BelowAll(roots) && x.op.kind.Input? ==> x.op.kind.slot < slot)
    && (slot > 0 ==> exists x :: x in BelowAll(roots) && x.op.kind.Input? && x.op.kind.slot == slot - 1)
  }

  /** Finds the first free slot; runtime scalars anywhere in the graph are refused. */
  method CursorSlot(roots: seq<Term>) returns (r: Result<nat, DecodeError>)
    requires Coherent(BelowAll(roots))
    ensures r.Success? <==> forall x :: x in BelowAll(roots) ==> !x.op.kind.ScalarInput?
    ensures r.Success? ==> FreshSlot(roots, r.value)
  {
    var visited: set<nat>, stack, maximum: Option<nat> := {}, roots, None;
    forall x | x in roots
      ensures x in BelowAll(roots)
    {
      var i :| 0 <= i < |roots| && roots[i] == x;
      BelowAllHas(roots, i);
    }
    while stack != []
      invariant Searching(roots, visited, stack, maximum)
      decreases |AllIds(roots) - visited|, |stack|
    {
      var node := stack[|stack| - 1];
      assert node in stack;
      if node.id in visited {
        DropMet(roots, visited, stack, maximum);
        stack := stack[..|stack| - 1];
      } else {
        if node.op.kind.ScalarInput? {
          return Failure(RuntimeScalar);
        }
        var later := if node.op.kind.Input? then Larger(maximum, node.op.kind.slot) else maximum;
        VisitTop(roots, visited, stack, maximum, later);
        SmallerSet(AllIds(roots), visited, node.id);
        maximum := later;
        visited := visited + {node.id};
        stack := stack[..|stack| - 1] + node.args;
      }
    }
    forall x | x in BelowAll(roots)
      ensures x.id in visited
    {
      var i := BelowAllSplits(roots, x);
      BelowAllHas(roots, i);
      assert Met(roots[i], visited, []);
      AllMet(roots, visited, maximum, roots[i], x);
    }
    return Success(if maximum.Some? then maximum.value + 1 else 0);
  }

  // ----- Encounter order

  lemma {:induction false} ReversedBelow(nodes: seq<Term>)
    ensures BelowAll(Reversed(nodes)) == BelowAll(nodes)
  {
    forall x
      ensures x in BelowAll(Reversed(nodes)) <==> x in BelowAll(nodes)
    {
      if x in BelowAll(nodes) {
        var i := BelowAllSplits(nodes, x);
        ReversedHas(nodes, nodes[i]);
        var j :| 0 <= j < |Reversed(nodes)| && Reversed(nodes)[j] == nodes[i];
        BelowAllHas(Reversed(nodes), j);
      }
      if x in BelowAll(Reversed(nodes)) {
        var i := BelowAllSplits(Reversed(nodes), x);
        ReversedHas(nodes, Reversed(nodes)[i]);
        var j :| 0 <= j < |nodes| && nodes[j] == Reversed(nodes)[i];
        BelowAllHas(nodes, j);
      }
    }
  }

  /** Depth-first postorder with roots and children taken from last to first. */
  ghost function Encounter(roots: seq<Term>): seq<Term> {
    VisitAll(Reversed(roots), true, [])
  }

  lemma EncounterIsReachable(roots: seq<Term>)
    requires Coherent(BelowAll(roots))
    ensures Topological(Encounter(roots)) && forall x :: x in Encounter(roots) <==> x in BelowAll(roots)
  {
    ReversedBelow(roots);
    PostorderIsReachable(Reversed(roots), true);
  }

  method EncounterOrder(roots: seq<Term>) returns (order: seq<Term>)
    requires Coherent(BelowAll(roots))
    ensures order == Encounter(roots)
  {
    ghost var reversed := Reversed(roots);
    ReversedBelow(roots);
    var visited: set<nat> := {};
    var stack: seq<Work<Op>> := [];
    for k := 0 to |roots|
      invariant stack == Push([], Reversed(roots[..k]))
    {
      assert roots[..k + 1] == roots[..k] + [roots[k]];
      ReversedSnoc(roots[..k], roots[k]);
      stack := stack + [(roots[k], false)];
    }
    assert roots[..|roots|] == roots;
    order := [];
    TraversalStarts(reversed, true);
    while stack != []
      invariant Traversing(reversed, true, stack, order, visited)
      decreases |AllIds(reversed) - visited|, |stack|
    {
      var (node, processed) := stack[|stack| - 1];
      if processed {
        TraversalEmits(reversed, true, stack, order, visited);
        order := order + [node];
        stack := stack[..|stack| - 1];
      } else if node.id in visited {
        TraversalSkips(reversed, true, stack, order, visited);
        stack := stack[..|stack| - 1];
      } else {
        TraversalExpands(reversed, true, stack, order, visited);
        visited := visited + {node.id};
        stack := PushForwards(stack[..|stack| - 1], node);
      }
    }
  }

  // ----- Layer numbers

  predicate LayerLeq(a: KvLayer, b: KvLayer) {
    a.layerId <= b.layerId
  }

  ghost predicate ZeroBased(layers: seq<KvLayer>) {
    forall k :: 0 <= k < |layers| ==> layers[k].layerId == k
  }

  lemma SortedStrictly(layers: seq<KvLayer>, ids: set<nat>)
    requires LayersListed(layers, ids)
    ensures var s := Sort(LayerLeq, layers);
            && |s| == |layers| && (forall x :: x in s <==> x in layers)
            && forall i, j :: 0 <= i < j < |s| ==> s[i].layerId < s[j].layerId
  {
    var s := Sort(LayerLeq, layers);
    SortKeeps(LayerLeq, layers);
    SortDistinct(LayerLeq, layers);
    forall i, j | 0 <= i < j < |s|
      ensures s[i].layerId < s[j].layerId
    {
      assert LayerLeq(s[i], s[j]) && s[i] in layers && s[j] in layers;
      var a :| 0 <= a < |layers| && layers[a] == s[i];
      var b :| 0 <= b < |layers| && layers[b] == s[j];
      assert a != b;
      if a < b {
        assert layers[a].layerId != layers[b].layerId;
      } else {
        assert layers[b].layerId != layers[a].layerId;
      }
    }
  }

  lemma {:induction false} AtLeastPlace(s: seq<KvLayer>, k: nat)
    requires forall i, j :: 0 <= i < j < |s| ==> s[i].layerId < s[j].layerId
    requires k < |s|
    ensures s[k].layerId >= k
  {
    if k > 0 {
      AtLeastPlace(s, k - 1);
      assert s[k - 1].layerId < s[k].layerId;
    }
  }

  lemma {:induction false} AtMostPlace(s: seq<KvLayer>, k: nat)
    requires forall i, j :: 0 <= i < j < |s| ==> s[i].layerId < s[j].layerId
    requires forall i :: 0 <= i < |s| ==> s[i].layerId < |s|
    requires k < |s|
    ensures s[k].layerId <= k
    decreases |s| - k
  {
    if k + 1 < |s| {
      AtMostPlace(s, k + 1);
      assert s[k].layerId < s[k + 1].layerId;
    }
  }

  /** Distinct identities sort to 0, 1, 2, … exactly when each stays below their number. */
  lemma SortedIsZeroBased(layers: seq<KvLayer>, ids: set<nat>)
    requires LayersListed(layers, ids)
    ensures ZeroBased(Sort(LayerLeq, layers)) <==> forall a :: 0 <= a < |layers| ==> layers[a].layerId < |layers|
  {
    var s := Sort(LayerLeq, layers);
    SortedStrictly(layers, ids);
    if forall a :: 0 <= a < |layers| ==> layers[a].layerId < |layers| {
      forall k | 0 <= k < |s|
        ensures s[k].layerId < |s|
      {
        assert s[k] in layers;
      }
      forall k | 0 <= k < |s|
        ensures s[k].layerId == k
      {
        AtLeastPlace(s, k);
        AtMostPlace(s, k);
      }
    } else {
      var a :| 0 <= a < |layers| && layers[a].layerId >= |layers|;
      assert layers[a] in s;
    }
  }

  /** In terms of the graph: no explicit identity reaches the number of layers. */
  lemma NoGapMeans(settings: Settings, order: seq<Term>, slot: nat, st: Progress)
    requires AllTyped(order) && Progressing(settings, order, |order|, slot, st)
    ensures NoGap(order) <==> forall a :: 0 <= a < |st.kvLayers| ==> st.kvLayers[a].layerId < |st.kvLayers|
  {
    forall a | 0 <= a < |st.kvLayers| && NoGap(order)
      ensures st.kvLayers[a].layerId < |st.kvLayers|
    {
      var j := LayerAtTurn(settings, order, |order|, slot, st, a);
    }
    forall j | 0 <= j < |order| && order[j].op.kind.Attention? && ExplicitId(order[j].op.kind).Some?
      ensures var a := Count(AttentionState, order, j);
              a < |st.kvLayers| && st.kvLayers[a].layerId == ExplicitId(order[j].op.kind).value
    {
      assert Rewritten(settings, st, order, j, slot);
    }
  }

  /** Checks the sorted layers one by one. */
  method CheckLayers(layers: seq<KvLayer>) returns (ok: bool)
    ensures ok <==> ZeroBased(layers)
  {
    for ordinal := 0 to |layers|
      invariant forall k :: 0 <= k < ordinal ==> layers[k].layerId == k
    {
      if layers[ordinal].layerId != ordinal {
        return false;
      }
    }
    return true;
  }

  // ----- Layers of the result

  /** The stateful layers a program keeps, in the order of their numbers, and where it reads its cursor. */
  datatype Geometry = Geometry(
    kvLayers: seq<KvLayer>, kvHeads: nat, headDim: nat, evictable: bool,
    kdaLayers: nat, kda: Option<KdaGeometry>, convLayers: nat, conv: Option<ConvGeometry>,
    cursorSlot: nat, cursorTensor: bool)

  ghost predicate ReadsLayer(remapped: map<nat, Term>, n: Term, layer: nat) {
    n.id in remapped && remapped[n.id].op.kind.KvAttention? && remapped[n.id].op.kind.layer == layer
  }

  /** Heads, head size and type are those of the node's key operand, and its retention is honoured. */
  ghost predicate DescribesKey(settings: Settings, described: KvLayer, n: Term, layer: nat)
    requires n.op.kind.Attention? && Typed(n) && AttentionFits(settings, n)
  {
    var key := n.args[1].op.info;
    && described.layerId == layer && described.kvHeads == key.shape[1] && described.headDim == key.shape[3]
    && described.dtype == key.dtype && described.retention == Retention(settings, n.op.kind)
  }

  /** The image of an attention node reads the layer that describes its own key operand. */
  ghost predicate ReadsOwnLayer(settings: Settings, geometry: Geometry, remapped: map<nat, Term>, n: Term, turn: nat)
    requires n.op.kind.Attention? && Typed(n) && n.id in remapped
  {
    var kind, image := n.op.kind, remapped[n.id];
    && image.op.kind.KvAttention? && AttentionFits(settings, n)
    && var layer := image.op.kind.layer;
       && layer < |geometry.kvLayers| && DescribesKey(settings, geometry.kvLayers[layer], n, layer) && Numbers(kind, turn, layer)
       && IsRebuilt(settings, remapped, n, image, KvAttention(layer, kind.window.Resolve(settings.window), settings.bidirectional, RoundingOf(kind)))
  }

  /** What a node of the graph becomes. */
  ghost predicate Becomes(settings: Settings, geometry: Geometry, remapped: map<nat, Term>, order: seq<Term>, j: nat)
    requires j < |order| && Typed(order[j])
  {
    var n := order[j];
    && n.id in remapped
    && match n.op.kind
       case Attention(_, _, _) => ReadsOwnLayer(settings, geometry, remapped, n, Count(AttentionState, order, j))
       case KdaChunk =>
         && KdaFits(settings, n) && geometry.kda.Some? && KdaAgrees(geometry.kda.value, n)
         && IsRebuilt(settings, remapped, n, remapped[n.id], KdaRecurrence(Count(KdaState, order, j)))
       case ShortConv1d =>
         && ConvFits(settings, n) && geometry.conv == Some(ConvOf(n))
         && IsRebuilt(settings, remapped, n, remapped[n.id], ConvState(Count(ConvolutionState, order, j)))
       case RotaryEmbedding(_) => IsRebuilt(settings, remapped, n, remapped[n.id], RotaryEmbedding(true))
       case PositionEmbedding(_) =>
         exists id: nat :: remapped[n.id] == Positions(settings, n, Image(remapped, n.args[0]), geometry.cursorSlot, id)
       case kind => IsRebuilt(settings, remapped, n, remapped[n.id], kind)
  }

  /** Heads and head size when all layers share them, zeros otherwise. */
  ghost predicate SharesHeads(layers: seq<KvLayer>, kvHeads: nat, headDim: nat) {
    if layers != [] && forall k :: 0 <= k < |layers| ==> layers[k].kvHeads == layers[0].kvHeads && layers[k].headDim == layers[0].headDim
    then kvHeads == layers[0].kvHeads && headDim == layers[0].headDim
    else kvHeads == 0 && headDim == 0
  }

  /** A family is described by a layer of the graph: recurrences by the first, convolutions by any. */
  ghost predicate FamiliesDescribed(order: seq<Term>, kda: Option<KdaGeometry>, conv: Option<ConvGeometry>)
    requires AllTyped(order)
  {
    && (kda.Some? ==> exists j :: 0 <= j < |order| && IsFirstKda(order, j, kda.value))
    && (conv.Some? ==> exists j :: 0 <= j < |order| && HasConv(order, j, conv.value))
  }

  /** Layer numbers 0, 1, 2, … one for each attention node, and every node rewritten accordingly. */
  ghost predicate LayersSound(settings: Settings, order: seq<Term>, geometry: Geometry, remapped: map<nat, Term>)
    requires AllTyped(order)
  {
    && |geometry.kvLayers| == Count(AttentionState, order, |order|) && ZeroBased(geometry.kvLayers)
    && SharesHeads(geometry.kvLayers, geometry.kvHeads, geometry.headDim) && FamiliesDescribed(order, geometry.kda, geometry.conv)
    && geometry.kdaLayers == Count(KdaState, order, |order|) && geometry.convLayers == Count(ConvolutionState, order, |order|)
    && (geometry.evictable <==> forall j :: 0 <= j < |order| && order[j].op.kind.Attention? ==> Retention(settings, order[j].op.kind).Some?)
    && CursorTracked(settings, order, |order|, geometry.cursorTensor)
    && (forall j :: 0 <= j < |order| ==> Becomes(settings, geometry, remapped, order, j))
    && (forall i, j, layer | 0 <= i < j < |order| && order[i].op.kind.Attention? && order[j].op.kind.Attention? ::
          ReadsLayer(remapped, order[i], layer) ==> !ReadsLayer(remapped, order[j], layer))
  }

  /** In a zero-based list every layer stands at its own number. */
  lemma SortedLayerIs(layers: seq<KvLayer>, ids: set<nat>, a: nat)
    requires LayersListed(layers, ids) && ZeroBased(Sort(LayerLeq, layers)) && a < |layers|
    ensures var s := Sort(LayerLeq, layers); layers[a].layerId < |s| && s[layers[a].layerId] == layers[a]
  {
    SortedStrictly(layers, ids);
    var s := Sort(LayerLeq, layers);
    assert layers[a] in s;
  }

  ghost predicate GeometryFrom(st: Progress, slot: nat, geometry: Geometry) {
    && geometry.kvLayers == Sort(LayerLeq, st.kvLayers) && SharesHeads(geometry.kvLayers, geometry.kvHeads, geometry.headDim)
    && geometry.evictable == st.evictable && geometry.cursorSlot == slot && geometry.cursorTensor == st.cursorTensor
    && geometry.kdaLayers == st.kdaLayers && geometry.kda == st.kda && geometry.convLayers == st.convLayers && geometry.conv == st.conv
  }

  lemma NodeBecomes(settings: Settings, order: seq<Term>, j: nat, slot: nat, st: Progress, geometry: Geometry)
    requires j < |order| && AllTyped(order) && Rewritten(settings, st, order, j, slot) && LayersListed(st.kvLayers, st.layerIds)
    requires GeometryFrom(st, slot, geometry) && ZeroBased(geometry.kvLayers)
    ensures Becomes(settings, geometry, st.remapped, order, j)
    ensures order[j].op.kind.Attention? ==>
      var a := Count(AttentionState, order, j); a < |st.kvLayers| && ReadsLayer(st.remapped, order[j], st.kvLayers[a].layerId)
  {
    if order[j].op.kind.Attention? {
      SortedLayerIs(st.kvLayers, st.layerIds, Count(AttentionState, order, j));
    }
  }

  lemma RewritingIsSound(settings: Settings, order: seq<Term>, slot: nat, st: Progress, geometry: Geometry)
    requires AllTyped(order) && Progressing(settings, order, |order|, slot, st)
    requires WindowsTracked(settings, order, |order|, st.evictable, st.maximumWindow) && CursorTracked(settings, order, |order|, st.cursorTensor)
    requires GeometryFrom(st, slot, geometry) && ZeroBased(geometry.kvLayers)
    ensures LayersSound(settings, order, geometry, st.remapped)
  {
    SortedStrictly(st.kvLayers, st.layerIds);
    forall j | 0 <= j < |order|
      ensures Becomes(settings, geometry, st.remapped, order, j)
    {
      assert Rewritten(settings, st, order, j, slot);
      NodeBecomes(settings, order, j, slot, st, geometry);
    }
    forall i, j, layer | 0 <= i < j < |order| && order[i].op.kind.Attention? && order[j].op.kind.Attention?
      ensures ReadsLayer(st.remapped, order[i], layer) ==> !ReadsLayer(st.remapped, order[j], layer)
    {
      assert Rewritten(settings, st, order, i, slot) && Rewritten(settings, st, order, j, slot);
      NodeBecomes(settings, order, i, slot, st, geometry);
      NodeBecomes(settings, order, j, slot, st, geometry);
      LayersDiffer(settings, order, slot, st, i, j);
    }
  }

  // ----- The result as a graph

  lemma RootsMapped(settings: Settings, roots: seq<Term>, st: Progress)
    requires Coherent(BelowAll(roots))
    requires EntersFirst(Encounter(roots), |Encounter(roots)|, st)
    ensures forall x :: x in BelowAll(roots) ==> x.id in st.remapped
  {
    EncounterIsReachable(roots);
    var order := Encounter(roots);
    forall x | x in BelowAll(roots)
      ensures x.id in st.remapped
    {
      var j :| 0 <= j < |order| && order[j] == x;
    }
  }

  /** The image of anything below the roots is below the images of the roots. */
  lemma ImageIsReached(settings: Settings, roots: seq<Term>, slot: nat, st: Progress, x: Term)
    requires Coherent(BelowAll(roots)) && AllTyped(Encounter(roots)) && x in BelowAll(roots)
    requires forall j :: 0 <= j < |Encounter(roots)| ==> Rewritten(settings, st, Encounter(roots), j, slot)
    ensures Below(Image(st.remapped, x)) <= BelowAll(Images(st.remapped, roots))
  {
    EncounterIsReachable(roots);
    var i := BelowAllSplits(roots, x);
    BelowAllHas(roots, i);
    ImageReaches(settings, st, Encounter(roots), slot, roots[i], x);
    BelowTransitive(Image(st.remapped, roots[i]), Image(st.remapped, x));
    BelowAllHas(Images(st.remapped, roots), i);
  }

  lemma LeafImage(settings: Settings, st: Progress, order: seq<Term>, j: nat, slot: nat)
    requires j < |order| && Typed(order[j]) && Rewritten(settings, st, order, j, slot) && Declared(order[j].op).Some?
    ensures Image(st.remapped, order[j]).op == order[j].op
  {
  }

  lemma ResultKeepsLeaves(settings: Settings, roots: seq<Term>, slot: nat, st: Progress)
    requires Coherent(BelowAll(roots)) && AllTyped(Encounter(roots))
    requires forall j :: 0 <= j < |Encounter(roots)| ==> Rewritten(settings, st, Encounter(roots), j, slot)
    ensures LeavesKept(BelowAll(roots), BelowAll(Images(st.remapped, roots)))
    ensures CursorsMade(settings, slot, BelowAll(roots), BelowAll(Images(st.remapped, roots)))
  {
    var order, result := Encounter(roots), BelowAll(Images(st.remapped, roots));
    EncounterIsReachable(roots);
    forall y | y in BelowAll(roots) && Declared(y.op).Some?
      ensures exists x :: x in result && x.op == y.op
    {
      var j :| 0 <= j < |order| && order[j] == y;
      LeafImage(settings, st, order, j, slot);
      ImageIsReached(settings, roots, slot, st, y);
      assert Image(st.remapped, y) in result;
    }
    forall p | p in BelowAll(roots) && p.op.kind.PositionEmbedding?
      ensures exists x :: x in result && MakesCursor(settings, slot, p, x.op)
    {
      var j :| 0 <= j < |order| && order[j] == p;
      assert Rewritten(settings, st, order, j, slot);
      var id: nat :| st.remapped[p.id] == Positions(settings, p, Image(st.remapped, p.args[0]), slot, id);
      var cursor := PositionsReach(settings, p, Image(st.remapped, p.args[0]), slot, id);
      ImageIsReached(settings, roots, slot, st, p);
      assert cursor in result;
    }
  }

  lemma ResultIsPooled(settings: Settings, roots: seq<Term>, slot: nat, pool: set<Term>, firstId: nat, st: Progress)
    requires Coherent(BelowAll(roots)) && Minted(settings, Encounter(roots), |Encounter(roots)|, slot, pool, firstId, st)
    requires forall x :: x in BelowAll(roots) ==> x.id in st.remapped
    ensures var result := BelowAll(Images(st.remapped, roots));
            && Coherent(result) && (forall x :: x in result ==> firstId <= x.id < st.next)
            && LeavesKnown(settings, slot, BelowAll(roots), result)
  {
    var order, images := Encounter(roots), Images(st.remapped, roots);
    EncounterIsReachable(roots);
    forall x | x in images
      ensures x in pool
    {
      var i :| 0 <= i < |images| && images[i] == x;
      BelowAllHas(roots, i);
    }
    ClosedHasBelowAll(pool, images);
    forall x | x in BelowAll(images) && Declared(x.op).Some?
      ensures (exists y :: y in BelowAll(roots) && y.op == x.op) || exists p :: p in BelowAll(roots) && MakesCursor(settings, slot, p, x.op)
    {
      assert LeafFrom(settings, order, |order|, slot, x.op);
      assert forall j :: 0 <= j < |order| ==> order[j] in BelowAll(roots);
    }
  }

  lemma FreshMeans(roots: seq<Term>, slot: nat)
    requires FreshSlot(roots, slot) && forall x :: x in BelowAll(roots) ==> !x.op.kind.ScalarInput?
    ensures FreshIn(BelowAll(roots), slot)
  {
    if slot > 0 {
      var x :| x in BelowAll(roots) && x.op.kind.Input? && x.op.kind.slot == slot - 1;
      assert UsesSlot(x, slot - 1);
    }
  }

  /**
   * The rewritten roots form a graph of new nodes, and its slot table is valid exactly when the table of the source
   * is and all position embeddings share one device.
   */
  lemma ResultSlots(settings: Settings, roots: seq<Term>, slot: nat, pool: set<Term>, firstId: nat, st: Progress)
    requires Coherent(BelowAll(roots)) && AllTyped(Encounter(roots))
    requires Rewriting(settings, Encounter(roots), |Encounter(roots)|, slot, pool, firstId, st)
    requires FreshSlot(roots, slot) && forall x :: x in BelowAll(roots) ==> !x.op.kind.ScalarInput?
    ensures var result := BelowAll(Images(st.remapped, roots));
            && Coherent(result) && (forall x :: x in result ==> firstId <= x.id < st.next)
            && (SlotsValid(result) <==> SlotsValid(BelowAll(roots)) && OneDevice(BelowAll(roots)))
  {
    RootsMapped(settings, roots, st);
    ResultIsPooled(settings, roots, slot, pool, firstId, st);
    ResultKeepsLeaves(settings, roots, slot, st);
    FreshMeans(roots, slot);
    SlotsStayValid(settings, slot, BelowAll(roots), BelowAll(Images(st.remapped, roots)));
  }

  // ----- Outputs

  datatype Layout = Dense(batch: nat) | PackedCausalChains(batch: nat, rowsPerSequence: nat) {
    /** The rows of the graph; none when the batch or the rows of a sequence are zero. */
    function GraphRows(): Option<nat> {
      var rows := if Dense? then 1 else rowsPerSequence;
      if batch == 0 || rows == 0 then None else Some(batch * rows)
    }
  }

  datatype Selection = AllRows | SplitLastTokenRow | BatchedLastTokenRow

  predicate Selectable(shape: seq<nat>, batch: nat) {
    |shape| == 3 && shape[0] == batch
  }

  /** What a selection takes from a root. */
  ghost predicate Takes(root: Term, selection: Selection, id: nat, part: seq<Term>) {
    if selection.AllRows? then part == [root]
    else |root.op.info.shape| == 3 && root.op.info.shape[0] > 0 && part == Selected(root, selection.SplitLastTokenRow?, id)
  }

  ghost predicate TakesFrom(root: Term, selection: Selection, id: nat, outputs: seq<Term>, k: nat) {
    k <= |outputs| && Takes(root, selection, id, outputs[k..])
  }

  /** The outputs of the first `n` roots, root by root. */
  ghost predicate OutputsTaken(roots: seq<Term>, selections: seq<Selection>, n: nat, outputs: seq<Term>)
    requires n <= |roots| == |selections|
  {
    if n == 0 then outputs == []
    else
      var root, selection := roots[n - 1], selections[n - 1];
      exists k: nat, id: nat :: TakesFrom(root, selection, id, outputs, k) && OutputsTaken(roots, selections, n - 1, outputs[..k])
  }

  lemma OutputsGrow(roots: seq<Term>, selections: seq<Selection>, i: nat, outputs: seq<Term>, more: seq<Term>, id: nat)
    requires i < |roots| == |selections| && OutputsTaken(roots, selections, i, outputs)
    requires Takes(roots[i], selections[i], id, more)
    ensures OutputsTaken(roots, selections, i + 1, outputs + more)
  {
    var longer, k := outputs + more, |outputs|;
    assert longer[k..] == more && longer[..k] == outputs;
    assert TakesFrom(roots[i], selections[i], id, longer, k);
  }

  method SelectFrom(root: Term, selection: Selection, batch: nat, id: nat) returns (r: Option<seq<Term>>, next: nat)
    requires batch > 0
    ensures r.Some? <==> selection.AllRows? || Selectable(root.op.info.shape, batch)
    ensures r.Some? ==> Takes(root, selection, id, r.value)
  {
    if selection.AllRows? {
      return Some([root]), id;
    }
    if !Selectable(root.op.info.shape, batch) {
      return None, id;
    }
    var rows;
    rows, next := SelectRows(root, selection.SplitLastTokenRow?, id);
    return Some(rows), next;
  }

  /** Takes the selected rows of every root; refuses roots that have not a lane for each sequence. */
  method SelectOutputs(roots: seq<Term>, selections: seq<Selection>, batch: nat, firstId: nat) returns (r: Option<seq<Term>>)
    requires |roots| == |selections| && batch > 0
    ensures r.Some? <==> forall i :: 0 <= i < |roots| ==> selections[i].AllRows? || Selectable(roots[i].op.info.shape, batch)
    ensures r.Some? ==> OutputsTaken(roots, selections, |roots|, r.value)
  {
    var outputs: seq<Term>, next := [], firstId;
    for i := 0 to |roots|
      invariant forall k :: 0 <= k < i ==> selections[k].AllRows? || Selectable(roots[k].op.info.shape, batch)
      invariant OutputsTaken(roots, selections, i, outputs)
    {
      var more, later := SelectFrom(roots[i], selections[i], batch, next);
      if more.None? {
        return None;
      }
      OutputsGrow(roots, selections, i, outputs, more.value, next);
      outputs, next := outputs + more.value, later;
    }
    return Some(outputs);
  }

  lemma TakenLeaves(root: Term, selection: Selection, id: nat, part: seq<Term>)
    requires Takes(root, selection, id, part)
    ensures part != [] && forall m :: 0 <= m < |part| ==> SameLeaves(part[m], root)
  {
    if !selection.AllRows? {
      SelectionKeepsLeaves(root, selection.SplitLastTokenRow?, id);
    }
  }

  /** One of the first `n` nodes has the same leaves. */
  ghost predicate Pairs(x: Term, nodes: seq<Term>, n: nat)
    requires n <= |nodes|
  {
    exists i :: 0 <= i < n && SameLeaves(x, nodes[i])
  }

  /** Every output has the leaves of one of the first `n` roots, and every such root those of some output. */
  ghost predicate LeavesPaired(roots: seq<Term>, n: nat, outputs: seq<Term>)
    requires n <= |roots|
  {
    && (forall m :: 0 <= m < |outputs| ==> Pairs(outputs[m], roots, n))
    && (forall i :: 0 <= i < n ==> Pairs(roots[i], outputs, |outputs|))
  }

  lemma {:induction false} OutputsPaired(roots: seq<Term>, selections: seq<Selection>, n: nat, outputs: seq<Term>)
    requires n <= |roots| == |selections| && OutputsTaken(roots, selections, n, outputs)
    ensures LeavesPaired(roots, n, outputs)
  {
    if n > 0 {
      var root, selection := roots[n - 1], selections[n - 1];
      var k: nat, id: nat :| TakesFrom(root, selection, id, outputs, k) && OutputsTaken(roots, selections, n - 1, outputs[..k]);
      OutputsPaired(roots, selections, n - 1, outputs[..k]);
      TakenLeaves(roots[n - 1], selections[n - 1], id, outputs[k..]);
      Rejoins(outputs, k);
      PairsExtend(roots, n, outputs[..k], outputs[k..]);
    }
  }

  lemma PairsExtend(roots: seq<Term>, n: nat, outputs: seq<Term>, part: seq<Term>)
    requires 0 < n <= |roots| && LeavesPaired(roots, n - 1, outputs)
    requires part != [] && forall m :: 0 <= m < |part| ==> SameLeaves(part[m], roots[n - 1])
    ensures LeavesPaired(roots, n, outputs + part)
  {
    var all := outputs + part;
    forall m | 0 <= m < |all|
      ensures Pairs(all[m], roots, n)
    {
      if m < |outputs| {
        assert Pairs(outputs[m], roots, n - 1);
      } else {
        assert SameLeaves(part[m - |outputs|], roots[n - 1]);
      }
    }
    forall i | 0 <= i < n
      ensures Pairs(roots[i], all, |all|)
    {
      if i < n - 1 {
        assert Pairs(roots[i], outputs, |outputs|);
        var m :| 0 <= m < |outputs| && SameLeaves(roots[i], outputs[m]);
        assert SameLeaves(roots[i], all[m]);
      } else {
        assert SameLeaves(roots[i], all[|outputs|]);
      }
    }
  }

  lemma LeavesAreBelow(nodes: seq<Term>, i: nat, x: Term)
    requires i < |nodes| && x in LeavesBelow(nodes[i])
    ensures x in BelowAll(nodes)
  {
    BelowAllHas(nodes, i);
  }

  /** Leaves below one list are below the other when all its nodes are paired. */
  lemma LeafFollows(from: seq<Term>, to: seq<Term>, x: Term)
    requires (forall m :: 0 <= m < |from| ==> Pairs(from[m], to, |to|)) && Declared(x.op).Some? && x in BelowAll(from)
    ensures x in BelowAll(to)
  {
    var m := BelowAllSplits(from, x);
    assert Pairs(from[m], to, |to|);
    var i :| 0 <= i < |to| && SameLeaves(from[m], to[i]);
    assert x in LeavesBelow(from[m]);
    LeavesAreBelow(to, i, x);
  }

  lemma SameLeavesSameSlots(a: set<Term>, b: set<Term>)
    requires forall x: Term :: Declared(x.op).Some? ==> (x in a <==> x in b)
    ensures SlotsValid(a) ==> SlotsValid(b)
  {
    if SlotsValid(a) {
      forall slot: nat | SlotUsedIn(a, slot)
        ensures SlotUsedIn(b, slot)
      {
        var x :| x in a && UsesSlot(x, slot);
      }
    }
  }

  /** Selecting rows changes nothing about the slots. */
  lemma OutputsKeepSlots(roots: seq<Term>, selections: seq<Selection>, outputs: seq<Term>)
    requires |roots| == |selections| && OutputsTaken(roots, selections, |roots|, outputs)
    ensures SlotsValid(BelowAll(outputs)) <==> SlotsValid(BelowAll(roots))
  {
    OutputsPaired(roots, selections, |roots|, outputs);
    forall x: Term | Declared(x.op).Some?
      ensures x in BelowAll(outputs) <==> x in BelowAll(roots)
    {
      if x in BelowAll(outputs) {
        LeafFollows(outputs, roots, x);
      }
      if x in BelowAll(roots) {
        LeafFollows(roots, outputs, x);
      }
    }
    SameLeavesSameSlots(BelowAll(outputs), BelowAll(roots));
    SameLeavesSameSlots(BelowAll(roots), BelowAll(outputs));
  }

  // ----- The whole specialization

  /** What the graph itself must meet. */
  ghost predicate GraphFits(settings: Settings, roots: seq<Term>)
    requires AllTyped(Encounter(roots))
  {
    var order := Encounter(roots);
    && (forall x :: x in BelowAll(roots) ==> !x.op.kind.ScalarInput?)
    && AttentionsFit(settings, order) && KdasFit(settings, order) && ConvsFit(settings, order)
    && NoGap(order) && WindowFits(settings, order)
  }

  /** A sound geometry and rewriting; the rewritten roots are a new graph whose slots are valid when the source allows. */
  ghost predicate GraphRewritten(settings: Settings, roots: seq<Term>, firstId: nat, geometry: Geometry, remapped: map<nat, Term>)
    requires AllTyped(Encounter(roots))
  {
    var result := BelowAll(Images(remapped, roots));
    && LayersSound(settings, Encounter(roots), geometry, remapped) && FreshSlot(roots, geometry.cursorSlot)
    && Coherent(result) && (forall x :: x in result ==> firstId <= x.id)
    && (SlotsValid(result) <==> SlotsValid(BelowAll(roots)) && OneDevice(BelowAll(roots)))
  }

  method SharedHeads(layers: seq<KvLayer>) returns (kvHeads: nat, headDim: nat)
    ensures SharesHeads(layers, kvHeads, headDim)
  {
    if layers == [] {
      return 0, 0;
    }
    for k := 0 to |layers|
      invariant forall j :: 0 <= j < k ==> layers[j].kvHeads == layers[0].kvHeads && layers[j].headDim == layers[0].headDim
    {
      if layers[k].kvHeads != layers[0].kvHeads || layers[k].headDim != layers[0].headDim {
        return 0, 0;
      }
    }
    return layers[0].kvHeads, layers[0].headDim;
  }

  /** The window check in terms of the graph. */
  lemma WindowCheckMeans(settings: Settings, order: seq<Term>, evictable: bool, maximum: Option<nat>)
    requires WindowsTracked(settings, order, |order|, evictable, maximum)
    ensures WindowFits(settings, order) <==>
            !(evictable && settings.window.Some? && maximum.Some? && settings.window.value < maximum.value)
  {
  }

  lemma TypedOrder(roots: seq<Term>)
    requires Coherent(BelowAll(roots)) && forall x :: x in BelowAll(roots) ==> Typed(x)
    ensures AllTyped(Encounter(roots)) && Topological(Encounter(roots))
  {
    EncounterIsReachable(roots);
    var order := Encounter(roots);
    assert forall j :: 0 <= j < |order| ==> order[j] in BelowAll(roots);
  }

  lemma GapMeans(settings: Settings, order: seq<Term>, slot: nat, st: Progress)
    requires AllTyped(order) && Progressing(settings, order, |order|, slot, st)
    ensures NoGap(order) <==> ZeroBased(Sort(LayerLeq, st.kvLayers))
  {
    NoGapMeans(settings, order, slot, st);
    SortedIsZeroBased(st.kvLayers, st.layerIds);
  }

  /** Sorts the layers and checks their numbers and windows. */
  method DescribeLayers(settings: Settings, order: seq<Term>, slot: nat, st: Progress) returns (r: Result<Geometry, DecodeError>)
    requires AllTyped(order) && Progressing(settings, order, |order|, slot, st)
    requires WindowsTracked(settings, order, |order|, st.evictable, st.maximumWindow)
    ensures r.Success? <==> NoGap(order) && WindowFits(settings, order)
    ensures r.Success? ==> GeometryFrom(st, slot, r.value) && ZeroBased(r.value.kvLayers)
  {
    var layers := Sort(LayerLeq, st.kvLayers);
    var zeroBased := CheckLayers(layers);
    GapMeans(settings, order, slot, st);
    if !zeroBased {
      return Failure(IdentityGap);
    }
    var kvHeads, headDim := SharedHeads(layers);
    WindowCheckMeans(settings, order, st.evictable, st.maximumWindow);
    if st.evictable && settings.window.Some? && st.maximumWindow.Some? && settings.window.value < st.maximumWindow.value {
      return Failure(WindowTooSmall);
    }
    return Success(Geometry(layers, kvHeads, headDim, st.evictable, st.kdaLayers, st.kda, st.convLayers, st.conv, slot, st.cursorTensor));
  }

  lemma GraphIsRewritten(settings: Settings, roots: seq<Term>, slot: nat, pool: set<Term>, firstId: nat, st: Progress, geometry: Geometry)
    requires Coherent(BelowAll(roots)) && AllTyped(Encounter(roots))
    requires Rewriting(settings, Encounter(roots), |Encounter(roots)|, slot, pool, firstId, st)
    requires FreshSlot(roots, slot) && forall x :: x in BelowAll(roots) ==> !x.op.kind.ScalarInput?
    requires GeometryFrom(st, slot, geometry) && ZeroBased(geometry.kvLayers)
    ensures GraphRewritten(settings, roots, firstId, geometry, st.remapped)
    ensures forall x :: x in roots ==> x.id in st.remapped
  {
    RewritingIsSound(settings, Encounter(roots), slot, st, geometry);
    ResultSlots(settings, roots, slot, pool, firstId, st);
    RootsMapped(settings, roots, st);
    forall x | x in roots
      ensures x.id in st.remapped
    {
      var i :| 0 <= i < |roots| && roots[i] == x;
      BelowAllHas(roots, i);
    }
  }

  /** Rewrites the graph and describes its stateful layers. */
  method RewriteGraph(settings: Settings, roots: seq<Term>, firstId: nat)
    returns (r: Result<(Progress, Geometry), DecodeError>)
    requires Coherent(BelowAll(roots)) && AllTyped(Encounter(roots))
    ensures r.Success? <==> GraphFits(settings, roots)
    ensures r.Success? ==>
      && GraphRewritten(settings, roots, firstId, r.value.1, r.value.0.remapped)
      && forall x :: x in roots ==> x.id in r.value.0.remapped
  {
    EncounterIsReachable(roots);
    var slot := CursorSlot(roots);
    if slot.Failure? {
      return Failure(slot.error);
    }
    var order := EncounterOrder(roots);
    var rewritten, pool := RewriteAll(settings, order, slot.value, firstId);
    if rewritten.Failure? {
      return Failure(rewritten.error);
    }
    var st := rewritten.value;
    var geometry := DescribeLayers(settings, order, slot.value, st);
    if geometry.Failure? {
      return Failure(geometry.error);
    }
    GraphIsRewritten(settings, roots, slot.value, pool, firstId, st, geometry.value);
    return Success((st, geometry.value));
  }

  /** The metadata of a node's image, from the source alone: positions have their own, other nodes are inferred anew. */
  ghost function ImageInfo(settings: Settings, n: Term): Info
    decreases n
  {
    if n.op.kind.PositionEmbedding? && |n.args| == 1 && |n.args[0].op.info.shape| >= 2 then
      var (tokens, width) := (n.op.kind.seqLen, n.args[0].op.info.shape[1]);
      Info(if settings.graphRows > 1 then [settings.graphRows, tokens, width] else [tokens, width],
           ImageInfo(settings, n.args[0]).dtype, n.args[0].op.info.device)
    else if Declared(n.op).Some? then n.op.info
    else settings.infer(n.op, ImageInfos(settings, n))
  }

  ghost function ImageInfos(settings: Settings, n: Term): (r: seq<Info>)
    ensures |r| == |n.args|
    decreases n, 0
  {
    seq(|n.args|, k requires 0 <= k < |n.args| => ImageInfo(settings, n.args[k]))
  }

  lemma {:induction false} ImageHasInfo(settings: Settings, geometry: Geometry, remapped: map<nat, Term>, order: seq<Term>, n: Term)
    requires Topological(order) && AllTyped(order) && n in order
    requires forall j :: 0 <= j < |order| ==> Becomes(settings, geometry, remapped, order, j)
    ensures Image(remapped, n).op.info == ImageInfo(settings, n)
    decreases n
  {
    var j :| 0 <= j < |order| && order[j] == n;
    assert Becomes(settings, geometry, remapped, order, j) && ArgsBefore(order, j);
    forall k | 0 <= k < |n.args|
      ensures Image(remapped, n.args[k]).op.info == ImageInfo(settings, n.args[k])
    {
      ImageHasInfo(settings, geometry, remapped, order, n.args[k]);
    }
    RewrittenInfo(settings, geometry, remapped, order, j);
  }

  lemma RewrittenInfo(settings: Settings, geometry: Geometry, remapped: map<nat, Term>, order: seq<Term>, j: nat)
    requires j < |order| && Typed(order[j]) && Becomes(settings, geometry, remapped, order, j)
    requires forall k :: 0 <= k < |order[j].args| ==> Image(remapped, order[j].args[k]).op.info == ImageInfo(settings, order[j].args[k])
    ensures Image(remapped, order[j]).op.info == ImageInfo(settings, order[j])
  {
    var n, image := order[j], remapped[order[j].id];
    if !n.op.kind.PositionEmbedding? {
      assert image.args == Images(remapped, n.args) && image.op.info == NewInfo(settings, n, image.args);
      assert InfosOf(image.args) == ImageInfos(settings, n);
    }
  }

  lemma RootsHaveShapes(settings: Settings, roots: seq<Term>, geometry: Geometry, remapped: map<nat, Term>)
    requires Coherent(BelowAll(roots)) && AllTyped(Encounter(roots)) && LayersSound(settings, Encounter(roots), geometry, remapped)
    ensures forall i :: 0 <= i < |roots| ==> Typed(roots[i]) && Image(remapped, roots[i]).op.info == ImageInfo(settings, roots[i])
  {
    var order := Encounter(roots);
    EncounterIsReachable(roots);
    forall i | 0 <= i < |roots|
      ensures Typed(roots[i]) && Image(remapped, roots[i]).op.info == ImageInfo(settings, roots[i])
    {
      BelowAllHas(roots, i);
      assert roots[i] in order;
      ImageHasInfo(settings, geometry, remapped, order, roots[i]);
    }
  }

  /** The layout admits a packed root, and rows are selected only where there is a lane for each sequence. */
  predicate ShapeFits(layout: Layout, graphRows: nat, selection: Selection, shape: seq<nat>) {
    && (layout.PackedCausalChains? ==> |shape| == 3 && shape[0] == graphRows && shape[1] == 1)
    && (selection.AllRows? || Selectable(shape, layout.batch))
  }

  /** What the layout and the selections must meet. */
  ghost predicate RequestFits(layout: Layout, selections: seq<Selection>, count: nat, bidirectional: bool) {
    && layout.GraphRows().Some? && |selections| == count
    && (layout.PackedCausalChains? ==> !bidirectional && forall i :: 0 <= i < |selections| ==> selections[i].AllRows?)
  }

  ghost predicate RootsFit(settings: Settings, layout: Layout, roots: seq<Term>, selections: seq<Selection>)
    requires |roots| == |selections| && forall i :: 0 <= i < |roots| ==> Typed(roots[i])
  {
    forall i :: 0 <= i < |roots| ==> ShapeFits(layout, settings.graphRows, selections[i], ImageInfo(settings, roots[i]).shape)
  }

  function SettingsFor(window: Option<nat>, layout: Layout, bidirectional: bool, infer: Inference): Settings
    requires layout.GraphRows().Some?
  {
    Settings(window, layout.GraphRows().value, bidirectional, infer)
  }

  /** Everything a successful specialization needs, in terms of the request and the source graph. */
  ghost predicate Specializable(roots: seq<Term>, window: Option<nat>, layout: Layout, selections: seq<Selection>, bidirectional: bool,
                               infer: Inference)
    requires Coherent(BelowAll(roots)) && forall x :: x in BelowAll(roots) ==> Typed(x)
  {
    TypedOrder(roots);
    RootsTyped(roots);
    && RequestFits(layout, selections, |roots|, bidirectional)
    && GraphFits(SettingsFor(window, layout, bidirectional, infer), roots)
    && RootsFit(SettingsFor(window, layout, bidirectional, infer), layout, roots, selections)
  }

  lemma RootsTyped(roots: seq<Term>)
    requires forall x :: x in BelowAll(roots) ==> Typed(x)
    ensures forall i :: 0 <= i < |roots| ==> Typed(roots[i])
  {
    forall i | 0 <= i < |roots|
      ensures Typed(roots[i])
    {
      BelowAllHas(roots, i);
    }
  }

  method CheckRequest(layout: Layout, selections: seq<Selection>, count: nat, bidirectional: bool) returns (r: Result<nat, DecodeError>)
    ensures r.Success? <==> RequestFits(layout, selections, count, bidirectional)
    ensures r.Success? ==> layout.GraphRows() == Some(r.value)
  {
    var rows := layout.GraphRows();
    if rows.None? {
      return Failure(EmptyLayout);
    }
    if |selections| != count {
      return Failure(SelectionCount);
    }
    if layout.PackedCausalChains? {
      for i := 0 to |selections|
        invariant forall k :: 0 <= k < i ==> selections[k].AllRows?
      {
        if !selections[i].AllRows? {
          return Failure(PackedNeedsAllRows);
        }
      }
      if bidirectional {
        return Failure(PackedNeedsCausal);
      }
    }
    return Success(rows.value);
  }

  method CheckPackedRoots(layout: Layout, graphRows: nat, images: seq<Term>) returns (ok: bool)
    ensures ok <==> forall i | 0 <= i < |images| ::
      var shape := images[i].op.info.shape;
      layout.PackedCausalChains? ==> |shape| == 3 && shape[0] == graphRows && shape[1] == 1
  {
    if layout.PackedCausalChains? {
      for i := 0 to |images|
        invariant forall k :: 0 <= k < i ==> |images[k].op.info.shape| == 3 && images[k].op.info.shape[0] == graphRows
                                             && images[k].op.info.shape[1] == 1
      {
        var shape := images[i].op.info.shape;
        if |shape| != 3 || shape[0] != graphRows || shape[1] != 1 {
          return false;
        }
      }
    }
    return true;
  }

  /** Checks the rewritten roots and takes their outputs. */
  method TakeOutputs(layout: Layout, graphRows: nat, images: seq<Term>, selections: seq<Selection>, next: nat)
    returns (r: Result<seq<Term>, DecodeError>)
    requires |images| == |selections| && layout.batch > 0
    ensures r.Success? <==> forall i :: 0 <= i < |images| ==> ShapeFits(layout, graphRows, selections[i], images[i].op.info.shape)
    ensures r.Success? ==>
      && OutputsTaken(images, selections, |images|, r.value)
      && (SlotsValid(BelowAll(r.value)) <==> SlotsValid(BelowAll(images)))
  {
    var packedFits := CheckPackedRoots(layout, graphRows, images);
    if !packedFits {
      return Failure(PackedRoots);
    }
    var outputs := SelectOutputs(images, selections, layout.batch, next);
    if outputs.None? {
      return Failure(SelectedRoots);
    }
    OutputsKeepSlots(images, selections, outputs.value);
    return Success(outputs.value);
  }

  lemma ImagesFit(settings: Settings, layout: Layout, roots: seq<Term>, selections: seq<Selection>, remapped: map<nat, Term>)
    requires |roots| == |selections|
    requires forall i :: 0 <= i < |roots| ==> Typed(roots[i]) && Image(remapped, roots[i]).op.info == ImageInfo(settings, roots[i])
    ensures var images := Images(remapped, roots);
            RootsFit(settings, layout, roots, selections) <==>
            forall i :: 0 <= i < |images| ==> ShapeFits(layout, settings.graphRows, selections[i], images[i].op.info.shape)
  {
  }

  datatype Specialization = Specialization(outputs: seq<Term>, geometry: Geometry)

  /** A rewritten graph with the selected outputs, and their slot table. */
  ghost predicate Specializes(settings: Settings, roots: seq<Term>, selections: seq<Selection>, firstId: nat,
                              result: Specialization, remapped: map<nat, Term>)
    requires |roots| == |selections| && AllTyped(Encounter(roots))
  {
    && GraphRewritten(settings, roots, firstId, result.geometry, remapped)
    && OutputsTaken(Images(remapped, roots), selections, |roots|, result.outputs)
    && (SlotsValid(BelowAll(result.outputs)) <==> SlotsValid(BelowAll(roots)) && OneDevice(BelowAll(roots)))
  }

  method SpecializeWith(settings: Settings, layout: Layout, roots: seq<Term>, selections: seq<Selection>, firstId: nat)
    returns (r: Result<Specialization, DecodeError>, ghost remapped: map<nat, Term>)
    requires Coherent(BelowAll(roots)) && AllTyped(Encounter(roots)) && forall i :: 0 <= i < |roots| ==> Typed(roots[i])
    requires |roots| == |selections| && layout.batch > 0
    ensures r.Success? <==> GraphFits(settings, roots) && RootsFit(settings, layout, roots, selections)
    ensures r.Success? ==> Specializes(settings, roots, selections, firstId, r.value, remapped)
  {
    remapped := map[];
    var rewritten := RewriteGraph(settings, roots, firstId);
    if rewritten.Failure? {
      return Failure(rewritten.error), remapped;
    }
    var (st, geometry) := rewritten.value;
    remapped := st.remapped;
    var images := Images(st.remapped, roots);
    RootsHaveShapes(settings, roots, geometry, st.remapped);
    ImagesFit(settings, layout, roots, selections, st.remapped);
    var outputs := TakeOutputs(layout, settings.graphRows, images, selections, st.next);
    if outputs.Failure? {
      return Failure(outputs.error), remapped;
    }
    return Success(Specialization(outputs.value, geometry)), remapped;
  }

  /**
   * Builds the decode specialization. It succeeds exactly for the requests and graphs that meet the stated conditions;
   * then layers are numbered without gaps, every attention node reads the layer of its own key operand, the cursor's
   * slot is new, and the slot table of the outputs is valid exactly when the source has a valid one and all position
   * embeddings share one device.
   */
  method SpecializeDecode(roots: seq<Term>, window: Option<nat>, layout: Layout, selections: seq<Selection>, bidirectional: bool,
                          infer: Inference, firstId: nat)
    returns (r: Result<Specialization, DecodeError>, ghost remapped: map<nat, Term>)
    requires Coherent(BelowAll(roots)) && forall x :: x in BelowAll(roots) ==> Typed(x)
    ensures r.Success? <==> Specializable(roots, window, layout, selections, bidirectional, infer)
    ensures r.Success? ==>
      && AllTyped(Encounter(roots))
      && Specializes(SettingsFor(window, layout, bidirectional, infer), roots, selections, firstId, r.value, remapped)
  {
    TypedOrder(roots);
    RootsTyped(roots);
    var graphRows := CheckRequest(layout, selections, |roots|, bidirectional);
    if graphRows.Failure? {
      return Failure(graphRows.error), map[];
    }
    r, remapped := SpecializeWith(SettingsFor(window, layout, bidirectional, infer), layout, roots, selections, firstId);
  }
}
