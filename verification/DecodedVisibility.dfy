/**
 * What a specialized graph means for the keys of an attention layer: which keys a query reads from the cache, which
 * keys may be dropped, and what the descriptors of the stateful layers say, all in terms of the source nodes' fields.
 */
module DecodedVisibility {
  import opened Wrappers
  import opened DTypes
  import opened Dag
  import opened NodeInfo
  import opened SemanticGraph
  import opened DecodeSteps
  import opened DecodeSpecialization

  // ----- What the source promises

  /** Whether a key is among those a window reaches back to from position `from`. */
  predicate Reaches(window: AttentionWindow, legacy: Option<nat>, from: nat, key: nat) {
    match window
    case Full => true
    case Local(size) => from <= key + size
    case Inherit =>
      match legacy
      case None => true
      case Some(size) => from <= key + size
  }

  /** A query at position `p` sees no later key, and only keys within its window. */
  predicate Sees(kind: Kind, legacy: Option<nat>, p: nat, key: nat)
    requires kind.Attention?
  {
    key <= p && Reaches(kind.window, legacy, p + 1, key)
  }

  /** A query of a block that ends before `end` sees the whole block, and the keys within its window before the block. */
  predicate BlockSees(kind: Kind, legacy: Option<nat>, cursor: nat, end: nat, key: nat)
    requires kind.Attention?
  {
    key < end && Reaches(kind.window, legacy, cursor, key)
  }

  /** Whether a separately configured retention keeps a key once `cursor` tokens are committed. */
  predicate Retains(kind: Kind, cursor: nat, key: nat)
    requires kind.Attention?
  {
    match kind.configuration
    case None => true
    case Some(configuration) =>
      match configuration.retention
      case Local(size) => cursor <= key + size
      case _ => true
  }

  /** The window keeps exactly the last `size` keys. */
  predicate LastOf(window: AttentionWindow, legacy: Option<nat>, size: nat) {
    match window
    case Full => false
    case Local(n) => n == size
    case Inherit => legacy == Some(size)
  }

  /** The layer has to keep exactly the last `size` keys: its own retention first, then its window, then the legacy one. */
  predicate KeepsLast(kind: Kind, legacy: Option<nat>, size: nat)
    requires kind.Attention?
  {
    match kind.configuration
    case None => LastOf(kind.window, legacy, size)
    case Some(configuration) =>
      match configuration.retention
      case Full => false
      case Local(n) => n == size
      case Inherit => LastOf(kind.window, legacy, size)
  }

  // ----- What the runtime reads

  /** Saturating subtraction. */
  function Minus(a: nat, b: nat): nat {
    if a < b then 0 else a - b
  }

  function Most(a: nat, b: nat): nat {
    if a < b then b else a
  }

  /**
   * One invocation for one sequence: whether the pool has a descriptor for each layer, the tokens committed, the position
   * and number of the rows staged, and the first position still held.
   */
  datatype Call = Call(explicitLayers: bool, cursor: nat, row: nat, valid: nat, first: nat)

  function PrefixStart(call: Call, layer: KvLayer): nat {
    var kept := if call.explicitLayers && layer.retention.Some? then Minus(call.cursor, layer.retention.value) else 0;
    Most(kept, call.first)
  }

  function End(call: Call, bidirectional: bool, query: nat): nat {
    if bidirectional then call.row + call.valid else call.row + query + 1
  }

  function Begin(call: Call, layer: KvLayer, resolved: Option<nat>, bidirectional: bool, query: nat): nat {
    match resolved
    case None => PrefixStart(call, layer)
    case Some(size) => Most(Minus(if bidirectional then call.cursor else End(call, bidirectional, query), size), PrefixStart(call, layer))
  }

  /** The keys a query of a cached attention node reads. */
  predicate Reads(call: Call, layer: KvLayer, kind: Kind, query: nat, key: nat)
    requires kind.KvAttention?
  {
    Begin(call, layer, kind.resolved, kind.bidirectional, query) <= key < End(call, kind.bidirectional, query)
  }

  /** The least first key any layer keeps at this frontier. */
  function RetentionStart(layers: seq<KvLayer>, frontier: nat): nat {
    if layers == [] then 0
    else
      var kept := if layers[0].retention.Some? then Minus(frontier, layers[0].retention.value) else 0;
      if |layers| == 1 then kept
      else
        var rest := RetentionStart(layers[1..], frontier);
        if kept < rest then kept else rest
  }

  /** Keys before this one may be dropped once the tokens before the frontier are committed. */
  function EvictionStart(explicitLayers: bool, geometry: Geometry, window: Option<nat>, frontier: nat): nat {
    if explicitLayers then RetentionStart(geometry.kvLayers, frontier)
    else if geometry.evictable && window.Some? then Minus(frontier, window.value)
    else 0
  }

  /** What is still held follows from an eviction at an earlier frontier. */
  ghost predicate Held(geometry: Geometry, window: Option<nat>, call: Call, frontier: nat) {
    frontier <= call.cursor <= call.row && call.first <= EvictionStart(call.explicitLayers, geometry, window, frontier)
  }

  lemma {:induction false} RetentionStartIsLeast(layers: seq<KvLayer>, frontier: nat, k: nat)
    requires k < |layers|
    ensures RetentionStart(layers, frontier) <= if layers[k].retention.Some? then Minus(frontier, layers[k].retention.value) else 0
  {
    if k > 0 {
      RetentionStartIsLeast(layers[1..], frontier, k - 1);
    }
  }

  // ----- One layer

  /** The descriptor of a layer keeps as many keys as its node asks for. */
  lemma RetentionIsKept(settings: Settings, kind: Kind)
    requires kind.Attention?
    ensures forall size: nat :: Retention(settings, kind) == Some(size) <==> KeepsLast(kind, settings.window, size)
  {
  }

  /** Eviction never passes what a layer keeps. */
  lemma NothingNeededIsDropped(settings: Settings, order: seq<Term>, geometry: Geometry, j: nat, call: Call, frontier: nat, layer: nat)
    requires j < |order| && order[j].op.kind.Attention? && WindowFits(settings, order)
    requires geometry.evictable <==> forall i :: 0 <= i < |order| && order[i].op.kind.Attention? ==> Retention(settings, order[i].op.kind).Some?
    requires layer < |geometry.kvLayers| && geometry.kvLayers[layer].retention == Retention(settings, order[j].op.kind)
    requires Held(geometry, settings.window, call, frontier)
    ensures call.explicitLayers ==> call.first <= PrefixStart(call.(first := 0), geometry.kvLayers[layer])
    ensures !call.explicitLayers && Legacy(order[j].op.kind) ==>
      match Retention(settings, order[j].op.kind)
      case None => call.first == 0
      case Some(size) => call.first <= Minus(call.cursor, size)
  {
    RetentionStartIsLeast(geometry.kvLayers, frontier, layer);
  }

  /** The keys that are read are the keys to be seen, by the fields of node and call alone. */
  lemma ReadsAreSeen(settings: Settings, kind: Kind, layer: KvLayer, image: Kind, call: Call, query: nat, key: nat)
    requires kind.Attention? && image.KvAttention? && query < call.valid && call.cursor <= call.row
    requires layer.retention == Retention(settings, kind)
    requires image.resolved == kind.window.Resolve(settings.window) && image.bidirectional == settings.bidirectional
    requires call.explicitLayers || Legacy(kind)
    requires match Retention(settings, kind)
             case None => call.first == 0
             case Some(size) => call.first <= Minus(call.cursor, size)
    ensures Reads(call, layer, image, query, key) <==>
            && Retains(kind, call.cursor, key)
            && if settings.bidirectional then BlockSees(kind, settings.window, call.cursor, call.row + call.valid, key)
               else Sees(kind, settings.window, call.row + query, key)
  {
  }

  // ----- Whole graphs

  /** Retention follows the window: nothing is configured, or the configuration inherits. */
  ghost predicate FollowsWindow(kind: Kind)
    requires kind.Attention?
  {
    kind.configuration.None? || kind.configuration.value.retention == AttentionWindow.Inherit
  }

  ghost predicate EveryLayerForgets(legacy: Option<nat>, nodes: set<Term>) {
    forall n :: n in nodes && n.op.kind.Attention? ==> exists size: nat :: KeepsLast(n.op.kind, legacy, size)
  }

  /** The keys a layer that follows its window sees lie within the global window. */
  ghost predicate GlobalWindowSuffices(legacy: Option<nat>, nodes: set<Term>) {
    forall n, size: nat :: n in nodes && n.op.kind.Attention? && FollowsWindow(n.op.kind) && LastOf(n.op.kind.window, legacy, size) ==>
      legacy.Some? && size <= legacy.value
  }

  /** What the image of an attention node is, and what the descriptor of its layer says, field by field. */
  ghost predicate AttentionDescribed(legacy: Option<nat>, bidirectional: bool, geometry: Geometry, n: Term, image: Term)
    requires n.op.kind.Attention? && Typed(n)
  {
    && image.op.kind.KvAttention? && (bidirectional <==> image.op.kind.bidirectional)
    && (!bidirectional ==> n.op.kind.causal)
    && (n.op.kind.configuration.None? ==> image.op.kind.rounding == Fused)
    && (n.op.kind.configuration.Some? ==> image.op.kind.rounding == n.op.kind.configuration.value.rounding)
    && (n.op.kind.configuration.Some? && n.op.kind.configuration.value.layerId.Some? ==>
          image.op.kind.layer == n.op.kind.configuration.value.layerId.value)
    && image.op.kind.layer < |geometry.kvLayers|
    && var layer, key := geometry.kvLayers[image.op.kind.layer], n.args[1].op.info;
       && layer.layerId == image.op.kind.layer
       && |key.shape| == 4 && layer.kvHeads == key.shape[1] && layer.headDim == key.shape[3] && layer.dtype == key.dtype
       && forall size: nat :: layer.retention == Some(size) <==> KeepsLast(n.op.kind, legacy, size)
  }

  /**
   * In every later call, whatever has been dropped before, a query of the rewritten node reads exactly the keys the
   * source node sees and its configured retention keeps.
   */
  ghost predicate ReadsWhatItSees(legacy: Option<nat>, bidirectional: bool, geometry: Geometry, n: Term, image: Term)
    requires n.op.kind.Attention? && image.op.kind.KvAttention? && image.op.kind.layer < |geometry.kvLayers|
  {
    forall call: Call, frontier: nat, query: nat, key: nat |
      Held(geometry, legacy, call, frontier) && query < call.valid && (call.explicitLayers || FollowsWindow(n.op.kind)) ::
      Reads(call, geometry.kvLayers[image.op.kind.layer], image.op.kind, query, key) <==>
      && Retains(n.op.kind, call.cursor, key)
      && if bidirectional then BlockSees(n.op.kind, legacy, call.cursor, call.row + call.valid, key)
         else Sees(n.op.kind, legacy, call.row + query, key)
  }

  lemma NodeReads(settings: Settings, order: seq<Term>, geometry: Geometry, remapped: map<nat, Term>, j: nat)
    requires AllTyped(order) && LayersSound(settings, order, geometry, remapped) && WindowFits(settings, order)
    requires j < |order| && order[j].op.kind.Attention?
    ensures order[j].id in remapped
    ensures AttentionDescribed(settings.window, settings.bidirectional, geometry, order[j], remapped[order[j].id])
    ensures ReadsWhatItSees(settings.window, settings.bidirectional, geometry, order[j], remapped[order[j].id])
  {
    assert Becomes(settings, geometry, remapped, order, j);
    var n, image := order[j], remapped[order[j].id];
    var layer := geometry.kvLayers[image.op.kind.layer];
    RetentionIsKept(settings, n.op.kind);
    forall call: Call, frontier: nat, query: nat, key: nat |
      Held(geometry, settings.window, call, frontier) && query < call.valid && (call.explicitLayers || FollowsWindow(n.op.kind))
      ensures Reads(call, layer, image.op.kind, query, key) <==>
              && Retains(n.op.kind, call.cursor, key)
              && if settings.bidirectional then BlockSees(n.op.kind, settings.window, call.cursor, call.row + call.valid, key)
                 else Sees(n.op.kind, settings.window, call.row + query, key)
    {
      NothingNeededIsDropped(settings, order, geometry, j, call, frontier, image.op.kind.layer);
      ReadsAreSeen(settings, n.op.kind, layer, image.op.kind, call, query, key);
    }
  }

  /** Nodes without an identity of their own are numbered in encounter order. */
  lemma NodeIsNumbered(settings: Settings, order: seq<Term>, geometry: Geometry, remapped: map<nat, Term>, j: nat)
    requires AllTyped(order) && LayersSound(settings, order, geometry, remapped) && j < |order| && order[j].op.kind.Attention?
    requires order[j].op.kind.configuration.None? || order[j].op.kind.configuration.value.layerId.None?
    ensures ReadsLayer(remapped, order[j], Count(AttentionState, order, j))
  {
    assert Becomes(settings, geometry, remapped, order, j);
  }

  lemma WindowIsRetained(settings: Settings, kind: Kind, size: nat)
    requires kind.Attention? && FollowsWindow(kind)
    ensures NeedsWindow(settings, kind) && kind.window.Resolve(settings.window).value == size <==> LastOf(kind.window, settings.window, size)
  {
  }

  /** The window check: under a global window and with eviction allowed, it covers every layer that follows its window. */
  lemma WindowFitsMeans(settings: Settings, order: seq<Term>, nodes: set<Term>)
    requires forall n :: n in order <==> n in nodes
    ensures WindowFits(settings, order) <==>
            (EveryLayerForgets(settings.window, nodes) && settings.window.Some? ==> GlobalWindowSuffices(settings.window, nodes))
  {
    LayersForget(settings, order, nodes);
    forall n, size: nat | n in nodes && n.op.kind.Attention? && FollowsWindow(n.op.kind)
      ensures NeedsWindow(settings, n.op.kind) && n.op.kind.window.Resolve(settings.window).value == size
              <==> LastOf(n.op.kind.window, settings.window, size)
      ensures exists j :: 0 <= j < |order| && order[j] == n
    {
      WindowIsRetained(settings, n.op.kind, size);
    }
    forall j | 0 <= j < |order| && NeedsWindow(settings, order[j].op.kind)
      ensures order[j] in nodes && FollowsWindow(order[j].op.kind)
    {
    }
  }

  lemma LayersForget(settings: Settings, order: seq<Term>, nodes: set<Term>)
    requires forall n :: n in order <==> n in nodes
    ensures (forall j :: 0 <= j < |order| && order[j].op.kind.Attention? ==> Retention(settings, order[j].op.kind).Some?)
            <==> EveryLayerForgets(settings.window, nodes)
  {
    forall n | n in nodes && n.op.kind.Attention?
      ensures Retention(settings, n.op.kind).Some? <==> exists size: nat :: KeepsLast(n.op.kind, settings.window, size)
      ensures exists j :: 0 <= j < |order| && order[j] == n
    {
      RetentionIsKept(settings, n.op.kind);
      if Retention(settings, n.op.kind).Some? {
        assert KeepsLast(n.op.kind, settings.window, Retention(settings, n.op.kind).value);
      }
    }
    assert forall j :: 0 <= j < |order| ==> order[j] in nodes;
  }

  /** Recurrences have the geometry of their own operands; on the CPU the element type is theirs too. */
  ghost predicate KdaDescribed(geometry: Geometry, n: Term)
    requires n.op.kind.KdaChunk? && Typed(n)
  {
    var q, v := n.args[0].op.info, n.args[2].op.info;
    && |q.shape| == 4 && geometry.kda.Some?
    && geometry.kda.value.heads == q.shape[1] && geometry.kda.value.headDim == q.shape[3] && geometry.kda.value.valueDim == v.shape[3]
    && (q.device.Cpu? ==> geometry.kda.value.dtype == q.dtype)
  }

  ghost predicate ConvDescribed(geometry: Geometry, n: Term)
    requires n.op.kind.ShortConv1d? && Typed(n)
  {
    var x, weight := n.args[0].op.info, n.args[1].op.info;
    |x.shape| == 3 && geometry.conv.Some? && geometry.conv.value.channels == x.shape[2] && geometry.conv.value.kernel == weight.shape[1]
  }

  ghost predicate IsKdaOfType(n: Term, dtype: DType) {
    n.op.kind.KdaChunk? && Typed(n) && n.args[0].op.info.dtype == dtype
  }

  lemma FamiliesAreDescribed(settings: Settings, order: seq<Term>, geometry: Geometry, remapped: map<nat, Term>)
    requires AllTyped(order) && LayersSound(settings, order, geometry, remapped)
    ensures forall n :: n in order && n.op.kind.KdaChunk? ==> KdaDescribed(geometry, n)
    ensures forall n :: n in order && n.op.kind.ShortConv1d? ==> ConvDescribed(geometry, n)
    ensures geometry.kda.Some? ==> exists n :: n in order && IsKdaOfType(n, geometry.kda.value.dtype)
    ensures geometry.conv.Some? ==> exists n :: n in order && n.op.kind.ShortConv1d?
  {
    forall n | n in order
      ensures n.op.kind.KdaChunk? ==> KdaDescribed(geometry, n)
      ensures n.op.kind.ShortConv1d? ==> ConvDescribed(geometry, n)
    {
      var j :| 0 <= j < |order| && order[j] == n;
      assert Becomes(settings, geometry, remapped, order, j);
    }
    if geometry.kda.Some? {
      var j :| 0 <= j < |order| && IsFirstKda(order, j, geometry.kda.value);
      assert order[j] in order && IsKdaOfType(order[j], geometry.kda.value.dtype);
    }
    if geometry.conv.Some? {
      var j :| 0 <= j < |order| && HasConv(order, j, geometry.conv.value);
      assert order[j] in order;
    }
  }

  /** The rows of a graph: one for each sequence, or several; none without sequences or rows. */
  lemma RowsOfLayout(batch: nat, rows: nat)
    ensures Dense(batch).GraphRows() == if batch > 0 then Some(batch) else None
    ensures PackedCausalChains(batch, rows).GraphRows() == if batch > 0 && rows > 0 then Some(batch * rows) else None
  {
    if batch > 0 && rows > 0 {
      assert batch * rows > 0;
    }
  }

  /** Packed chains take every row of every root and need the causal policy; other selections need a lane for each sequence. */
  lemma RequestMeans(layout: Layout, selections: seq<Selection>, bidirectional: bool, shapes: seq<seq<nat>>)
    requires |shapes| == |selections|
    ensures RequestFits(layout, selections, |shapes|, bidirectional) && (forall i :: 0 <= i < |shapes| ==>
              ShapeFits(layout, layout.GraphRows().value, selections[i], shapes[i]))
            <==> match layout
                 case Dense(batch) =>
                   && batch > 0
                   && forall i :: 0 <= i < |shapes| && selections[i] != AllRows ==> |shapes[i]| == 3 && shapes[i][0] == batch
                 case PackedCausalChains(batch, rows) =>
                   && batch > 0 && rows > 0 && !bidirectional && (forall i :: 0 <= i < |selections| ==> selections[i] == AllRows)
                   && forall i :: 0 <= i < |shapes| ==> |shapes[i]| == 3 && shapes[i][..2] == [batch * rows, 1]
  {
    RowsOfLayout(layout.batch, if layout.Dense? then 1 else layout.rowsPerSequence);
    forall i | 0 <= i < |shapes| && |shapes[i]| == 3
      ensures layout.PackedCausalChains? ==>
        (shapes[i][..2] == [layout.batch * layout.rowsPerSequence, 1]
         <==> shapes[i][0] == layout.batch * layout.rowsPerSequence && shapes[i][1] == 1)
    {
      assert shapes[i][..2] == [shapes[i][0], shapes[i][1]];
    }
  }

  /** What a specialization means for the layers of the source graph. */
  lemma SpecializationReads(roots: seq<Term>, window: Option<nat>, layout: Layout, selections: seq<Selection>, bidirectional: bool,
                            infer: Inference, firstId: nat, result: Specialization, remapped: map<nat, Term>)
    requires Coherent(BelowAll(roots)) && (forall x :: x in BelowAll(roots) ==> Typed(x)) && AllTyped(Encounter(roots))
    requires Specializable(roots, window, layout, selections, bidirectional, infer)
    requires Specializes(SettingsFor(window, layout, bidirectional, infer), roots, selections, firstId, result, remapped)
    ensures forall n | n in BelowAll(roots) && n.op.kind.Attention? ::
              && n.id in remapped && AttentionDescribed(window, bidirectional, result.geometry, n, remapped[n.id])
              && ReadsWhatItSees(window, bidirectional, result.geometry, n, remapped[n.id])
    ensures result.geometry.evictable <==> EveryLayerForgets(window, BelowAll(roots))
    ensures forall n :: n in BelowAll(roots) && n.op.kind.KdaChunk? ==> KdaDescribed(result.geometry, n)
    ensures forall n :: n in BelowAll(roots) && n.op.kind.ShortConv1d? ==> ConvDescribed(result.geometry, n)
    ensures result.geometry.kda.Some? ==> exists n :: n in BelowAll(roots) && IsKdaOfType(n, result.geometry.kda.value.dtype)
    ensures result.geometry.conv.Some? ==> exists n :: n in BelowAll(roots) && n.op.kind.ShortConv1d?
  {
    var settings, order := SettingsFor(window, layout, bidirectional, infer), Encounter(roots);
    EncounterIsReachable(roots);
    forall n | n in BelowAll(roots) && n.op.kind.Attention?
      ensures n.id in remapped && AttentionDescribed(window, bidirectional, result.geometry, n, remapped[n.id])
      ensures ReadsWhatItSees(window, bidirectional, result.geometry, n, remapped[n.id])
    {
      var j :| 0 <= j < |order| && order[j] == n;
      NodeReads(settings, order, result.geometry, remapped, j);
    }
    LayersForget(settings, order, BelowAll(roots));
    FamiliesAreDescribed(settings, order, result.geometry, remapped);
  }
}
