/**
 * One node of the decode specialization: attention, recurrence and convolution nodes become stateful ones with layer
 * numbers, implicit positions become cursor-relative, and everything else is rebuilt.
 */
module DecodeSteps {
  import opened DTypes
  import opened Wrappers
  import opened Dag
  import opened NodeInfo
  import opened SemanticGraph

  datatype KvLayer = KvLayer(layerId: nat, kvHeads: nat, headDim: nat, dtype: DType, retention: Option<nat>)

  datatype KdaGeometry = KdaGeometry(heads: nat, headDim: nat, valueDim: nat, dtype: DType)

  datatype ConvGeometry = ConvGeometry(channels: nat, kernel: nat)

  datatype DecodeError =
    | EmptyLayout | SelectionCount | PackedNeedsAllRows | PackedNeedsCausal | RuntimeScalar
    | NonCausalAttention | AttentionShape | MixedIdentities | DuplicateIdentity(layer: nat) | IdentityGap
    | KdaShape | KdaType | KdaDisagrees | ConvShape | ConvDisagrees | WindowTooSmall
    | PackedRoots | SelectedRoots

  /** What a specialization is asked for: the legacy window, the graph rows, and the current-block policy. */
  datatype Settings = Settings(window: Option<nat>, graphRows: nat, bidirectional: bool, infer: Inference)

  /** The metadata a node of an operation gets when it is constructed over operands with the given metadata. */
  type Inference = (Op, seq<Info>) -> Info

  // ----- One node

  /** Everything the rewriting loop updates. */
  datatype Progress = Progress(
    remapped: map<nat, Term>, next: nat,
    kvLayers: seq<KvLayer>, explicitIds: Option<bool>, layerIds: set<nat>,
    evictable: bool, maximumWindow: Option<nat>,
    kdaLayers: nat, kda: Option<KdaGeometry>, convLayers: nat, conv: Option<ConvGeometry>,
    cursorTensor: bool)

  function Image(remapped: map<nat, Term>, n: Term): Term {
    if n.id in remapped then remapped[n.id] else n
  }

  function Images(remapped: map<nat, Term>, nodes: seq<Term>): (r: seq<Term>)
    ensures |r| == |nodes| && forall k :: 0 <= k < |nodes| ==> r[k] == Image(remapped, nodes[k])
  {
    seq(|nodes|, k requires 0 <= k < |nodes| => Image(remapped, nodes[k]))
  }

  /** Operand counts and the ranks the rewriting reads without looking. */
  predicate Typed(n: Term) {
    && FitsArity(n.op.kind, |n.args|)
    && (n.op.kind.KdaChunk? ==> |n.args[2].op.info.shape| >= 4)
    && (n.op.kind.ShortConv1d? ==> |n.args[1].op.info.shape| >= 2)
    && (n.op.kind.PositionEmbedding? ==> |n.args[0].op.info.shape| >= 2)
  }

  function ExplicitId(kind: Kind): Option<nat>
    requires kind.Attention?
  {
    if kind.configuration.Some? then kind.configuration.value.layerId else None
  }

  function Retention(settings: Settings, kind: Kind): Option<nat>
    requires kind.Attention?
  {
    var resolved := kind.window.Resolve(settings.window);
    if kind.configuration.Some? then kind.configuration.value.retention.Resolve(resolved) else resolved
  }

  function RoundingOf(kind: Kind): Rounding
    requires kind.Attention?
  {
    if kind.configuration.Some? then kind.configuration.value.rounding else Fused
  }

  /** The persistent state an attention node needs, read from its own key operand. */
  function LayerOf(settings: Settings, n: Term, layer: nat): KvLayer
    requires n.op.kind.Attention? && Typed(n) && |n.args[1].op.info.shape| == 4
  {
    var k := n.args[1].op.info;
    KvLayer(layer, k.shape[1], k.shape[3], k.dtype, Retention(settings, n.op.kind))
  }

  function Larger(a: Option<nat>, b: nat): Option<nat> {
    if a.Some? && a.value > b then a else Some(b)
  }

  function InfosOf(nodes: seq<Term>): (r: seq<Info>)
    ensures |r| == |nodes| && forall k :: 0 <= k < |nodes| ==> r[k] == nodes[k].op.info
  {
    seq(|nodes|, k requires 0 <= k < |nodes| => nodes[k].op.info)
  }

  /** Leaves keep their metadata; other nodes get theirs anew, since the images of operands may differ in shape. */
  function NewInfo(settings: Settings, n: Term, images: seq<Term>): Info {
    if Declared(n.op).Some? then n.op.info else settings.infer(n.op, InfosOf(images))
  }

  /** The node rebuilt with the images of its operands. */
  function Rebuilt(settings: Settings, st: Progress, n: Term, kind: Kind): Progress {
    var images := Images(st.remapped, n.args);
    st.(remapped := st.remapped[n.id := Node(st.next, Op(kind, NewInfo(settings, n, images)), images)], next := st.next + 1)
  }

  function AttentionStep(settings: Settings, st: Progress, n: Term): Result<Progress, DecodeError>
    requires n.op.kind.Attention? && Typed(n)
  {
    var kind, k := n.op.kind, n.args[1].op.info;
    if !kind.causal && !settings.bidirectional then Failure(NonCausalAttention)
    else if |k.shape| != 4 || k.shape[0] != settings.graphRows then Failure(AttentionShape)
    else
      var resolved, given := kind.window.Resolve(settings.window), ExplicitId(kind);
      if st.explicitIds.Some? && st.explicitIds.value != given.Some? then Failure(MixedIdentities)
      else
        var layer := if given.Some? then given.value else |st.kvLayers|;
        if layer in st.layerIds then Failure(DuplicateIdentity(layer))
        else
          var legacy := kind.configuration.None? || kind.configuration.value.retention.Inherit?;
          var described := st.(
            kvLayers := st.kvLayers + [LayerOf(settings, n, layer)],
            explicitIds := Some(given.Some?),
            layerIds := st.layerIds + {layer},
            evictable := st.evictable && Retention(settings, kind).Some?,
            maximumWindow := if resolved.Some? && legacy then Larger(st.maximumWindow, resolved.value) else st.maximumWindow);
          Success(Rebuilt(settings, described, n, KvAttention(layer, resolved, settings.bidirectional, RoundingOf(kind))))
  }

  function KdaOf(n: Term): KdaGeometry
    requires n.op.kind.KdaChunk? && Typed(n) && |n.args[0].op.info.shape| == 4
  {
    var q, v := n.args[0].op.info, n.args[2].op.info;
    KdaGeometry(q.shape[1], q.shape[3], v.shape[3], q.dtype)
  }

  /** Dimensions agree, and on the CPU element types too. */
  predicate KdaAgrees(known: KdaGeometry, n: Term)
    requires n.op.kind.KdaChunk? && Typed(n) && |n.args[0].op.info.shape| == 4
  {
    var current := KdaOf(n);
    && known.heads == current.heads && known.headDim == current.headDim && known.valueDim == current.valueDim
    && (n.args[0].op.info.device.Cpu? ==> known.dtype == current.dtype)
  }

  function KdaStep(settings: Settings, st: Progress, n: Term): Result<Progress, DecodeError>
    requires n.op.kind.KdaChunk? && Typed(n)
  {
    var q := n.args[0].op.info;
    if |q.shape| != 4 || q.shape[0] != settings.graphRows then Failure(KdaShape)
    else if q.device.Cpu? && !q.dtype.F32? && !q.dtype.F64? then Failure(KdaType)
    else if st.kda.Some? && !KdaAgrees(st.kda.value, n) then Failure(KdaDisagrees)
    else
      var counted := st.(kda := if st.kda.Some? then st.kda else Some(KdaOf(n)), kdaLayers := st.kdaLayers + 1);
      Success(Rebuilt(settings, counted, n, KdaRecurrence(st.kdaLayers)))
  }

  function ConvOf(n: Term): ConvGeometry
    requires n.op.kind.ShortConv1d? && Typed(n) && |n.args[0].op.info.shape| == 3
  {
    ConvGeometry(n.args[0].op.info.shape[2], n.args[1].op.info.shape[1])
  }

  function ConvStep(settings: Settings, st: Progress, n: Term): Result<Progress, DecodeError>
    requires n.op.kind.ShortConv1d? && Typed(n)
  {
    var x := n.args[0].op.info;
    if |x.shape| != 3 || x.shape[0] != settings.graphRows then Failure(ConvShape)
    else if st.conv.Some? && st.conv.value != ConvOf(n) then Failure(ConvDisagrees)
    else
      var counted := st.(conv := Some(ConvOf(n)), convLayers := st.convLayers + 1);
      Success(Rebuilt(settings, counted, n, ConvState(st.convLayers)))
  }

  // ----- Cursor-indexed positions

  const ARANGE: nat := 0
  const BROADCAST: nat := 1
  const ADD: nat := 2
  const GATHER: nat := 3

  function Index(shape: seq<nat>, device: Device): Info {
    Info(shape, I64, device)
  }

  /** The leaf that stands for the runtime's state cursor. */
  function Cursor(settings: Settings, slot: nat, device: Device): Op {
    if settings.graphRows > 1 then Op(Input(slot, DENSE_STORAGE), Index([settings.graphRows], device))
    else Op(ScalarInput(slot), Index([], device))
  }

  /** One row: the token range shifted by a scalar cursor indexes the rows of the weight. */
  function ScalarPositions(n: Term, weight: Term, slot: nat, id: nat): Term
    requires n.op.kind.PositionEmbedding? && Typed(n)
  {
    var source := n.args[0].op.info;
    var tokens, width, device := n.op.kind.seqLen, source.shape[1], source.device;
    var range := Node(id, Op(Other(ARANGE), Index([tokens], device)), []);
    var cursor := Node(id + 1, Op(ScalarInput(slot), Index([], device)), []);
    var positions := Node(id + 2, Op(Other(ADD), Index([tokens], device)), [range, cursor]);
    var column := Node(id + 3, Op(Reshape, Index([tokens, 1], device)), [positions]);
    var indexes := Node(id + 4, Op(Other(BROADCAST), Index([tokens, width], device)), [column]);
    Node(id + 5, Op(Other(GATHER), Info([tokens, width], weight.op.info.dtype, device)), [weight, indexes])
  }

  /** Several rows: one cursor per row, added to the token range of each. */
  function RowPositions(settings: Settings, n: Term, slot: nat, id: nat): Term
    requires n.op.kind.PositionEmbedding? && Typed(n)
  {
    var rows, tokens, device := settings.graphRows, n.op.kind.seqLen, n.args[0].op.info.device;
    var cursors := Node(id, Op(Input(slot, DENSE_STORAGE), Index([rows], device)), []);
    var starts := Node(id + 1, Op(Reshape, Index([rows, 1], device)), [cursors]);
    var range := Node(id + 2, Op(Other(ARANGE), Index([tokens], device)), []);
    var line := Node(id + 3, Op(Reshape, Index([1, tokens], device)), [range]);
    var lines := Node(id + 4, Op(Other(BROADCAST), Index([rows, tokens], device)), [line]);
    Node(id + 5, Op(Other(ADD), Index([rows, tokens], device)), [starts, lines])
  }

  /** The positions of all rows index the rows of the weight. */
  function TensorPositions(settings: Settings, n: Term, weight: Term, slot: nat, id: nat): Term
    requires n.op.kind.PositionEmbedding? && Typed(n)
  {
    var source, rows := n.args[0].op.info, settings.graphRows;
    var tokens, width, device := n.op.kind.seqLen, source.shape[1], source.device;
    var column := Node(id + 6, Op(Reshape, Index([rows * tokens, 1], device)), [RowPositions(settings, n, slot, id)]);
    var indexes := Node(id + 7, Op(Other(BROADCAST), Index([rows * tokens, width], device)), [column]);
    var gathered := Node(id + 8, Op(Other(GATHER), Info([rows * tokens, width], weight.op.info.dtype, device)), [weight, indexes]);
    Node(id + 9, Op(Reshape, Info([rows, tokens, width], weight.op.info.dtype, device)), [gathered])
  }

  function Positions(settings: Settings, n: Term, weight: Term, slot: nat, id: nat): Term
    requires n.op.kind.PositionEmbedding? && Typed(n)
  {
    if settings.graphRows > 1 then TensorPositions(settings, n, weight, slot, id) else ScalarPositions(n, weight, slot, id)
  }

  /** How many nodes `Positions` makes. */
  function PositionNodes(settings: Settings): nat {
    if settings.graphRows > 1 then 10 else 6
  }

  function PositionStep(settings: Settings, st: Progress, n: Term, slot: nat): Progress
    requires n.op.kind.PositionEmbedding? && Typed(n)
  {
    var image := Positions(settings, n, Image(st.remapped, n.args[0]), slot, st.next);
    st.(remapped := st.remapped[n.id := image], next := st.next + PositionNodes(settings),
        cursorTensor := st.cursorTensor || settings.graphRows > 1)
  }

  /** The rewriting of one node. */
  function Step(settings: Settings, st: Progress, n: Term, slot: nat): Result<Progress, DecodeError>
    requires Typed(n)
  {
    match n.op.kind
    case Attention(_, _, _) => AttentionStep(settings, st, n)
    case KdaChunk => KdaStep(settings, st, n)
    case ShortConv1d => ConvStep(settings, st, n)
    case RotaryEmbedding(_) => Success(Rebuilt(settings, st, n, RotaryEmbedding(true)))
    case PositionEmbedding(_) => Success(PositionStep(settings, st, n, slot))
    case kind => Success(Rebuilt(settings, st, n, kind))
  }

  // ----- What has been rewritten

  datatype State = AttentionState | KdaState | ConvolutionState

  predicate Keeps(state: State, kind: Kind) {
    match state
    case AttentionState => kind.Attention?
    case KdaState => kind.KdaChunk?
    case ConvolutionState => kind.ShortConv1d?
  }

  /** How many of the first `n` nodes keep this kind of state. */
  ghost function Count(state: State, order: seq<Term>, n: nat): nat
    requires n <= |order|
  {
    if n == 0 then 0 else Count(state, order, n - 1) + if Keeps(state, order[n - 1].op.kind) then 1 else 0
  }

  /** The layer number an attention node gets: its own identity, or its turn in the order. */
  ghost predicate Numbers(kind: Kind, turn: nat, layer: nat)
    requires kind.Attention?
  {
    match ExplicitId(kind)
    case Some(id) => layer == id
    case None => layer == turn
  }

  /** `image` is the node under a new id with a new kind, over the images of its operands. */
  ghost predicate IsRebuilt(settings: Settings, remapped: map<nat, Term>, n: Term, image: Term, kind: Kind) {
    image.args == Images(remapped, n.args) && image.op == Op(kind, NewInfo(settings, n, image.args))
  }

  /** What the image of an attention node is; its descriptor stands at its turn. */
  ghost predicate AttentionRewritten(settings: Settings, st: Progress, n: Term, turn: nat, image: Term)
    requires n.op.kind.Attention? && Typed(n)
  {
    var kind := n.op.kind;
    && AttentionFits(settings, n) && turn < |st.kvLayers|
    && st.kvLayers[turn] == LayerOf(settings, n, st.kvLayers[turn].layerId)
    && Numbers(kind, turn, st.kvLayers[turn].layerId)
    && IsRebuilt(settings, st.remapped, n, image,
                 KvAttention(st.kvLayers[turn].layerId, kind.window.Resolve(settings.window), settings.bidirectional, RoundingOf(kind)))
  }

  ghost predicate KdaRewritten(settings: Settings, st: Progress, n: Term, turn: nat, image: Term)
    requires n.op.kind.KdaChunk? && Typed(n)
  {
    && KdaFits(settings, n)
    && st.kda.Some? && KdaAgrees(st.kda.value, n)
    && IsRebuilt(settings, st.remapped, n, image, KdaRecurrence(turn))
  }

  ghost predicate ConvRewritten(settings: Settings, st: Progress, n: Term, turn: nat, image: Term)
    requires n.op.kind.ShortConv1d? && Typed(n)
  {
    && ConvFits(settings, n)
    && st.conv == Some(ConvOf(n))
    && IsRebuilt(settings, st.remapped, n, image, ConvState(turn))
  }

  ghost predicate PositionsRewritten(settings: Settings, st: Progress, n: Term, slot: nat, image: Term)
    requires n.op.kind.PositionEmbedding? && Typed(n)
  {
    exists id: nat :: image == Positions(settings, n, Image(st.remapped, n.args[0]), slot, id)
  }

  /** What the image of the node at `j` is. */
  ghost predicate Rewritten(settings: Settings, st: Progress, order: seq<Term>, j: nat, slot: nat)
    requires j < |order| && Typed(order[j])
  {
    var n := order[j];
    && n.id in st.remapped
    && var image := st.remapped[n.id];
       match n.op.kind
       case Attention(_, _, _) => AttentionRewritten(settings, st, n, Count(AttentionState, order, j), image)
       case KdaChunk => KdaRewritten(settings, st, n, Count(KdaState, order, j), image)
       case ShortConv1d => ConvRewritten(settings, st, n, Count(ConvolutionState, order, j), image)
       case RotaryEmbedding(_) => IsRebuilt(settings, st.remapped, n, image, RotaryEmbedding(true))
       case PositionEmbedding(_) => PositionsRewritten(settings, st, n, slot, image)
       case kind => IsRebuilt(settings, st.remapped, n, image, kind)
  }

  /** A later state: one more node entered, descriptors appended, geometries once known kept. */
  ghost predicate Extends(st: Progress, later: Progress, id: nat) {
    && id !in st.remapped && later.remapped.Keys == st.remapped.Keys + {id}
    && (forall other :: other in st.remapped ==> later.remapped[other] == st.remapped[other])
    && st.kvLayers <= later.kvLayers
    && (st.kda.Some? ==> later.kda == st.kda) && (st.conv.Some? ==> later.conv == st.conv)
  }

  lemma EntersExtend(st: Progress, later: Progress, id: nat, image: Term)
    requires id !in st.remapped && later.remapped == st.remapped[id := image] && st.kvLayers <= later.kvLayers
    requires (st.kda.Some? ==> later.kda == st.kda) && (st.conv.Some? ==> later.conv == st.conv)
    ensures Extends(st, later, id)
  {
  }

  /** What a step does to the table, and to descriptors and geometries. */
  lemma StepEnters(settings: Settings, st: Progress, n: Term, slot: nat)
    requires Typed(n) && Step(settings, st, n, slot).Success?
    ensures var later := Step(settings, st, n, slot).value;
            && n.id in later.remapped && later.remapped == st.remapped[n.id := later.remapped[n.id]] && st.kvLayers <= later.kvLayers
            && (st.kda.Some? ==> later.kda == st.kda) && (st.conv.Some? ==> later.conv == st.conv)
  {
  }

  lemma StepExtends(settings: Settings, st: Progress, n: Term, slot: nat)
    requires Typed(n) && Step(settings, st, n, slot).Success? && n.id !in st.remapped
    ensures Extends(st, Step(settings, st, n, slot).value, n.id)
  {
    StepEnters(settings, st, n, slot);
    var later := Step(settings, st, n, slot).value;
    EntersExtend(st, later, n.id, later.remapped[n.id]);
  }

  /** Operands entered before keep their images. */
  lemma ImagesStay(st: Progress, later: Progress, id: nat, nodes: seq<Term>)
    requires Extends(st, later, id) && forall k :: 0 <= k < |nodes| ==> nodes[k].id in st.remapped
    ensures Images(later.remapped, nodes) == Images(st.remapped, nodes)
  {
    forall k | 0 <= k < |nodes|
      ensures Image(later.remapped, nodes[k]) == Image(st.remapped, nodes[k])
    {
    }
  }

  lemma RewrittenStays(settings: Settings, st: Progress, later: Progress, id: nat, order: seq<Term>, j: nat, slot: nat)
    requires j < |order| && Typed(order[j]) && Extends(st, later, id) && Rewritten(settings, st, order, j, slot)
    requires forall k :: 0 <= k < |order[j].args| ==> order[j].args[k].id in st.remapped
    ensures Rewritten(settings, later, order, j, slot)
  {
    var n := order[j];
    ImagesStay(st, later, id, n.args);
    if n.op.kind.PositionEmbedding? {
      assert Image(later.remapped, n.args[0]) == Image(st.remapped, n.args[0]);
    }
  }

  /** What the step enters is what the node has to become. */
  lemma StepRewrites(settings: Settings, st: Progress, order: seq<Term>, i: nat, slot: nat)
    requires i < |order| && Typed(order[i]) && Step(settings, st, order[i], slot).Success? && order[i].id !in st.remapped
    requires |st.kvLayers| == Count(AttentionState, order, i)
    requires st.kdaLayers == Count(KdaState, order, i) && st.convLayers == Count(ConvolutionState, order, i)
    requires forall k :: 0 <= k < |order[i].args| ==> order[i].args[k].id in st.remapped
    ensures Rewritten(settings, Step(settings, st, order[i], slot).value, order, i, slot)
  {
    var n, later := order[i], Step(settings, st, order[i], slot).value;
    StepExtends(settings, st, n, slot);
    ImagesStay(st, later, n.id, n.args);
    if n.op.kind.PositionEmbedding? {
      assert Image(later.remapped, n.args[0]) == Image(st.remapped, n.args[0]);
    }
  }

  // ----- When a graph can be specialized

  ghost predicate AttentionFits(settings: Settings, n: Term)
    requires n.op.kind.Attention? && Typed(n)
  {
    var k := n.args[1].op.info;
    (n.op.kind.causal || settings.bidirectional) && |k.shape| == 4 && k.shape[0] == settings.graphRows
  }

  ghost predicate KdaFits(settings: Settings, n: Term)
    requires n.op.kind.KdaChunk? && Typed(n)
  {
    var q := n.args[0].op.info;
    |q.shape| == 4 && q.shape[0] == settings.graphRows && (q.device.Cpu? ==> q.dtype.F32? || q.dtype.F64?)
  }

  ghost predicate ConvFits(settings: Settings, n: Term)
    requires n.op.kind.ShortConv1d? && Typed(n)
  {
    |n.args[0].op.info.shape| == 3 && n.args[0].op.info.shape[0] == settings.graphRows
  }

  ghost predicate AllTyped(order: seq<Term>) {
    forall j :: 0 <= j < |order| ==> Typed(order[j])
  }

  /** Attention layers: cacheable shapes, identities on all or none, and none twice. */
  ghost predicate AttentionsFit(settings: Settings, order: seq<Term>)
    requires AllTyped(order)
  {
    && (forall j :: 0 <= j < |order| && order[j].op.kind.Attention? ==> AttentionFits(settings, order[j]))
    && (forall i, j :: 0 <= i < j < |order| && order[i].op.kind.Attention? && order[j].op.kind.Attention? ==>
          && (ExplicitId(order[i].op.kind).Some? <==> ExplicitId(order[j].op.kind).Some?)
          && (ExplicitId(order[i].op.kind).Some? ==> ExplicitId(order[i].op.kind) != ExplicitId(order[j].op.kind)))
  }

  /** Recurrences: cacheable shapes, and all agree with the first. */
  ghost predicate KdasFit(settings: Settings, order: seq<Term>)
    requires AllTyped(order)
  {
    && (forall j :: 0 <= j < |order| && order[j].op.kind.KdaChunk? ==> KdaFits(settings, order[j]))
    && (forall i, j | 0 <= i < j < |order| && order[i].op.kind.KdaChunk? && order[j].op.kind.KdaChunk? ::
          Count(KdaState, order, i) == 0 ==> KdaAgrees(KdaOf(order[i]), order[j]))
  }

  ghost predicate ConvsFit(settings: Settings, order: seq<Term>)
    requires AllTyped(order)
  {
    && (forall j :: 0 <= j < |order| && order[j].op.kind.ShortConv1d? ==> ConvFits(settings, order[j]))
    && (forall i, j :: 0 <= i < j < |order| && order[i].op.kind.ShortConv1d? && order[j].op.kind.ShortConv1d? ==>
          ConvOf(order[i]) == ConvOf(order[j]))
  }

  /** Explicit identities stay below the number of layers, so together with distinctness they leave no gap. */
  ghost predicate NoGap(order: seq<Term>) {
    forall j :: 0 <= j < |order| && order[j].op.kind.Attention? && ExplicitId(order[j].op.kind).Some? ==>
      ExplicitId(order[j].op.kind).value < Count(AttentionState, order, |order|)
  }

  // ----- The state after some nodes

  /** The identities of the layers, each used once. */
  ghost predicate LayersListed(layers: seq<KvLayer>, ids: set<nat>) {
    && (forall layer :: layer in ids <==> exists a :: 0 <= a < |layers| && layers[a].layerId == layer)
    && (forall a, b :: 0 <= a < b < |layers| ==> layers[a].layerId != layers[b].layerId)
  }

  ghost predicate EntersFirst(order: seq<Term>, i: nat, st: Progress)
    requires i <= |order|
  {
    forall id :: id in st.remapped <==> exists j :: 0 <= j < i && order[j].id == id
  }

  ghost predicate Counted(order: seq<Term>, i: nat, st: Progress)
    requires i <= |order|
  {
    && |st.kvLayers| == Count(AttentionState, order, i)
    && st.kdaLayers == Count(KdaState, order, i) && st.convLayers == Count(ConvolutionState, order, i)
  }

  ghost predicate IsFirstKda(order: seq<Term>, j: nat, geometry: KdaGeometry)
    requires j < |order| && AllTyped(order)
  {
    && order[j].op.kind.KdaChunk? && |order[j].args[0].op.info.shape| == 4
    && Count(KdaState, order, j) == 0 && geometry == KdaOf(order[j])
  }

  ghost predicate HasConv(order: seq<Term>, j: nat, geometry: ConvGeometry)
    requires j < |order| && AllTyped(order)
  {
    order[j].op.kind.ShortConv1d? && |order[j].args[0].op.info.shape| == 3 && geometry == ConvOf(order[j])
  }

  /** What is known of the family of layers comes from nodes already seen. */
  ghost predicate Witnessed(order: seq<Term>, i: nat, st: Progress)
    requires i <= |order| && AllTyped(order)
  {
    && IdsWitnessed(order, i, st.explicitIds)
    && (st.kda.Some? ==> exists j :: 0 <= j < i && IsFirstKda(order, j, st.kda.value))
    && (st.conv.Some? ==> exists j :: 0 <= j < i && HasConv(order, j, st.conv.value))
  }

  ghost predicate IdsWitnessed(order: seq<Term>, i: nat, explicitIds: Option<bool>)
    requires i <= |order|
  {
    && (forall j :: 0 <= j < i && order[j].op.kind.Attention? ==> explicitIds == Some(ExplicitId(order[j].op.kind).Some?))
    && (explicitIds.Some? ==> exists j :: 0 <= j < i && order[j].op.kind.Attention?)
  }

  ghost predicate Progressing(settings: Settings, order: seq<Term>, i: nat, slot: nat, st: Progress)
    requires i <= |order| && AllTyped(order)
  {
    && EntersFirst(order, i, st) && Counted(order, i, st) && LayersListed(st.kvLayers, st.layerIds) && Witnessed(order, i, st)
    && (forall j :: 0 <= j < i ==> Rewritten(settings, st, order, j, slot))
  }

  lemma ArgsEntered(order: seq<Term>, i: nat, st: Progress, j: nat)
    requires Topological(order) && j <= i <= |order| && j < |order| && EntersFirst(order, i, st)
    ensures forall k :: 0 <= k < |order[j].args| ==> order[j].args[k].id in st.remapped
    ensures j == i ==> order[j].id !in st.remapped
  {
    assert ArgsBefore(order, j);
    forall k | 0 <= k < |order[j].args|
      ensures order[j].args[k].id in st.remapped
    {
      assert order[j].args[k] in order[..j];
      var m :| 0 <= m < j && order[m] == order[j].args[k];
    }
  }

  /** An attention node before `i` has its descriptor at its turn, under its own number. */
  lemma LayerAtTurn(settings: Settings, order: seq<Term>, i: nat, slot: nat, st: Progress, a: nat) returns (j: nat)
    requires i <= |order| && AllTyped(order) && a < Count(AttentionState, order, i)
    requires forall j :: 0 <= j < i ==> Rewritten(settings, st, order, j, slot)
    ensures j < i && order[j].op.kind.Attention? && Count(AttentionState, order, j) == a
    ensures a < |st.kvLayers| && Numbers(order[j].op.kind, a, st.kvLayers[a].layerId)
    ensures |order[j].args[1].op.info.shape| == 4 && st.kvLayers[a] == LayerOf(settings, order[j], st.kvLayers[a].layerId)
    decreases i
  {
    if a < Count(AttentionState, order, i - 1) {
      j := LayerAtTurn(settings, order, i - 1, slot, st, a);
    } else {
      j := i - 1;
      assert Rewritten(settings, st, order, j, slot);
    }
  }

  /** A refusal means the graph cannot be specialized. */
  lemma StepFails(settings: Settings, order: seq<Term>, i: nat, slot: nat, st: Progress)
    requires i < |order| && AllTyped(order) && Progressing(settings, order, i, slot, st)
    requires Step(settings, st, order[i], slot).Failure?
    ensures !AttentionsFit(settings, order) || !KdasFit(settings, order) || !ConvsFit(settings, order)
  {
    var n := order[i];
    if n.op.kind.Attention? {
      AttentionFails(settings, order, i, slot, st);
    }
  }

  lemma AttentionFails(settings: Settings, order: seq<Term>, i: nat, slot: nat, st: Progress)
    requires i < |order| && AllTyped(order) && Progressing(settings, order, i, slot, st)
    requires order[i].op.kind.Attention? && AttentionStep(settings, st, order[i]).Failure?
    ensures !AttentionsFit(settings, order)
  {
    var n, given := order[i], ExplicitId(order[i].op.kind);
    var layer := if given.Some? then given.value else |st.kvLayers|;
    if AttentionFits(settings, n) && (st.explicitIds.None? || st.explicitIds.value == given.Some?) && layer in st.layerIds {
      var a :| 0 <= a < |st.kvLayers| && st.kvLayers[a].layerId == layer;
      var j := LayerAtTurn(settings, order, i, slot, st, a);
      assert st.explicitIds == Some(ExplicitId(order[j].op.kind).Some?);
      assert given.Some? && ExplicitId(order[j].op.kind) == given;
    }
  }

  // ----- One step of the loop

  lemma StepKeepsEntered(settings: Settings, order: seq<Term>, i: nat, slot: nat, st: Progress)
    requires i < |order| && Typed(order[i]) && Step(settings, st, order[i], slot).Success?
    requires EntersFirst(order, i, st) && order[i].id !in st.remapped
    ensures EntersFirst(order, i + 1, Step(settings, st, order[i], slot).value)
  {
    var later := Step(settings, st, order[i], slot).value;
    StepExtends(settings, st, order[i], slot);
    forall id
      ensures id in later.remapped <==> exists j :: 0 <= j < i + 1 && order[j].id == id
    {
    }
  }

  lemma LayersAppend(layers: seq<KvLayer>, ids: set<nat>, layer: KvLayer)
    requires LayersListed(layers, ids) && layer.layerId !in ids
    ensures LayersListed(layers + [layer], ids + {layer.layerId})
  {
    var more := layers + [layer];
    forall id
      ensures id in ids + {layer.layerId} <==> exists a :: 0 <= a < |more| && more[a].layerId == id
    {
      if id in ids {
        var a :| 0 <= a < |layers| && layers[a].layerId == id;
        assert more[a].layerId == id;
      }
      assert more[|layers|].layerId == layer.layerId;
    }
    forall a | 0 <= a < |layers|
      ensures layers[a].layerId != layer.layerId
    {
      assert layers[a].layerId in ids;
    }
  }

  lemma StepKeepsLayers(settings: Settings, order: seq<Term>, i: nat, slot: nat, st: Progress)
    requires i < |order| && Typed(order[i]) && Step(settings, st, order[i], slot).Success?
    requires LayersListed(st.kvLayers, st.layerIds)
    ensures var later := Step(settings, st, order[i], slot).value; LayersListed(later.kvLayers, later.layerIds)
  {
    var n, later := order[i], Step(settings, st, order[i], slot).value;
    if n.op.kind.Attention? {
      var given := ExplicitId(n.op.kind);
      LayersAppend(st.kvLayers, st.layerIds, LayerOf(settings, n, if given.Some? then given.value else |st.kvLayers|));
    }
  }

  lemma StepCounts(settings: Settings, order: seq<Term>, i: nat, slot: nat, st: Progress)
    requires i < |order| && Typed(order[i]) && Step(settings, st, order[i], slot).Success? && Counted(order, i, st)
    ensures Counted(order, i + 1, Step(settings, st, order[i], slot).value)
  {
  }

  lemma IdsStayWitnessed(order: seq<Term>, i: nat, explicitIds: Option<bool>, later: Option<bool>)
    requires i < |order| && IdsWitnessed(order, i, explicitIds)
    requires !order[i].op.kind.Attention? ==> later == explicitIds
    requires order[i].op.kind.Attention? ==>
      later == Some(ExplicitId(order[i].op.kind).Some?) && (explicitIds.Some? ==> explicitIds == later)
    ensures IdsWitnessed(order, i + 1, later)
  {
    if order[i].op.kind.Attention? && explicitIds.None? {
      assert forall j :: 0 <= j < i ==> !order[j].op.kind.Attention?;
    }
  }

  lemma StepKeepsWitnesses(settings: Settings, order: seq<Term>, i: nat, slot: nat, st: Progress)
    requires i < |order| && AllTyped(order) && Step(settings, st, order[i], slot).Success?
    requires Witnessed(order, i, st)
    requires st.kda.None? ==> Count(KdaState, order, i) == 0
    ensures Witnessed(order, i + 1, Step(settings, st, order[i], slot).value)
  {
    var later := Step(settings, st, order[i], slot).value;
    StepIds(settings, order, i, slot, st);
    StepGeometries(settings, order, i, slot, st);
    IdsStayWitnessed(order, i, st.explicitIds, later.explicitIds);
    KdaStaysWitnessed(order, i, st.kda, later.kda);
    ConvStaysWitnessed(order, i, st.conv, later.conv);
  }

  lemma StepIds(settings: Settings, order: seq<Term>, i: nat, slot: nat, st: Progress)
    requires i < |order| && Typed(order[i]) && Step(settings, st, order[i], slot).Success?
    ensures var later := Step(settings, st, order[i], slot).value.explicitIds;
            if order[i].op.kind.Attention? then
              later == Some(ExplicitId(order[i].op.kind).Some?) && (st.explicitIds.Some? ==> st.explicitIds == later)
            else later == st.explicitIds
  {
  }

  lemma StepGeometries(settings: Settings, order: seq<Term>, i: nat, slot: nat, st: Progress)
    requires i < |order| && AllTyped(order) && Step(settings, st, order[i], slot).Success?
    requires st.kda.None? ==> Count(KdaState, order, i) == 0
    ensures var later := Step(settings, st, order[i], slot).value;
            && (later.kda == st.kda || (st.kda.None? && later.kda.Some? && IsFirstKda(order, i, later.kda.value)))
            && (later.conv == st.conv || (later.conv.Some? && HasConv(order, i, later.conv.value)))
  {
  }

  lemma KdaStaysWitnessed(order: seq<Term>, i: nat, kda: Option<KdaGeometry>, later: Option<KdaGeometry>)
    requires i < |order| && AllTyped(order) && (kda.Some? ==> exists j :: 0 <= j < i && IsFirstKda(order, j, kda.value))
    requires later == kda || (kda.None? && later.Some? && IsFirstKda(order, i, later.value))
    ensures later.Some? ==> exists j :: 0 <= j < i + 1 && IsFirstKda(order, j, later.value)
  {
    if kda.Some? {
      var j :| 0 <= j < i && IsFirstKda(order, j, kda.value);
      assert IsFirstKda(order, j, later.value);
    }
  }

  lemma ConvStaysWitnessed(order: seq<Term>, i: nat, conv: Option<ConvGeometry>, later: Option<ConvGeometry>)
    requires i < |order| && AllTyped(order) && (conv.Some? ==> exists j :: 0 <= j < i && HasConv(order, j, conv.value))
    requires later == conv || (later.Some? && HasConv(order, i, later.value))
    ensures later.Some? ==> exists j :: 0 <= j < i + 1 && HasConv(order, j, later.value)
  {
    if later == conv && conv.Some? {
      var j :| 0 <= j < i && HasConv(order, j, conv.value);
      assert HasConv(order, j, later.value);
    }
  }

  /** Once a recurrence has been seen its geometry is known. */
  lemma {:induction false} NoneMeansNoKda(settings: Settings, order: seq<Term>, i: nat, slot: nat, st: Progress, n: nat)
    requires n <= i <= |order| && AllTyped(order) && st.kda.None?
    requires forall j :: 0 <= j < i ==> Rewritten(settings, st, order, j, slot)
    ensures Count(KdaState, order, n) == 0
  {
    if n > 0 {
      NoneMeansNoKda(settings, order, i, slot, st, n - 1);
      assert Rewritten(settings, st, order, n - 1, slot);
    }
  }

  lemma StepKeeps(settings: Settings, order: seq<Term>, i: nat, slot: nat, st: Progress)
    requires i < |order| && Topological(order) && AllTyped(order) && Progressing(settings, order, i, slot, st)
    requires Step(settings, st, order[i], slot).Success?
    ensures Progressing(settings, order, i + 1, slot, Step(settings, st, order[i], slot).value)
  {
    var later := Step(settings, st, order[i], slot).value;
    ArgsEntered(order, i, st, i);
    StepExtends(settings, st, order[i], slot);
    StepKeepsEntered(settings, order, i, slot, st);
    StepKeepsLayers(settings, order, i, slot, st);
    StepCounts(settings, order, i, slot, st);
    if st.kda.None? {
      NoneMeansNoKda(settings, order, i, slot, st, i);
    }
    StepKeepsWitnesses(settings, order, i, slot, st);
    StepRewrites(settings, st, order, i, slot);
    forall j | 0 <= j < i + 1
      ensures Rewritten(settings, later, order, j, slot)
    {
      if j < i {
        ArgsEntered(order, i, st, j);
        RewrittenStays(settings, st, later, order[i].id, order, j, slot);
      }
    }
  }

  // ----- Windows

  /** Layers whose retention follows the legacy window. */
  predicate Legacy(kind: Kind)
    requires kind.Attention?
  {
    kind.configuration.None? || kind.configuration.value.retention.Inherit?
  }

  /** Whether every layer may evict, and the widest window a legacy layer needs. */
  ghost predicate WindowsTracked(settings: Settings, order: seq<Term>, i: nat, evictable: bool, maximum: Option<nat>)
    requires i <= |order|
  {
    && (evictable <==> forall j :: 0 <= j < i && order[j].op.kind.Attention? ==> Retention(settings, order[j].op.kind).Some?)
    && (forall j :: 0 <= j < i && NeedsWindow(settings, order[j].op.kind) ==>
          maximum.Some? && order[j].op.kind.window.Resolve(settings.window).value <= maximum.value)
    && (maximum.Some? ==> exists j :: 0 <= j < i && NeedsWindow(settings, order[j].op.kind)
                                      && order[j].op.kind.window.Resolve(settings.window) == maximum)
  }

  predicate NeedsWindow(settings: Settings, kind: Kind) {
    kind.Attention? && Legacy(kind) && kind.window.Resolve(settings.window).Some?
  }

  /** When all layers evict under a global window, it retains what every legacy layer needs. */
  ghost predicate WindowFits(settings: Settings, order: seq<Term>) {
    (forall j :: 0 <= j < |order| && order[j].op.kind.Attention? ==> Retention(settings, order[j].op.kind).Some?)
    && settings.window.Some? ==>
      forall j :: 0 <= j < |order| && NeedsWindow(settings, order[j].op.kind) ==>
        order[j].op.kind.window.Resolve(settings.window).value <= settings.window.value
  }

  lemma StepTracksWindows(settings: Settings, order: seq<Term>, i: nat, slot: nat, st: Progress)
    requires i < |order| && Typed(order[i]) && Step(settings, st, order[i], slot).Success?
    requires WindowsTracked(settings, order, i, st.evictable, st.maximumWindow)
    ensures var later := Step(settings, st, order[i], slot).value;
            WindowsTracked(settings, order, i + 1, later.evictable, later.maximumWindow)
  {
    var later := Step(settings, st, order[i], slot).value;
    StepMovesWindows(settings, st, order[i], slot);
    WindowsGrow(settings, order, i, st.evictable, st.maximumWindow, later.evictable, later.maximumWindow);
  }

  lemma StepMovesWindows(settings: Settings, st: Progress, n: Term, slot: nat)
    requires Typed(n) && Step(settings, st, n, slot).Success?
    ensures var later := Step(settings, st, n, slot).value;
            && later.evictable == (st.evictable && (n.op.kind.Attention? ==> Retention(settings, n.op.kind).Some?))
            && later.maximumWindow == if NeedsWindow(settings, n.op.kind)
                                      then Larger(st.maximumWindow, n.op.kind.window.Resolve(settings.window).value)
                                      else st.maximumWindow
  {
  }

  lemma WindowsGrow(settings: Settings, order: seq<Term>, i: nat, evictable: bool, maximum: Option<nat>,
                    laterEvictable: bool, laterMaximum: Option<nat>)
    requires i < |order| && WindowsTracked(settings, order, i, evictable, maximum)
    requires laterEvictable == (evictable && (order[i].op.kind.Attention? ==> Retention(settings, order[i].op.kind).Some?))
    requires laterMaximum == if NeedsWindow(settings, order[i].op.kind)
                             then Larger(maximum, order[i].op.kind.window.Resolve(settings.window).value) else maximum
    ensures WindowsTracked(settings, order, i + 1, laterEvictable, laterMaximum)
  {
    if laterMaximum == maximum && maximum.Some? {
      var j :| 0 <= j < i && NeedsWindow(settings, order[j].op.kind)
               && order[j].op.kind.window.Resolve(settings.window) == maximum;
    }
  }

  // ----- The rewriting loop

  lemma {:induction false} CountGrows(state: State, order: seq<Term>, i: nat, j: nat)
    requires i < j <= |order| && Keeps(state, order[i].op.kind)
    ensures Count(state, order, i) < Count(state, order, j)
    decreases j
  {
    if j - 1 > i {
      CountGrows(state, order, i, j - 1);
    }
  }

  /** A completed rewriting shows that the graph could be specialized. */
  lemma RewritingFits(settings: Settings, order: seq<Term>, slot: nat, st: Progress)
    requires AllTyped(order) && Progressing(settings, order, |order|, slot, st)
    ensures AttentionsFit(settings, order) && KdasFit(settings, order) && ConvsFit(settings, order)
  {
    forall j | 0 <= j < |order|
      ensures order[j].op.kind.Attention? ==> AttentionFits(settings, order[j])
      ensures order[j].op.kind.KdaChunk? ==> KdaFits(settings, order[j]) && st.kda.Some? && KdaAgrees(st.kda.value, order[j])
      ensures order[j].op.kind.ShortConv1d? ==> ConvFits(settings, order[j]) && st.conv == Some(ConvOf(order[j]))
    {
      assert Rewritten(settings, st, order, j, slot);
    }
    forall i, j | 0 <= i < j < |order| && order[i].op.kind.KdaChunk? && order[j].op.kind.KdaChunk?
      ensures Count(KdaState, order, i) == 0 ==> KdaAgrees(KdaOf(order[i]), order[j])
    {
      if Count(KdaState, order, i) == 0 {
        assert Rewritten(settings, st, order, i, slot);
        var f :| 0 <= f < |order| && IsFirstKda(order, f, st.kda.value);
        if f < i {
          CountGrows(KdaState, order, f, i);
        } else if i < f {
          CountGrows(KdaState, order, i, f);
        }
      }
    }
    forall i, j | 0 <= i < j < |order| && order[i].op.kind.Attention? && order[j].op.kind.Attention?
      ensures ExplicitId(order[i].op.kind).Some? ==> ExplicitId(order[i].op.kind) != ExplicitId(order[j].op.kind)
    {
      LayersDiffer(settings, order, slot, st, i, j);
    }
  }

  /** Two attention layers never share a number. */
  lemma LayersDiffer(settings: Settings, order: seq<Term>, slot: nat, st: Progress, i: nat, j: nat)
    requires AllTyped(order) && Progressing(settings, order, |order|, slot, st) && i < j < |order|
    requires order[i].op.kind.Attention? && order[j].op.kind.Attention?
    ensures var (a, b) := (Count(AttentionState, order, i), Count(AttentionState, order, j));
            && a < b < |st.kvLayers| && st.kvLayers[a].layerId != st.kvLayers[b].layerId
            && Numbers(order[i].op.kind, a, st.kvLayers[a].layerId) && Numbers(order[j].op.kind, b, st.kvLayers[b].layerId)
  {
    assert Rewritten(settings, st, order, i, slot) && Rewritten(settings, st, order, j, slot);
    CountGrows(AttentionState, order, i, j);
  }
}
