/** Semantic graph nodes: operations with the metadata their construction records, and the slots leaves declare. */
module SemanticGraph {
  import opened DTypes
  import opened NodeInfo
  import opened Dag
  import opened Wrappers

  /** What configured attention adds to plain attention. */
  datatype Configuration = Configuration(layerId: Option<nat>, retention: AttentionWindow, rounding: Rounding)

  datatype Kind =
    | Input(slot: nat, storage: nat)
    | ScalarInput(slot: nat)
    | Attention(causal: bool, window: AttentionWindow, configuration: Option<Configuration>)
    | KvAttention(layer: nat, resolved: Option<nat>, bidirectional: bool, rounding: Rounding)
    | KdaChunk
    | KdaRecurrence(layer: nat)
    | ShortConv1d
    | ConvState(layer: nat)
    | RotaryEmbedding(cursorRelative: bool)
    | PositionEmbedding(seqLen: nat)
    | Linear(quantized: bool)
    | Tanh
    | Mul
    | Div
    | Reshape
    | Slice(ranges: seq<(nat, nat, nat)>)
    | Concat(dim: nat)
    | LastTokenRow
    | Other(tag: nat)

  datatype Op = Op(kind: Kind, info: Info)

  type Term = Node<Op>

  /** Operand counts: attention q, k, v; recurrences q, k, v, decay, beta; convolutions x, weight. */
  predicate FitsArity(kind: Kind, count: nat) {
    match kind
    case Input(_, _) => count == 0
    case ScalarInput(_) => count == 0
    case Attention(_, _, _) => count == 3
    case KvAttention(_, _, _, _) => count == 3
    case KdaChunk => count == 5
    case KdaRecurrence(_) => count == 5
    case ShortConv1d => count == 2
    case ConvState(_) => count == 2
    case RotaryEmbedding(_) => count == 1
    case PositionEmbedding(_) => count == 1
    case Linear(_) => 2 <= count <= 3
    case Tanh => count == 1
    case Mul => count == 2
    case Div => count == 2
    case Reshape => count == 1
    case Slice(_) => count == 1
    case Concat(_) => count == 2
    case LastTokenRow => count == 1
    case Other(_) => true
  }

  // ----- Slots

  datatype Slot = Slot(scalar: bool, shape: seq<nat>, dtype: DType, storage: nat, device: Device)

  /** Storage of a scalar slot. */
  const DENSE_STORAGE: nat := 0

  /** The slot a leaf declares, with its signature. */
  function Declared(op: Op): Option<(nat, Slot)> {
    match op.kind
    case Input(slot, storage) => Some((slot, Slot(false, op.info.shape, op.info.dtype, storage, op.info.device)))
    case ScalarInput(slot) => Some((slot, Slot(true, [], op.info.dtype, DENSE_STORAGE, op.info.device)))
    case _ => None
  }
}
