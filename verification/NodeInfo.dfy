/** Metadata that nodes and operations carry. */
module NodeInfo {
  import opened DTypes
  import opened Wrappers

  datatype Device = Cpu(index: nat) | Metal(index: nat) | Cuda(index: nat)

  /** Shape, element type and device of a node's value. */
  datatype Info = Info(shape: seq<nat>, dtype: DType, device: Device)

  datatype AttentionWindow = Inherit | Full | Local(size: nat) {
    /** The local window, or none for full attention; `Inherit` takes the enclosing one. */
    function Resolve(inherited: Option<nat>): Option<nat> {
      match this
      case Inherit => inherited
      case Full => None
      case Local(size) => Some(size)
    }
  }

  datatype Rounding = Fused | Stepwise
}
