/** The operations of an output head work on each row by itself, element by element over broadcast operands. */
module HeadOperations {
  import opened Wrappers
  import opened Strides
  import opened Tensors
  import opened SemanticGraph
  import opened OutputRows

  /** One column of a linear map from an input row, the hyperbolic tangent, and arithmetic of two elements. */
  datatype Operations = Operations(
    linear: (seq<real>, seq<Tensor>, nat) -> real, tanh: real -> real, mul: (real, real) -> real, div: (real, real) -> real)

  /** The row at some leading coordinates. */
  ghost function RowAt(t: Tensor, front: seq<nat>): seq<real> {
    var width := if t.shape == [] then 0 else t.shape[|t.shape| - 1];
    seq(width, j requires 0 <= j < width => At(t, front + [j]))
  }

  ghost function BroadcastAt(t: Tensor, shape: Shape, c: seq<nat>): real {
    if |t.shape| <= |shape| == |c| then At(t, LaneCoordinates(t.shape, shape, c)) else 0.0
  }

  /** The element of an operation's value at `front + [j]`. */
  ghost function HeadElement(ops: Operations, kind: Kind, args: seq<Tensor>, shape: Shape, front: seq<nat>, j: nat): real {
    var c := front + [j];
    match kind
    case Linear(_) => if |args| >= 2 then ops.linear(RowAt(args[0], front), args[1..], j) else 0.0
    case Tanh => if |args| == 1 then ops.tanh(At(args[0], c)) else 0.0
    case Mul => if |args| == 2 then ops.mul(BroadcastAt(args[0], shape, c), BroadcastAt(args[1], shape, c)) else 0.0
    case Div => if |args| == 2 then ops.div(BroadcastAt(args[0], shape, c), BroadcastAt(args[1], shape, c)) else 0.0
    case _ => 0.0
  }

  /** Values for the operands, of their shapes except for the sequence operand, which may have other rows of its width. */
  ghost predicate Operands(n: Term, p: nat, args: seq<Tensor>) {
    |args| == |n.args| && p < |args| && forall k :: 0 <= k < |args| && k != p ==> args[k].shape == n.args[k].op.info.shape
  }

  /** The shape of the value: a linear map replaces the width, the others have the shape of the sequence operand. */
  ghost predicate HasShape(kind: Kind, sequence: Shape, shape: Shape) {
    && |sequence| == |shape| > 0
    && if kind.Linear? then sequence[..|sequence| - 1] == shape[..|shape| - 1] else sequence == shape
  }

  lemma SequenceElement(t: Tensor, front: seq<nat>, j: nat)
    requires t.shape != [] && InShape(t.shape, front + [j])
    ensures BroadcastAt(t, t.shape, front + [j]) == RowAt(t, front)[j] == At(t, front + [j])
  {
    var c := front + [j];
    assert c[|c| - 1] == j;
    assert LaneCoordinates(t.shape, t.shape, c) == c;
  }

  lemma ScalarElement(t: Tensor, shape: Shape, c: seq<nat>)
    requires t.shape == [] && |c| == |shape|
    ensures BroadcastAt(t, shape, c) == At(t, [])
  {
    assert LaneCoordinates(t.shape, shape, c) == [];
  }

  /**
   * Where a head operation has a sequence operand, an element depends only on the row of that operand it stands in and
   * on the other operands, whatever other rows there are.
   */
  lemma HeadsAreRowWise(ops: Operations, n: Term, args: seq<Tensor>, more: seq<Tensor>, shape: Shape, other: Shape,
                        front: seq<nat>, place: seq<nat>, j: nat)
    requires SequenceOperand(n).Some?
    requires var p := SequenceOperand(n).value;
             && Operands(n, p, args) && Operands(n, p, more) && (forall k :: 0 <= k < |args| && k != p ==> args[k] == more[k])
             && HasShape(n.op.kind, args[p].shape, shape) && HasShape(n.op.kind, more[p].shape, other)
             && RowAt(args[p], front) == RowAt(more[p], place)
    requires InShape(shape, front + [j]) && InShape(other, place + [j])
    ensures HeadElement(ops, n.op.kind, args, shape, front, j) == HeadElement(ops, n.op.kind, more, other, place, j)
  {
    var p := SequenceOperand(n).value;
    if n.op.kind.Linear? {
      assert args[1..] == more[1..];
    } else {
      SequenceElement(args[p], front, j);
      SequenceElement(more[p], place, j);
      if !n.op.kind.Tanh? {
        ScalarElement(args[1 - p], shape, front + [j]);
        ScalarElement(more[1 - p], other, place + [j]);
      }
    }
  }
}
