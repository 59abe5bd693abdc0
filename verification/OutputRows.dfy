/**
 * Row selection for decode roots. A value is the list of its rows along the last axis; an operation that works row by
 * row lets the selection move below it, so that only the selected row passes through the head.
 */
module OutputRows {
  import opened DTypes
  import opened Wrappers
  import opened Dag
  import opened NodeInfo
  import opened SemanticGraph
  import opened Sequences

  // ----- Meaning

  /**
   * A run: what a row-wise operation makes of a row of its sequence operand (given its side and its other operands),
   * what all other nodes hold, how many tokens each lane advances by if it has a sequence, and the row of zeros.
   */
  datatype World<!Row> = World(
    apply: (Kind, bool, seq<seq<Row>>, Row) -> Row, leaf: Term -> seq<Row>, advances: seq<Option<nat>>, zero: Row)

  /** The operand whose rows a row-wise operation maps one by one. */
  function SequenceOperand(n: Term): Option<nat> {
    match n.op.kind
    case Linear(_) => if |n.args| >= 2 then Some(0) else None
    case Tanh => if |n.args| == 1 then Some(0) else None
    case Mul => ScalarSide(n)
    case Div => ScalarSide(n)
    case _ => None
  }

  /** With one scalar operand, the other is the sequence; the left one is asked first. */
  function ScalarSide(n: Term): Option<nat> {
    if |n.args| != 2 then None
    else if n.args[0].op.info.shape == [] then Some(1)
    else if n.args[1].op.info.shape == [] then Some(0)
    else None
  }

  /** The lane a selector reads its row index from: the start of the slice it selects from, or the first lane. */
  function Lane(source: Term): nat {
    if source.op.kind.Slice? && source.op.kind.ranges != [] then source.op.kind.ranges[0].0 else 0
  }

  predicate IsLaneSlice(n: Term) {
    && n.op.kind.Slice? && |n.args| == 1 && |n.args[0].op.info.shape| == 3 && |n.op.kind.ranges| == 3
    && var (shape, r) := (n.args[0].op.info.shape, n.op.kind.ranges);
       r[0].0 < shape[0] && r == [(r[0].0, r[0].0 + 1, 1), (0, shape[1], 1), (0, shape[2], 1)]
  }

  function Last(shape: seq<nat>): Option<nat> {
    if shape == [] then None else Some(shape[|shape| - 1])
  }

  /** The rows of a node's value. */
  function Rows<Row(!new)>(world: World<Row>, n: Term): seq<Row>
    decreases n
  {
    if SequenceOperand(n).Some? then
      var p := SequenceOperand(n).value;
      Mapped(world, n.op.kind, p == 0, Others(world, n, p), Rows(world, n.args[p]))
    else if n.op.kind.Reshape? && |n.args| == 1 && Last(n.args[0].op.info.shape) == Last(n.op.info.shape) then
      Rows(world, n.args[0])
    else if n.op.kind == Concat(0) && |n.args| == 2 then
      Rows(world, n.args[0]) + Rows(world, n.args[1])
    else if IsLaneSlice(n) then
      var (rows, tokens) := (Rows(world, n.args[0]), n.args[0].op.info.shape[1]);
      Lanes(rows, tokens, n.op.kind.ranges[0].0)
    else if n.op.kind.LastTokenRow? && |n.args| == 1 then
      Picked(world, Rows(world, n.args[0]), Lane(n.args[0]))
    else world.leaf(n)
  }

  function Mapped<Row>(world: World<Row>, kind: Kind, left: bool, rest: seq<seq<Row>>, rows: seq<Row>): seq<Row> {
    seq(|rows|, i requires 0 <= i < |rows| => world.apply(kind, left, rest, rows[i]))
  }

  /** The values of the other operands. */
  function Others<Row(!new)>(world: World<Row>, n: Term, p: nat): seq<seq<Row>>
    requires p < |n.args|
    decreases n, 0
  {
    seq(|n.args|, k requires 0 <= k < |n.args| => if k == p then [] else Rows(world, n.args[k]))
  }

  /** The `tokens` rows of one lane. */
  function Lanes<Row>(rows: seq<Row>, tokens: nat, lane: nat): seq<Row> {
    var first := lane * tokens;
    if first + tokens <= |rows| then rows[first..first + tokens] else []
  }

  /** The lane has a sequence, or does not exist. */
  predicate Active<Row>(world: World<Row>, lane: nat) {
    lane < |world.advances| ==> world.advances[lane].Some?
  }

  /**
   * The last row the lane advanced to, or a row of zeros for a lane without a sequence. No row stands for the run's
   * error when there is no such lane or no such row.
   */
  function Picked<Row>(world: World<Row>, rows: seq<Row>, lane: nat): seq<Row> {
    if lane >= |world.advances| then []
    else
      match world.advances[lane]
      case None => [world.zero]
      case Some(advance) => if 0 < advance <= |rows| then [rows[advance - 1]] else []
  }

  // ----- Selecting below the head

  function Width(n: Term): nat {
    if n.op.info.shape == [] then 0 else n.op.info.shape[|n.op.info.shape| - 1]
  }

  /** The same element type and device under another shape. */
  function Shaped(n: Term, shape: seq<nat>): Info {
    Info(shape, n.op.info.dtype, n.op.info.device)
  }

  function HasOneLane(x: Term): bool {
    |x.op.info.shape| == 3 && x.op.info.shape[0] == 1
  }

  /**
   * Rebuilds a head over one selected row: a projection under pointwise operations with at most a scalar beside the
   * sequence. New nodes take ids from `id`; the next free id is returned too.
   */
  function Descend(n: Term, id: nat): (r: Option<(Term, nat)>)
    ensures r.Some? ==> r.value.0.op.info.shape == [1, Width(r.value.0)]
    decreases n
  {
    match n.op.kind
    case Linear(_) =>
      if |n.args| < 2 || !HasOneLane(n.args[0]) then None
      else
        var x := n.args[0];
        var columns := x.op.info.shape[2];
        var selected := Node(id, Op(LastTokenRow, Shaped(x, [columns])), [x]);
        var row := Node(id + 1, Op(Reshape, Shaped(x, [1, columns])), [selected]);
        Some((Node(id + 2, Op(n.op.kind, Shaped(n, [1, Width(n)])), n.args[0 := row]), id + 3))
    case Tanh => if |n.args| != 1 then None else DescendInto(n, 0, id)
    case Mul => if ScalarSide(n).None? then None else DescendInto(n, ScalarSide(n).value, id)
    case Div => if ScalarSide(n).None? then None else DescendInto(n, ScalarSide(n).value, id)
    case _ => None
  }

  function DescendInto(n: Term, p: nat, id: nat): (r: Option<(Term, nat)>)
    requires p < |n.args|
    ensures r.Some? ==> r.value.0.op.info.shape == [1, Width(r.value.0)]
    decreases n, 0
  {
    match Descend(n.args[p], id)
    case None => None
    case Some((inner, next)) =>
      Some((Node(next, Op(n.op.kind, Shaped(n, inner.op.info.shape)), n.args[p := inner]), next + 1))
  }

  /** What the head of a root projects, if the root is such a head. */
  function HeadInput(n: Term): Option<Term>
    decreases n
  {
    match n.op.kind
    case Linear(_) => if |n.args| < 2 || !HasOneLane(n.args[0]) then None else Some(n.args[0])
    case Tanh => if |n.args| != 1 then None else HeadInput(n.args[0])
    case Mul => if ScalarSide(n).None? then None else HeadInput(n.args[ScalarSide(n).value])
    case Div => if ScalarSide(n).None? then None else HeadInput(n.args[ScalarSide(n).value])
    case _ => None
  }

  lemma OthersStay<Row(!new)>(world: World<Row>, n: Term, p: nat, inner: Term, picked: Term)
    requires p < |n.args| && picked.args == n.args[p := inner]
    ensures Others(world, picked, p) == Others(world, n, p)
  {
    forall k | 0 <= k < |n.args|
      ensures Others(world, picked, p)[k] == Others(world, n, p)[k]
    {
    }
  }

  lemma MappedPicks<Row>(world: World<Row>, kind: Kind, left: bool, rest: seq<seq<Row>>, rows: seq<Row>, lane: nat)
    requires Active(world, lane)
    ensures Mapped(world, kind, left, rest, Picked(world, rows, lane)) == Picked(world, Mapped(world, kind, left, rest, rows), lane)
  {
  }

  /** Replacing the sequence operand of a row-wise node by one of its rows selects that row of the result. */
  lemma RowwisePicks<Row(!new)>(world: World<Row>, n: Term, p: nat, inner: Term, picked: Term, lane: nat)
    requires SequenceOperand(n) == Some(p) && p < |n.args| && SequenceOperand(picked) == Some(p)
    requires picked.op.kind == n.op.kind && picked.args == n.args[p := inner]
    ensures |Rows(world, n)| == |Rows(world, n.args[p])|
    ensures Active(world, lane) && Rows(world, inner) == Picked(world, Rows(world, n.args[p]), lane) ==>
              Rows(world, picked) == Picked(world, Rows(world, n), lane)
  {
    OthersStay(world, n, p, inner, picked);
    if Active(world, lane) {
      MappedPicks(world, n.op.kind, p == 0, Others(world, n, p), Rows(world, n.args[p]), lane);
    }
  }

  /** Selecting below the head selects from the head. */
  lemma {:induction false} DescendSelects<Row(!new)>(world: World<Row>, n: Term, id: nat)
    ensures Descend(n, id).Some? <==> HeadInput(n).Some?
    ensures Descend(n, id).Some? ==>
      var x := HeadInput(n).value;
      && |Rows(world, n)| == |Rows(world, x)|
      && (Active(world, Lane(x)) ==> Rows(world, Descend(n, id).value.0) == Picked(world, Rows(world, n), Lane(x)))
    decreases n
  {
    match n.op.kind
    case Linear(_) =>
      if HeadInput(n).Some? {
        var x, result := n.args[0], Descend(n, id).value.0;
        var row := result.args[0];
        assert Rows(world, row.args[0]) == Picked(world, Rows(world, x), Lane(x));
        assert Rows(world, row) == Rows(world, row.args[0]);
        RowwisePicks(world, n, 0, row, result, Lane(x));
      }
    case Tanh =>
      if |n.args| == 1 {
        IntoSelects(world, n, 0, id);
      }
    case Mul =>
      if ScalarSide(n).Some? {
        IntoSelects(world, n, ScalarSide(n).value, id);
      }
    case Div =>
      if ScalarSide(n).Some? {
        IntoSelects(world, n, ScalarSide(n).value, id);
      }
    case _ =>
  }

  lemma IntoSelects<Row(!new)>(world: World<Row>, n: Term, p: nat, id: nat)
    requires SequenceOperand(n) == Some(p) && p < |n.args| && !n.op.kind.Linear?
    ensures DescendInto(n, p, id).Some? <==> HeadInput(n.args[p]).Some?
    ensures DescendInto(n, p, id).Some? ==>
      var x := HeadInput(n.args[p]).value;
      && |Rows(world, n)| == |Rows(world, x)|
      && (Active(world, Lane(x)) ==> Rows(world, DescendInto(n, p, id).value.0) == Picked(world, Rows(world, n), Lane(x)))
    decreases n, 0
  {
    DescendSelects(world, n.args[p], id);
    if HeadInput(n.args[p]).Some? {
      var inner, result := Descend(n.args[p], id).value.0, DescendInto(n, p, id).value.0;
      assert inner.op.info.shape != [];
      RowwisePicks(world, n, p, inner, result, Lane(HeadInput(n.args[p]).value));
    }
  }

  // ----- One selected row for each lane

  /** Selects from the root itself; with several lanes, from the lane's slice of it. */
  function Selector(root: Term, lane: nat, id: nat): Term
    requires |root.op.info.shape| == 3
  {
    var batch, tokens, width := root.op.info.shape[0], root.op.info.shape[1], root.op.info.shape[2];
    if batch == 1 then Node(id, Op(LastTokenRow, Shaped(root, [width])), [root])
    else
      var ranges := [(lane, lane + 1, 1), (0, tokens, 1), (0, width, 1)];
      var slice := Node(id, Op(Slice(ranges), Shaped(root, [1, tokens, width])), [root]);
      Node(id + 1, Op(LastTokenRow, Shaped(root, [width])), [slice])
  }

  /** The first id for the nodes of a lane. */
  function LaneId(root: Term, lane: nat, id: nat): nat
    requires |root.op.info.shape| == 3
  {
    if root.op.info.shape[0] == 1 then id + lane else id + 2 * lane
  }

  function Selectors(root: Term, id: nat): seq<Term>
    requires |root.op.info.shape| == 3
  {
    seq(root.op.info.shape[0], lane requires 0 <= lane < root.op.info.shape[0] => Selector(root, lane, LaneId(root, lane, id)))
  }

  /** The first `count` rows under each other. */
  function Stacked(rows: seq<Term>, count: nat, width: nat, id: nat): Term
    requires 1 <= count <= |rows|
  {
    var row := rows[count - 1];
    if count == 1 then Node(id, Op(Reshape, Shaped(row, [1, width])), [row])
    else
      var line := Node(id + 2 * count - 3, Op(Reshape, Shaped(row, [1, width])), [row]);
      Node(id + 2 * count - 2, Op(Concat(0), Shaped(row, [count, width])), [Stacked(rows, count - 1, width, id), line])
  }

  /** The root with the selection moved below its head. */
  function Pushed(root: Term, split: bool, id: nat): Option<(Term, nat)> {
    match Descend(root, id)
    case None => None
    case Some((pushed, next)) =>
      var width := Width(pushed);
      Some((Node(next, Op(Reshape, Shaped(pushed, if split then [width] else [1, width])), [pushed]), next + 1))
  }

  function Selected(root: Term, split: bool, id: nat): seq<Term>
    requires |root.op.info.shape| == 3 && root.op.info.shape[0] > 0
  {
    var batch := root.op.info.shape[0];
    if batch == 1 && Pushed(root, split, id).Some? then [Pushed(root, split, id).value.0]
    else if split then Selectors(root, id)
    else [Stacked(Selectors(root, id), batch, root.op.info.shape[2], LaneId(root, batch, id))]
  }

  method SelectRows(root: Term, split: bool, id: nat) returns (outputs: seq<Term>, next: nat)
    requires |root.op.info.shape| == 3 && root.op.info.shape[0] > 0
    ensures outputs == Selected(root, split, id)
  {
    var batch := root.op.info.shape[0];
    if batch == 1 {
      var pushed := Pushed(root, split, id);
      if pushed.Some? {
        return [pushed.value.0], pushed.value.1;
      }
    }
    var rows: seq<Term> := [];
    next := id;
    for lane := 0 to batch
      invariant |rows| == lane && next == LaneId(root, lane, id)
      invariant forall k :: 0 <= k < lane ==> rows[k] == Selectors(root, id)[k]
    {
      rows := rows + [Selector(root, lane, next)];
      next := LaneId(root, lane + 1, id);
    }
    assert rows == Selectors(root, id);
    if split {
      return rows, next;
    }
    var first, width := next, root.op.info.shape[2];
    var batched := Stacked(rows, 1, width, first);
    next := first + 1;
    for k := 1 to batch
      invariant batched == Stacked(rows, k, width, first) && next == first + 2 * k - 1
    {
      var line := Node(next, Op(Reshape, Shaped(rows[k], [1, width])), [rows[k]]);
      batched := Node(next + 1, Op(Concat(0), Shaped(rows[k], [k + 1, width])), [batched, line]);
      next := next + 2;
    }
    return [batched], next;
  }

  // ----- What the selected rows are

  /** The run gives every lane its rows, advances it within them, and has a sequence on some lane. */
  predicate RunFits<Row(!new)>(world: World<Row>, root: Term) {
    && |root.op.info.shape| == 3 && root.op.info.shape[0] > 0
    && |Rows(world, root)| == root.op.info.shape[0] * root.op.info.shape[1]
    && |world.advances| == root.op.info.shape[0]
    && (forall lane | 0 <= lane < |world.advances| && world.advances[lane].Some? :: 0 < world.advances[lane].value <= root.op.info.shape[1])
    && exists lane :: 0 <= lane < |world.advances| && world.advances[lane].Some?
  }

  lemma LaneRowExists(batch: nat, tokens: nat, lane: nat, advance: nat)
    requires lane < batch && 0 < advance <= tokens
    ensures 0 <= lane * tokens + advance - 1 < batch * tokens
    ensures lane * tokens + tokens <= batch * tokens
  {
    assert (lane + 1) * tokens <= batch * tokens;
  }

  /** The row of a lane's last token, or zeros for a lane without a sequence. */
  function LastRow<Row(!new)>(world: World<Row>, root: Term, lane: nat): Row
    requires RunFits(world, root) && lane < root.op.info.shape[0]
  {
    match world.advances[lane]
    case None => world.zero
    case Some(advance) =>
      LaneRowExists(root.op.info.shape[0], root.op.info.shape[1], lane, advance);
      Rows(world, root)[lane * root.op.info.shape[1] + advance - 1]
  }

  /** What a selection with one lane selects from. */
  function SelectionSource(root: Term): Term {
    if HeadInput(root).Some? then HeadInput(root).value else root
  }

  /** With one lane, the selection must not read from a slice that starts elsewhere. */
  predicate LanesMatch(root: Term)
    requires |root.op.info.shape| == 3
  {
    root.op.info.shape[0] > 1 || Lane(SelectionSource(root)) == 0
  }

  lemma SelectorRows<Row(!new)>(world: World<Row>, root: Term, lane: nat, id: nat)
    requires |root.op.info.shape| == 3 && lane < root.op.info.shape[0]
    ensures var (rows, shape) := (Rows(world, root), root.op.info.shape);
            Rows(world, Selector(root, lane, id))
            == if shape[0] == 1 then Picked(world, rows, Lane(root)) else Picked(world, Lanes(rows, shape[1], lane), lane)
  {
    var selector := Selector(root, lane, id);
    if root.op.info.shape[0] != 1 {
      assert IsLaneSlice(selector.args[0]);
    }
  }

  /** Within the rows of its lane a selector finds the last one. */
  lemma LanePicks<Row(!new)>(world: World<Row>, root: Term, lane: nat)
    requires RunFits(world, root) && lane < root.op.info.shape[0]
    ensures Picked(world, Lanes(Rows(world, root), root.op.info.shape[1], lane), lane) == [LastRow(world, root, lane)]
  {
    if world.advances[lane].Some? {
      LaneRowExists(root.op.info.shape[0], root.op.info.shape[1], lane, world.advances[lane].value);
    }
  }

  lemma SelectorPicks<Row(!new)>(world: World<Row>, root: Term, lane: nat, id: nat)
    requires RunFits(world, root) && lane < root.op.info.shape[0]
    ensures root.op.info.shape[0] > 1 || Lane(root) == 0 ==> Rows(world, Selector(root, lane, id)) == [LastRow(world, root, lane)]
    ensures root.op.info.shape[0] == 1 && Lane(root) != 0 ==> Rows(world, Selector(root, lane, id)) == []
  {
    SelectorRows(world, root, lane, id);
    if root.op.info.shape[0] > 1 {
      LanePicks(world, root, lane);
    }
  }

  /** With one lane: the whole selection is right exactly when it reads the first lane. */
  lemma PushedPicks<Row(!new)>(world: World<Row>, root: Term, split: bool, id: nat)
    requires RunFits(world, root) && root.op.info.shape[0] == 1 && Pushed(root, split, id).Some?
    ensures LanesMatch(root) <==> Rows(world, Pushed(root, split, id).value.0) == [LastRow(world, root, 0)]
  {
    DescendSelects(world, root, id);
    var pushed, result := Descend(root, id).value.0, Pushed(root, split, id).value.0;
    assert Rows(world, result) == Rows(world, pushed);
  }

  /** Split roots hold the last row of each lane, exactly when the lanes match. */
  lemma SplitSelects<Row(!new)>(world: World<Row>, root: Term, id: nat)
    requires RunFits(world, root)
    ensures var outputs := Selected(root, true, id);
            && |outputs| == root.op.info.shape[0]
            && (LanesMatch(root) <==>
                forall lane :: 0 <= lane < |outputs| ==> Rows(world, outputs[lane]) == [LastRow(world, root, lane)])
  {
    var outputs := Selected(root, true, id);
    DescendSelects(world, root, id);
    if root.op.info.shape[0] == 1 && Pushed(root, true, id).Some? {
      PushedPicks(world, root, true, id);
      assert |outputs| == 1 && outputs[0] == Pushed(root, true, id).value.0;
    } else {
      forall lane | 0 <= lane < |outputs|
        ensures Rows(world, outputs[lane]) == [LastRow(world, root, lane)] <==> LanesMatch(root)
      {
        SelectorPicks(world, root, lane, LaneId(root, lane, id));
      }
      assert outputs[0] == Selectors(root, id)[0];
    }
  }

  lemma ConcatRows<Row(!new)>(world: World<Row>, n: Term)
    requires n.op.kind == Concat(0) && |n.args| == 2
    ensures Rows(world, n) == Rows(world, n.args[0]) + Rows(world, n.args[1])
  {
  }

  lemma ReshapedRows<Row(!new)>(world: World<Row>, n: Term)
    requires n.op.kind.Reshape? && |n.args| == 1 && Last(n.args[0].op.info.shape) == Last(n.op.info.shape)
    ensures Rows(world, n) == Rows(world, n.args[0])
  {
  }

  ghost predicate HoldsRow<Row(!new)>(world: World<Row>, n: Term, width: nat, row: Row) {
    n.op.info.shape == [width] && Rows(world, n) == [row]
  }

  lemma {:induction false} StackedRows<Row(!new)>(world: World<Row>, rows: seq<Term>, count: nat, width: nat, id: nat, expected: seq<Row>)
    requires 1 <= count <= |rows| && |expected| == |rows|
    requires forall k :: 0 <= k < |rows| ==> HoldsRow(world, rows[k], width, expected[k])
    ensures Rows(world, Stacked(rows, count, width, id)) == expected[..count]
  {
    var result := Stacked(rows, count, width, id);
    assert HoldsRow(world, rows[count - 1], width, expected[count - 1]);
    if count > 1 {
      StackedRows(world, rows, count - 1, width, id, expected);
      ConcatRows(world, result);
      ReshapedRows(world, result.args[1]);
      PrefixSnoc(expected, count - 1);
    } else {
      ReshapedRows(world, result);
      assert expected[..1] == [expected[0]];
    }
  }

  /** A batched root holds the last rows of all lanes in order, exactly when the lanes match. */
  lemma BatchedSelects<Row(!new)>(world: World<Row>, root: Term, id: nat)
    requires RunFits(world, root)
    ensures var outputs := Selected(root, false, id);
            && |outputs| == 1
            && (LanesMatch(root) <==>
                Rows(world, outputs[0])
                == seq(root.op.info.shape[0], lane requires 0 <= lane < root.op.info.shape[0] => LastRow(world, root, lane)))
  {
    var batch := root.op.info.shape[0];
    var outputs, expected := Selected(root, false, id), seq(batch, lane requires 0 <= lane < batch => LastRow(world, root, lane));
    DescendSelects(world, root, id);
    if batch == 1 && Pushed(root, false, id).Some? {
      PushedPicks(world, root, false, id);
      assert expected == [LastRow(world, root, 0)];
    } else {
      var rows, width := Selectors(root, id), root.op.info.shape[2];
      forall lane | 0 <= lane < batch
        ensures LanesMatch(root) ==> Rows(world, rows[lane]) == [expected[lane]]
        ensures !LanesMatch(root) ==> batch == 1 && Rows(world, rows[lane]) == []
        ensures rows[lane].op.info.shape == [width]
      {
        SelectorPicks(world, root, lane, LaneId(root, lane, id));
      }
      if LanesMatch(root) {
        assert forall lane :: 0 <= lane < batch ==> HoldsRow(world, rows[lane], width, expected[lane]);
        StackedRows(world, rows, batch, width, LaneId(root, batch, id), expected);
      } else {
        var single := outputs[0];
        assert Rows(world, single) == Rows(world, rows[0]);
      }
    }
  }

  /** With one lane, a root that is itself the second row of a table asks for a lane that does not exist. */
  lemma ShiftedSliceIsRefused()
    ensures exists world: World<int>, root: Term ::
      RunFits(world, root) && !LanesMatch(root) && Rows(world, Selected(root, true, 2)[0]) == []
  {
    var table := Node(0, Op(Other(0), Info([2, 1, 1], F32, Cpu(0))), []);
    var root := Node(1, Op(Slice([(1, 2, 1), (0, 1, 1), (0, 1, 1)]), Info([1, 1, 1], F32, Cpu(0))), [table]);
    var world := World((kind: Kind, left: bool, rest: seq<seq<int>>, row: int) => row, (n: Term) => [5, 7], [Some(1)], 0);
    assert Rows(world, table) == [5, 7];
    assert IsLaneSlice(root) && Rows(world, root) == [7];
    assert world.advances[0].Some?;
    SelectorPicks(world, root, 0, 2);
    assert HeadInput(root).None?;
    DescendSelects(world, root, 2);
    assert Selected(root, true, 2)[0] == Selector(root, 0, 2);
    assert RunFits(world, root) && !LanesMatch(root);
  }

  // ----- Selection neither adds nor loses leaves

  ghost function LeavesBelow(n: Term): set<Term> {
    set x | x in Below(n) && Declared(x.op).Some?
  }

  ghost predicate SameLeaves(n: Term, m: Term) {
    LeavesBelow(n) == LeavesBelow(m)
  }

  lemma OperandLeaves(n: Term, x: Term) returns (k: nat)
    requires Declared(n.op).None? && x in LeavesBelow(n)
    ensures k < |n.args| && x in LeavesBelow(n.args[k])
  {
    k := BelowAllSplits(n.args, x);
  }

  lemma LeavesOfOperand(n: Term, k: nat)
    requires k < |n.args|
    ensures LeavesBelow(n.args[k]) <= LeavesBelow(n)
  {
    BelowAllHas(n.args, k);
  }

  /** A node whose operands each have the leaves of `m`. */
  lemma UniformLeaves(n: Term, m: Term)
    requires Declared(n.op).None? && n.args != [] && forall k :: 0 <= k < |n.args| ==> SameLeaves(n.args[k], m)
    ensures SameLeaves(n, m)
  {
    forall x
      ensures x in LeavesBelow(n) <==> x in LeavesBelow(m)
    {
      if x in LeavesBelow(n) {
        var k := OperandLeaves(n, x);
        assert SameLeaves(n.args[k], m);
      }
      assert SameLeaves(n.args[0], m);
      LeavesOfOperand(n, 0);
    }
  }

  /** Two nodes whose operands have the same leaves one by one. */
  lemma MatchingLeaves(n: Term, m: Term)
    requires Declared(n.op).None? && Declared(m.op).None? && |n.args| == |m.args|
    requires forall k :: 0 <= k < |n.args| ==> SameLeaves(n.args[k], m.args[k])
    ensures SameLeaves(n, m)
  {
    forall x
      ensures x in LeavesBelow(n) <==> x in LeavesBelow(m)
    {
      if x in LeavesBelow(n) {
        var k := OperandLeaves(n, x);
        assert SameLeaves(n.args[k], m.args[k]);
        LeavesOfOperand(m, k);
      }
      if x in LeavesBelow(m) {
        var k := OperandLeaves(m, x);
        assert SameLeaves(n.args[k], m.args[k]);
        LeavesOfOperand(n, k);
      }
    }
  }

  lemma DescendsInto(n: Term, id: nat)
    requires Descend(n, id).Some? && !n.op.kind.Linear?
    ensures Declared(n.op).None? && SequenceOperand(n).Some? && SequenceOperand(n).value < |n.args|
    ensures Descend(n, id) == DescendInto(n, SequenceOperand(n).value, id)
  {
  }

  lemma {:induction false} DescendKeepsLeaves(n: Term, id: nat)
    ensures Descend(n, id).Some? ==> SameLeaves(Descend(n, id).value.0, n)
    decreases n
  {
    if Descend(n, id).Some? {
      var result := Descend(n, id).value.0;
      if n.op.kind.Linear? {
        var row := result.args[0];
        UniformLeaves(row.args[0], n.args[0]);
        UniformLeaves(row, n.args[0]);
        assert SameLeaves(result.args[0], n.args[0]);
      } else {
        DescendsInto(n, id);
        var p := SequenceOperand(n).value;
        DescendKeepsLeaves(n.args[p], id);
        assert SameLeaves(result.args[p], n.args[p]);
      }
      assert forall k :: 0 <= k < |n.args| ==> SameLeaves(result.args[k], n.args[k]);
      MatchingLeaves(result, n);
    }
  }

  lemma SelectorKeepsLeaves(root: Term, lane: nat, id: nat)
    requires |root.op.info.shape| == 3
    ensures SameLeaves(Selector(root, lane, id), root)
  {
    var selector := Selector(root, lane, id);
    if root.op.info.shape[0] != 1 {
      UniformLeaves(selector.args[0], root);
    }
    UniformLeaves(selector, root);
  }

  lemma {:induction false} StackedKeepsLeaves(root: Term, rows: seq<Term>, count: nat, width: nat, id: nat)
    requires 1 <= count <= |rows| && forall k :: 0 <= k < |rows| ==> SameLeaves(rows[k], root)
    ensures SameLeaves(Stacked(rows, count, width, id), root)
  {
    var result := Stacked(rows, count, width, id);
    assert SameLeaves(rows[count - 1], root);
    if count > 1 {
      StackedKeepsLeaves(root, rows, count - 1, width, id);
      UniformLeaves(result.args[1], root);
    }
    UniformLeaves(result, root);
  }

  /** Every output reaches the leaves of its root, and no others. */
  lemma SelectionKeepsLeaves(root: Term, split: bool, id: nat)
    requires |root.op.info.shape| == 3 && root.op.info.shape[0] > 0
    ensures var outputs := Selected(root, split, id);
            outputs != [] && forall k :: 0 <= k < |outputs| ==> SameLeaves(outputs[k], root)
  {
    var batch, rows := root.op.info.shape[0], Selectors(root, id);
    forall lane | 0 <= lane < batch
      ensures SameLeaves(rows[lane], root)
    {
      SelectorKeepsLeaves(root, lane, LaneId(root, lane, id));
    }
    if batch == 1 && Pushed(root, split, id).Some? {
      DescendKeepsLeaves(root, id);
      UniformLeaves(Pushed(root, split, id).value.0, root);
    } else if !split {
      StackedKeepsLeaves(root, rows, batch, root.op.info.shape[2], LaneId(root, batch, id));
    }
  }
}
