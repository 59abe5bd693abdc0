/**
 * Discovery of the graph below a list of roots by one explicit-stack walk, and the dense tables built from it:
 * dense ids, children, consumers and program slots.
 */
module GraphIndexes {
  import opened Wrappers
  import opened Dag
  import opened NodeInfo
  import opened SemanticGraph

  // ----- Discovery

  function Ids<Op>(nodes: seq<Node<Op>>): (ids: seq<nat>)
    ensures |ids| == |nodes| && forall k :: 0 <= k < |nodes| ==> ids[k] == nodes[k].id
  {
    seq(|nodes|, k requires 0 <= k < |nodes| => nodes[k].id)
  }

  /** The edges leaving the nodes of an order, counting duplicates. */
  ghost function Edges<Op>(order: seq<Node<Op>>): nat {
    if order == [] then 0 else Edges(order[..|order| - 1]) + |order[|order| - 1].args|
  }

  /** The edges leaving the nodes still marked for emission. */
  ghost function MarkedEdges<Op>(stack: seq<Work<Op>>): nat {
    if stack == [] then 0
    else
      var (n, emit) := stack[|stack| - 1];
      MarkedEdges(stack[..|stack| - 1]) + if emit then |n.args| else 0
  }

  lemma {:induction false} PushMarksNothing<Op>(stack: seq<Work<Op>>, nodes: seq<Node<Op>>)
    ensures MarkedEdges(Push(stack, nodes)) == MarkedEdges(stack)
    decreases |nodes|
  {
    if nodes != [] {
      var lower := Push(stack, nodes[1..]);
      assert (lower + [(nodes[0], false)])[..|lower|] == lower;
      PushMarksNothing(stack, nodes[1..]);
    }
  }

  lemma ExpandMarksEdges<Op>(stack: seq<Work<Op>>)
    requires stack != [] && !stack[|stack| - 1].1
    ensures var n := stack[|stack| - 1].0;
            MarkedEdges(Expanded(stack, n.args)) == MarkedEdges(stack) + |n.args|
  {
    var rest, n := stack[..|stack| - 1], stack[|stack| - 1].0;
    PushMarksNothing(rest + [(n, true)], n.args);
    assert (rest + [(n, true)])[..|rest|] == rest;
  }

  lemma EmitMovesEdges<Op>(stack: seq<Work<Op>>, order: seq<Node<Op>>)
    requires stack != [] && stack[|stack| - 1].1
    ensures var (rest, n) := (stack[..|stack| - 1], stack[|stack| - 1].0);
            Edges(order + [n]) + MarkedEdges(rest) == Edges(order) + MarkedEdges(stack)
  {
    var n := stack[|stack| - 1].0;
    assert (order + [n])[..|order|] == order;
  }

  ghost predicate ChildrenListed<Op(!new)>(graph: set<Node<Op>>, childrenById: map<nat, seq<nat>>, visited: set<nat>) {
    childrenById.Keys == visited &&
    forall x :: x in graph && x.id in childrenById ==> childrenById[x.id] == Ids(x.args)
  }

  lemma ListingKeeps<Op(!new)>(graph: set<Node<Op>>, childrenById: map<nat, seq<nat>>, visited: set<nat>, node: Node<Op>)
    requires Coherent(graph) && node in graph && ChildrenListed(graph, childrenById, visited)
    ensures ChildrenListed(graph, childrenById[node.id := Ids(node.args)], visited + {node.id})
  {
  }

  /** Pushes a node for emission and, above it, its children from the last to the first. */
  method PushChildren<Op>(stack: seq<Work<Op>>, node: Node<Op>) returns (deeper: seq<Work<Op>>)
    ensures deeper == Push(stack + [(node, true)], node.args)
  {
    deeper := stack + [(node, true)];
    var k := |node.args|;
    while k > 0
      invariant 0 <= k <= |node.args|
      invariant deeper == Push(stack + [(node, true)], node.args[k..])
    {
      k := k - 1;
      deeper := deeper + [(node.args[k], false)];
    }
  }

  /** The walk so far, the children listed for every visited node, and the edges counted with them. */
  ghost predicate Discovering<Op(!new)>(roots: seq<Node<Op>>, stack: seq<Work<Op>>, order: seq<Node<Op>>, visited: set<nat>,
                                        childrenById: map<nat, seq<nat>>, edgeVisits: nat) {
    && Traversing(roots, false, stack, order, visited)
    && ChildrenListed(BelowAll(roots), childrenById, visited)
    && edgeVisits == Edges(order) + MarkedEdges(stack)
  }

  lemma DiscoveryEmits<Op(!new)>(roots: seq<Node<Op>>, stack: seq<Work<Op>>, order: seq<Node<Op>>, visited: set<nat>,
                                 childrenById: map<nat, seq<nat>>, edgeVisits: nat)
    requires Discovering(roots, stack, order, visited, childrenById, edgeVisits) && stack != [] && stack[|stack| - 1].1
    ensures Discovering(roots, stack[..|stack| - 1], order + [stack[|stack| - 1].0], visited, childrenById, edgeVisits)
  {
    TraversalEmits(roots, false, stack, order, visited);
    EmitMovesEdges(stack, order);
  }

  lemma DiscoverySkips<Op(!new)>(roots: seq<Node<Op>>, stack: seq<Work<Op>>, order: seq<Node<Op>>, visited: set<nat>,
                                 childrenById: map<nat, seq<nat>>, edgeVisits: nat)
    requires Discovering(roots, stack, order, visited, childrenById, edgeVisits) && stack != [] && !stack[|stack| - 1].1
    requires stack[|stack| - 1].0.id in visited
    ensures Discovering(roots, stack[..|stack| - 1], order, visited, childrenById, edgeVisits)
  {
    TraversalSkips(roots, false, stack, order, visited);
  }

  /** Marks the node on top of the stack visited, records its children and pushes them, the last one first. */
  method Expand<Op(!new)>(ghost roots: seq<Node<Op>>, ghost order: seq<Node<Op>>, stack: seq<Work<Op>>,
                          visited: set<nat>, childrenById: map<nat, seq<nat>>, edgeVisits: nat)
    returns (deeper: seq<Work<Op>>, seen: set<nat>, listed: map<nat, seq<nat>>, counted: nat)
    requires Discovering(roots, stack, order, visited, childrenById, edgeVisits) && stack != [] && !stack[|stack| - 1].1
    requires stack[|stack| - 1].0.id !in visited
    ensures Discovering(roots, deeper, order, seen, listed, counted)
    ensures |AllIds(roots) - seen| < |AllIds(roots) - visited|
  {
    TraversalExpands(roots, false, stack, order, visited);
    ExpandMarksEdges(stack);
    var node := stack[|stack| - 1].0;
    ListingKeeps(BelowAll(roots), childrenById, visited, node);
    counted := edgeVisits + |node.args|;
    seen := visited + {node.id};
    listed := childrenById[node.id := Ids(node.args)];
    deeper := PushChildren(stack[..|stack| - 1], node);
  }

  method Discover<Op(!new)>(roots: seq<Node<Op>>)
    returns (order: seq<Node<Op>>, childrenById: map<nat, seq<nat>>, edgeVisits: nat)
    requires Coherent(BelowAll(roots))
    ensures order == VisitAll(roots, false, [])
    ensures Topological(order) && forall x :: x in order <==> x in BelowAll(roots)
    ensures forall x :: x in order ==> x.id in childrenById && childrenById[x.id] == Ids(x.args)
    ensures edgeVisits == Edges(order)
  {
    var visited: set<nat> := {};
    var stack: seq<Work<Op>> := Push([], roots);
    order, childrenById, edgeVisits := [], map[], 0;
    DiscoveryStarts(roots);
    while stack != []
      invariant Discovering(roots, stack, order, visited, childrenById, edgeVisits)
      decreases |AllIds(roots) - visited|, |stack|
    {
      var (node, processed) := stack[|stack| - 1];
      if processed {
        DiscoveryEmits(roots, stack, order, visited, childrenById, edgeVisits);
        order := order + [node];
        stack := stack[..|stack| - 1];
      } else if node.id in visited {
        DiscoverySkips(roots, stack, order, visited, childrenById, edgeVisits);
        stack := stack[..|stack| - 1];
      } else {
        stack, visited, childrenById, edgeVisits := Expand(roots, order, stack, visited, childrenById, edgeVisits);
      }
    }
    DiscoveryEnds(roots, order, visited, childrenById, edgeVisits);
  }

  lemma DiscoveryStarts<Op(!new)>(roots: seq<Node<Op>>)
    requires Coherent(BelowAll(roots))
    ensures Discovering(roots, Push([], roots), [], {}, map[], 0)
  {
    TraversalStarts(roots, false);
    PushMarksNothing([], roots);
  }

  lemma DiscoveryEnds<Op(!new)>(roots: seq<Node<Op>>, order: seq<Node<Op>>, visited: set<nat>,
                                childrenById: map<nat, seq<nat>>, edgeVisits: nat)
    requires Discovering(roots, [], order, visited, childrenById, edgeVisits)
    ensures order == VisitAll(roots, false, [])
    ensures Topological(order) && forall x :: x in order <==> x in BelowAll(roots)
    ensures forall x :: x in order ==> x.id in childrenById && childrenById[x.id] == Ids(x.args)
    ensures edgeVisits == Edges(order)
  {
    PostorderIsReachable(roots, false);
    forall x | x in order
      ensures x.id in childrenById
    {
      EmittedWereVisited([], order, visited, x);
    }
  }

  // ----- Dense tables

  /** Child lists by dense id: the k-th child of `order[p]` is the node at `children[p][k]`, which stands earlier. */
  ghost predicate ChildrenTable<Op>(order: seq<Node<Op>>, children: seq<seq<nat>>) {
    && |children| <= |order|
    && forall p :: 0 <= p < |children| ==> ChildrenOf(order, p, children[p])
  }

  ghost predicate ChildrenOf<Op>(order: seq<Node<Op>>, p: nat, dense: seq<nat>)
    requires p < |order|
  {
    && |dense| == |order[p].args|
    && forall k :: 0 <= k < |dense| ==> dense[k] < p && order[dense[k]] == order[p].args[k]
  }

  /** Consumer lists are the transpose of child lists, with the multiplicity of every edge, parents ascending. */
  ghost predicate Transposed(children: seq<seq<nat>>, consumers: seq<seq<nat>>) {
    && |children| <= |consumers|
    && (forall c, p :: 0 <= c < |consumers| && 0 <= p < |children| ==> multiset(consumers[c])[p] == multiset(children[p])[c])
    && (forall c, i :: 0 <= c < |consumers| && 0 <= i < |consumers[c]| ==> consumers[c][i] < |children|)
    && (forall c, i, j :: 0 <= c < |consumers| && 0 <= i < j < |consumers[c]| ==> consumers[c][i] <= consumers[c][j])
  }

  /** The dense id of every node is its place in the order. */
  ghost predicate DenseIds<Op>(order: seq<Node<Op>>, count: nat, denseByNode: map<nat, nat>)
    requires count <= |order|
  {
    forall i :: 0 <= i < count ==> order[i].id in denseByNode && denseByNode[order[i].id] == i
  }

  method NumberNodes<Op>(order: seq<Node<Op>>) returns (denseByNode: map<nat, nat>)
    requires DistinctIds(order)
    ensures DenseIds(order, |order|, denseByNode)
  {
    denseByNode := map[];
    for index := 0 to |order|
      invariant DenseIds(order, index, denseByNode)
    {
      denseByNode := denseByNode[order[index].id := index];
    }
  }

  /** Adds a parent to the consumers of each of its children. */
  method Connect(children: seq<seq<nat>>, dense: seq<nat>, before: seq<seq<nat>>) returns (consumers: seq<seq<nat>>)
    requires Transposed(children, before) && |children| < |before|
    requires forall k :: 0 <= k < |dense| ==> dense[k] < |before|
    ensures |consumers| == |before| && Transposed(children + [dense], consumers)
  {
    consumers := before;
    ConnectNothing(children, before);
    assert dense[..0] == [];
    for k := 0 to |dense|
      invariant |consumers| == |before| && Transposed(children + [dense[..k]], consumers)
    {
      var child := dense[k];
      assert dense[..k + 1] == dense[..k] + [child];
      ConnectEdge(children, dense[..k], consumers, child);
      consumers := consumers[child := consumers[child] + [|children|]];
    }
    assert dense[..|dense|] == dense;
  }

  lemma ConnectNothing(children: seq<seq<nat>>, consumers: seq<seq<nat>>)
    requires Transposed(children, consumers) && |children| < |consumers|
    ensures Transposed(children + [[]], consumers)
  {
    var more := children + [[]];
    forall c, p | 0 <= c < |consumers| && 0 <= p < |more|
      ensures multiset(consumers[c])[p] == multiset(more[p])[c]
    {
      if p < |children| {
        assert more[p] == children[p];
      } else {
        assert p !in consumers[c];
      }
    }
  }

  lemma ConnectEdge(children: seq<seq<nat>>, prefix: seq<nat>, consumers: seq<seq<nat>>, child: nat)
    requires Transposed(children + [prefix], consumers) && child < |consumers|
    ensures Transposed(children + [prefix + [child]], consumers[child := consumers[child] + [|children|]])
  {
    var parent, was, more := |children|, children + [prefix], children + [prefix + [child]];
    var next := consumers[child := consumers[child] + [parent]];
    forall c, p | 0 <= c < |next| && 0 <= p < |more|
      ensures multiset(next[c])[p] == multiset(more[p])[c]
    {
      assert multiset(consumers[c])[p] == multiset(was[p])[c];
      assert p == parent ==> multiset(more[p]) == multiset(was[p]) + multiset{child};
      assert p != parent ==> more[p] == was[p];
      assert c == child ==> multiset(next[c]) == multiset(consumers[c]) + multiset{parent};
    }
    forall c, i, j | 0 <= c < |next| && 0 <= i < j < |next[c]|
      ensures next[c][i] <= next[c][j]
    {
      assert consumers[c][i] < |was|;
      assert j < |consumers[c]| ==> consumers[c][i] <= consumers[c][j];
    }
  }

  /** The dense ids of the children of `order[p]`, looked up by node id. */
  method DenseChildren<Op>(order: seq<Node<Op>>, denseByNode: map<nat, nat>, p: nat, ids: seq<nat>) returns (dense: seq<nat>)
    requires p < |order| && ArgsBefore(order, p) && DenseIds(order, |order|, denseByNode) && ids == Ids(order[p].args)
    ensures ChildrenOf(order, p, dense)
  {
    dense := [];
    for k := 0 to |ids|
      invariant |dense| == k
      invariant forall j :: 0 <= j < k ==> dense[j] < p && order[dense[j]] == order[p].args[j]
    {
      assert order[p].args[k] in order[..p];
      ghost var at :| 0 <= at < p && order[at] == order[p].args[k];
      dense := dense + [denseByNode[ids[k]]];
    }
  }

  method BuildTables<Op>(order: seq<Node<Op>>, childrenById: map<nat, seq<nat>>, denseByNode: map<nat, nat>)
    returns (children: seq<seq<nat>>, consumers: seq<seq<nat>>)
    requires Topological(order) && DenseIds(order, |order|, denseByNode)
    requires forall x :: x in order ==> x.id in childrenById && childrenById[x.id] == Ids(x.args)
    ensures |children| == |consumers| == |order| && ChildrenTable(order, children) && Transposed(children, consumers)
  {
    children, consumers := [], seq(|order|, _ => []);
    assert Transposed(children, consumers);
    for p := 0 to |order|
      invariant |children| == p && |consumers| == |order|
      invariant ChildrenTable(order, children) && Transposed(children, consumers)
    {
      assert order[p] in order && ArgsBefore(order, p);
      var dense := DenseChildren(order, denseByNode, p, childrenById[order[p].id]);
      consumers := Connect(children, dense, consumers);
      children := children + [dense];
    }
  }

  // ----- Program slots

  datatype IndexError = ConflictingSlot(slot: nat) | UnusedSlot(slot: nat)

  ghost predicate Declares(order: seq<Term>, i: nat, slot: nat)
    requires i < |order|
  {
    Declared(order[i].op).Some? && Declared(order[i].op).value.0 == slot
  }

  /** One of the first `count` nodes declares the slot. */
  ghost predicate SlotUsed(order: seq<Term>, count: nat, slot: nat)
    requires count <= |order|
  {
    exists i: nat :: i < count && Declares(order, i, slot)
  }

  /** Nodes that declare the same slot declare the same signature. */
  ghost predicate SlotsAgree(order: seq<Term>) {
    forall i: nat, j: nat, slot: nat ::
      i < |order| && j < |order| && Declares(order, i, slot) && Declares(order, j, slot)
      ==> Declared(order[i].op) == Declared(order[j].op)
  }

  /** No slot number below a declared one is skipped. */
  ghost predicate SlotsDense(order: seq<Term>) {
    forall i: nat, slot: nat, lower: nat ::
      i < |order| && Declares(order, i, slot) && lower < slot ==> SlotUsed(order, |order|, lower)
  }

  /** The table lists the signatures declared by the first `count` nodes, and nothing else. */
  ghost predicate Listed(order: seq<Term>, count: nat, slots: seq<Option<Slot>>)
    requires count <= |order|
  {
    && (forall i: nat, slot: nat :: i < count && Declares(order, i, slot)
          ==> slot < |slots| && slots[slot] == Some(Declared(order[i].op).value.1))
    && (forall slot: nat :: slot < |slots| && slots[slot].Some? ==> SlotUsed(order, count, slot))
    && (slots != [] ==> slots[|slots| - 1].Some?)
  }

  /** The declaring leaves in postorder. */
  function SlotLeaves(order: seq<Term>): seq<(nat, nat)> {
    if order == [] then []
    else
      var n := order[|order| - 1];
      SlotLeaves(order[..|order| - 1]) + if Declared(n.op).Some? then [(n.id, Declared(n.op).value.0)] else []
  }

  method Resize(slots: seq<Option<Slot>>, length: nat) returns (longer: seq<Option<Slot>>)
    requires |slots| <= length
    ensures |longer| == length && longer[..|slots|] == slots
    ensures forall k :: |slots| <= k < length ==> longer[k] == None
  {
    longer := slots + seq(length - |slots|, _ => None);
  }

  /** Enters one declaration, unless it conflicts with an earlier one. */
  method Declare(order: seq<Term>, count: nat, slots: seq<Option<Slot>>) returns (r: Option<seq<Option<Slot>>>)
    requires count < |order| && Listed(order, count, slots) && Declared(order[count].op).Some?
    ensures r.Some? ==> Listed(order, count + 1, r.value)
    ensures r.None? ==> !SlotsAgree(order)
  {
    var (slot, declared) := Declared(order[count].op).value;
    var table := slots;
    if slot >= |table| {
      table := Resize(table, slot + 1);
    }
    assert forall s: nat :: s < |slots| ==> table[s] == slots[s];
    if table[slot].Some? && table[slot].value != declared {
      ghost var i: nat :| i < count && Declares(order, i, slot);
      assert Declares(order, count, slot);
      return None;
    }
    table := table[slot := Some(declared)];
    assert Declares(order, count, slot);
    forall s: nat | s < |table| && table[s].Some?
      ensures SlotUsed(order, count + 1, s)
    {
      if s != slot {
        assert SlotUsed(order, count, s);
      }
    }
    return Some(table);
  }

  /**
   * The signatures of all slots and the leaves that declare them; fails exactly when two declarations conflict or a
   * slot number is skipped.
   */
  method CollectSlots(order: seq<Term>) returns (r: Result<(seq<Slot>, seq<(nat, nat)>), IndexError>)
    ensures r.Success? <==> SlotsAgree(order) && SlotsDense(order)
    ensures r.Success? ==> Listed(order, |order|, Present(r.value.0)) && r.value.1 == SlotLeaves(order)
    ensures r.Failure? && r.error.UnusedSlot? ==> SlotsAgree(order) && !SlotUsed(order, |order|, r.error.slot)
  {
    var slots: seq<Option<Slot>>, leaves := [], [];
    for n := 0 to |order|
      invariant Listed(order, n, slots)
      invariant leaves == SlotLeaves(order[..n])
    {
      assert order[..n + 1][..n] == order[..n];
      var declared := Declared(order[n].op);
      if declared.Some? {
        leaves := leaves + [(order[n].id, declared.value.0)];
        var table := Declare(order, n, slots);
        if table.None? {
          return Failure(ConflictingSlot(declared.value.0));
        }
        slots := table.value;
      } else {
        NothingDeclared(order, n, slots);
      }
    }
    assert order[..|order|] == order;
    ListedAgrees(order, slots);
    var out: seq<Slot> := [];
    for s := 0 to |slots|
      invariant |out| == s && forall k :: 0 <= k < s ==> slots[k] == Some(out[k])
    {
      if slots[s].None? {
        UnusedIsSkipped(order, slots, s);
        return Failure(UnusedSlot(s));
      }
      out := out + [slots[s].value];
    }
    assert Present(out) == slots;
    forall i: nat, slot: nat, lower: nat | i < |order| && Declares(order, i, slot) && lower < slot
      ensures SlotUsed(order, |order|, lower)
    {
      assert slots[lower].Some?;
    }
    return Success((out, leaves));
  }

  ghost function Present(slots: seq<Slot>): seq<Option<Slot>> {
    seq(|slots|, k requires 0 <= k < |slots| => Some(slots[k]))
  }

  lemma NothingDeclared(order: seq<Term>, count: nat, slots: seq<Option<Slot>>)
    requires count < |order| && Listed(order, count, slots) && Declared(order[count].op).None?
    ensures Listed(order, count + 1, slots)
  {
    forall slot: nat | slot < |slots| && slots[slot].Some?
      ensures SlotUsed(order, count + 1, slot)
    {
      assert SlotUsed(order, count, slot);
    }
  }

  lemma ListedAgrees(order: seq<Term>, slots: seq<Option<Slot>>)
    requires Listed(order, |order|, slots)
    ensures SlotsAgree(order)
  {
  }

  /** A hole in the table is a skipped slot number. */
  lemma UnusedIsSkipped(order: seq<Term>, slots: seq<Option<Slot>>, slot: nat)
    requires Listed(order, |order|, slots) && slot < |slots| && slots[slot].None?
    ensures !SlotUsed(order, |order|, slot) && !SlotsDense(order)
  {
    var last: nat := |slots| - 1;
    assert SlotUsed(order, |order|, last);
    var i: nat :| i < |order| && Declares(order, i, last);
    assert slot < last;
  }

  // ----- Slots in terms of leaves

  predicate UsesSlot(n: Term, slot: nat) {
    Declared(n.op).Some? && Declared(n.op).value.0 == slot
  }

  ghost predicate SlotUsedIn(nodes: set<Term>, slot: nat) {
    exists x :: x in nodes && UsesSlot(x, slot)
  }

  /** Leaves of one slot declare one signature, and no slot number below a used one is skipped. */
  ghost predicate SlotsValid(nodes: set<Term>) {
    && (forall x, y, slot: nat | x in nodes && y in nodes && UsesSlot(x, slot) && UsesSlot(y, slot) :: Declared(x.op) == Declared(y.op))
    && (forall x, slot: nat, lower: nat | x in nodes && UsesSlot(x, slot) && lower < slot :: SlotUsedIn(nodes, lower))
  }

  /** The same statement about a list of the nodes, which is what the graph index checks. */
  lemma SlotsValidInOrder(nodes: set<Term>, order: seq<Term>)
    requires forall x :: x in order <==> x in nodes
    ensures SlotsValid(nodes) <==> SlotsAgree(order) && SlotsDense(order)
  {
    assert forall i: nat, slot: nat :: i < |order| && Declares(order, i, slot) ==> order[i] in nodes && UsesSlot(order[i], slot);
    forall x, slot: nat | x in nodes && UsesSlot(x, slot)
      ensures exists i: nat :: i < |order| && order[i] == x && Declares(order, i, slot)
    {
      var i: nat :| i < |order| && order[i] == x;
      assert Declares(order, i, slot);
    }
    forall slot: nat
      ensures SlotUsed(order, |order|, slot) <==> SlotUsedIn(nodes, slot)
    {
    }
  }

  /** Valid slots are what building a graph index asks for. */
  lemma IndexAccepts(roots: seq<Term>)
    requires Coherent(BelowAll(roots))
    ensures var order := VisitAll(roots, false, []);
            SlotsAgree(order) && SlotsDense(order) <==> SlotsValid(BelowAll(roots))
  {
    PostorderIsReachable(roots, false);
    SlotsValidInOrder(BelowAll(roots), VisitAll(roots, false, []));
  }

  /** Inputs of the same shape, element type, storage and device, or runtime scalars of the same element type and device. */
  ghost predicate SameSignature(x: Term, y: Term) {
    && (x.op.kind.Input? <==> y.op.kind.Input?) && x.op.info.dtype == y.op.info.dtype && x.op.info.device == y.op.info.device
    && (x.op.kind.Input? && y.op.kind.Input? ==> x.op.info.shape == y.op.info.shape && x.op.kind.storage == y.op.kind.storage)
  }

  ghost predicate LeafOfSlot(x: Term, slot: nat) {
    (x.op.kind.Input? || x.op.kind.ScalarInput?) && x.op.kind.slot == slot
  }

  ghost predicate LeafOfSlotIn(nodes: set<Term>, slot: nat) {
    exists x :: x in nodes && LeafOfSlot(x, slot)
  }

  lemma SignatureIsDeclared(x: Term, y: Term, slot: nat)
    ensures UsesSlot(x, slot) <==> LeafOfSlot(x, slot)
    ensures LeafOfSlot(x, slot) && LeafOfSlot(y, slot) ==> (Declared(x.op) == Declared(y.op) <==> SameSignature(x, y))
  {
  }

  /** Valid slots by the fields of the leaves. */
  lemma SlotsValidMeans(nodes: set<Term>)
    ensures SlotsValid(nodes) <==>
      && (forall x, y, slot: nat | x in nodes && y in nodes && LeafOfSlot(x, slot) && LeafOfSlot(y, slot) :: SameSignature(x, y))
      && (forall x, slot: nat, lower: nat | x in nodes && LeafOfSlot(x, slot) && lower < slot :: LeafOfSlotIn(nodes, lower))
  {
    forall x, y, slot: nat
      ensures UsesSlot(x, slot) <==> LeafOfSlot(x, slot)
      ensures LeafOfSlot(x, slot) && LeafOfSlot(y, slot) ==> (Declared(x.op) == Declared(y.op) <==> SameSignature(x, y))
    {
      SignatureIsDeclared(x, y, slot);
    }
    forall slot: nat
      ensures SlotUsedIn(nodes, slot) <==> LeafOfSlotIn(nodes, slot)
    {
    }
  }

  // ----- The index

  datatype GraphIndex = GraphIndex(
    order: seq<Term>, children: seq<seq<nat>>, consumers: seq<seq<nat>>, roots: seq<nat>,
    slots: seq<Slot>, slotLeaves: seq<(nat, nat)>, edgeVisits: nat)

  /** An index of exactly the graph below the roots. */
  ghost predicate Indexes(index: GraphIndex, roots: seq<Term>) {
    && index.order == VisitAll(roots, false, [])
    && Topological(index.order)
    && (forall x :: x in index.order <==> x in BelowAll(roots))
    && |index.children| == |index.consumers| == |index.order|
    && ChildrenTable(index.order, index.children)
    && Transposed(index.children, index.consumers)
    && |index.roots| == |roots|
    && (forall i :: 0 <= i < |roots| ==> index.roots[i] < |index.order| && index.order[index.roots[i]] == roots[i])
    && Listed(index.order, |index.order|, Present(index.slots))
    && LeavesListed(index.order, index.slotLeaves)
    && index.edgeVisits == Edges(index.order)
  }

  /** The declaring leaves in postorder, by dense id. */
  ghost predicate LeavesListed(order: seq<Term>, dense: seq<(nat, nat)>) {
    && |dense| == |SlotLeaves(order)|
    && forall i :: 0 <= i < |dense| ==>
         && dense[i].0 < |order| && order[dense[i].0].id == SlotLeaves(order)[i].0
         && Declares(order, dense[i].0, dense[i].1)
  }

  /** Every input and runtime scalar stands in the table as it is, and nothing else does. */
  ghost predicate SlotTable(nodes: set<Term>, slots: seq<Slot>) {
    && (forall x :: x in nodes && x.op.kind.Input? ==>
          && x.op.kind.slot < |slots|
          && slots[x.op.kind.slot] == Slot(false, x.op.info.shape, x.op.info.dtype, x.op.kind.storage, x.op.info.device))
    && (forall x :: x in nodes && x.op.kind.ScalarInput? ==>
          && x.op.kind.slot < |slots| && slots[x.op.kind.slot] == Slot(true, [], x.op.info.dtype, DENSE_STORAGE, x.op.info.device))
    && (forall slot: nat :: slot < |slots| ==> LeafOfSlotIn(nodes, slot))
  }

  /** The table of an index in terms of the leaves, and the leaves it lists. */
  lemma IndexDescribesSlots(index: GraphIndex, roots: seq<Term>)
    requires Indexes(index, roots)
    ensures SlotTable(BelowAll(roots), index.slots)
    ensures forall k :: 0 <= k < |index.slotLeaves| ==>
      index.slotLeaves[k].0 < |index.order| && LeafOfSlot(index.order[index.slotLeaves[k].0], index.slotLeaves[k].1)
  {
    var order := index.order;
    forall x, slot: nat | x in BelowAll(roots) && LeafOfSlot(x, slot)
      ensures slot < |index.slots| && index.slots[slot] == Declared(x.op).value.1
    {
      var i :| 0 <= i < |order| && order[i] == x;
      assert Declares(order, i, slot);
      assert Present(index.slots)[slot] == Some(Declared(x.op).value.1);
    }
    forall x | x in BelowAll(roots) && (x.op.kind.Input? || x.op.kind.ScalarInput?)
      ensures LeafOfSlot(x, x.op.kind.slot)
    {
    }
    forall slot: nat | slot < |index.slots|
      ensures LeafOfSlotIn(BelowAll(roots), slot)
    {
      assert Present(index.slots)[slot].Some?;
      assert SlotUsed(order, |order|, slot);
      var i: nat :| i < |order| && Declares(order, i, slot);
      assert LeafOfSlot(order[i], slot);
    }
  }

  method NewIndex(roots: seq<Term>) returns (r: Result<GraphIndex, IndexError>)
    requires Coherent(BelowAll(roots))
    ensures r.Success? ==> Indexes(r.value, roots) && SlotTable(BelowAll(roots), r.value.slots)
    ensures r.Success? <==> SlotsValid(BelowAll(roots))
  {
    var order, childrenById, edgeVisits := Discover(roots);
    var denseByNode := NumberNodes(order);
    var children, consumers := BuildTables(order, childrenById, denseByNode);
    var denseRoots := DenseRoots(roots, order, denseByNode);
    var collected := CollectSlots(order);
    IndexAccepts(roots);
    if collected.Failure? {
      return Failure(collected.error);
    }
    var (slots, leaves) := collected.value;
    var slotLeaves := DenseLeaves(order, leaves, denseByNode);
    var index := GraphIndex(order, children, consumers, denseRoots, slots, slotLeaves, edgeVisits);
    IndexDescribesSlots(index, roots);
    return Success(index);
  }

  method DenseRoots(roots: seq<Term>, order: seq<Term>, denseByNode: map<nat, nat>) returns (dense: seq<nat>)
    requires DenseIds(order, |order|, denseByNode) && Coherent(BelowAll(roots))
    requires forall x :: x in order <==> x in BelowAll(roots)
    ensures |dense| == |roots|
    ensures forall i :: 0 <= i < |roots| ==> dense[i] < |order| && order[dense[i]] == roots[i]
  {
    dense := [];
    for i := 0 to |roots|
      invariant |dense| == i
      invariant forall j :: 0 <= j < i ==> dense[j] < |order| && order[dense[j]] == roots[j]
    {
      BelowAllHas(roots, i);
      assert roots[i] in order;
      ghost var at :| 0 <= at < |order| && order[at] == roots[i];
      dense := dense + [denseByNode[roots[i].id]];
    }
  }

  /** Declaring leaves by dense id; `SlotLeaves` names only nodes of the order. */
  method DenseLeaves(order: seq<Term>, leaves: seq<(nat, nat)>, denseByNode: map<nat, nat>) returns (dense: seq<(nat, nat)>)
    requires DenseIds(order, |order|, denseByNode) && leaves == SlotLeaves(order)
    ensures LeavesListed(order, dense)
  {
    dense := [];
    for i := 0 to |leaves|
      invariant |dense| == i
      invariant forall j :: 0 <= j < i ==>
        && dense[j].0 < |order| && order[dense[j].0].id == leaves[j].0 && Declares(order, dense[j].0, dense[j].1)
    {
      ghost var at := LeafIsDeclared(order, i);
      dense := dense + [(denseByNode[leaves[i].0], leaves[i].1)];
    }
  }

  lemma {:induction false} LeafIsDeclared(order: seq<Term>, i: nat) returns (at: nat)
    requires i < |SlotLeaves(order)|
    ensures at < |order| && order[at].id == SlotLeaves(order)[i].0 && Declares(order, at, SlotLeaves(order)[i].1)
  {
    var front := order[..|order| - 1];
    if i < |SlotLeaves(front)| {
      at := LeafIsDeclared(front, i);
    } else {
      at := |order| - 1;
    }
  }
}
