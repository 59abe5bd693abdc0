/**
 * Immutable graphs of shared nodes. A node holds its children by value; its id stands for the identity of the
 * shared allocation, so a graph is coherent when equal ids mean equal nodes.
 */
module Dag {
  datatype Node<Op> = Node(id: nat, op: Op, args: seq<Node<Op>>)

  // ----- Structure

  /** A node and everything below it. */
  ghost function Below<Op>(n: Node<Op>): set<Node<Op>>
    decreases n, 1
  {
    {n} + BelowAll(n.args)
  }

  ghost function BelowAll<Op>(nodes: seq<Node<Op>>): set<Node<Op>>
    decreases nodes, 0
  {
    if nodes == [] then {} else Below(nodes[0]) + BelowAll(nodes[1..])
  }

  function Height<Op>(n: Node<Op>): nat
    decreases n, 1
  {
    1 + HeightAll(n.args)
  }

  /** The greatest height in a list. */
  function HeightAll<Op>(nodes: seq<Node<Op>>): nat
    decreases nodes, 0
  {
    if nodes == [] then 0
    else
      var (a, b) := (Height(nodes[0]), HeightAll(nodes[1..]));
      if a < b then b else a
  }

  /** Equal ids in the set mean equal nodes. */
  ghost predicate Coherent<Op(!new)>(nodes: set<Node<Op>>) {
    forall a, b :: a in nodes && b in nodes && a.id == b.id ==> a == b
  }

  lemma {:induction false} BelowAllHas<Op>(nodes: seq<Node<Op>>, i: nat)
    requires i < |nodes|
    ensures nodes[i] in BelowAll(nodes) && Below(nodes[i]) <= BelowAll(nodes)
    ensures Height(nodes[i]) <= HeightAll(nodes)
    decreases i
  {
    if i > 0 {
      BelowAllHas(nodes[1..], i - 1);
    }
  }

  lemma {:induction false} BelowAllSplits<Op>(nodes: seq<Node<Op>>, x: Node<Op>)
    returns (i: nat)
    requires x in BelowAll(nodes)
    ensures i < |nodes| && x in Below(nodes[i])
    decreases |nodes|
  {
    if x in Below(nodes[0]) {
      i := 0;
    } else {
      i := BelowAllSplits(nodes[1..], x);
      i := i + 1;
    }
  }

  lemma ArgBelow<Op>(n: Node<Op>, i: nat)
    requires i < |n.args|
    ensures n.args[i] in Below(n) && Height(n.args[i]) < Height(n)
  {
    BelowAllHas(n.args, i);
  }

  /** Everything below something below is below. */
  lemma {:induction false} BelowTransitive<Op>(n: Node<Op>, x: Node<Op>)
    requires x in Below(n)
    ensures Below(x) <= Below(n) && Height(x) <= Height(n) && (x != n ==> Height(x) < Height(n))
    decreases n
  {
    if x != n {
      var i := BelowAllSplits(n.args, x);
      BelowTransitive(n.args[i], x);
      BelowAllHas(n.args, i);
    }
  }

  ghost predicate Closed<Op(!new)>(graph: set<Node<Op>>) {
    forall n, k :: n in graph && 0 <= k < |n.args| ==> n.args[k] in graph
  }

  lemma {:induction false} BelowAllIsClosed<Op(!new)>(nodes: seq<Node<Op>>)
    ensures Closed(BelowAll(nodes))
  {
    forall n, k | n in BelowAll(nodes) && 0 <= k < |n.args|
      ensures n.args[k] in BelowAll(nodes)
    {
      var i := BelowAllSplits(nodes, n);
      BelowTransitive(nodes[i], n);
      ArgBelow(n, k);
      BelowAllHas(nodes, i);
    }
  }

  lemma {:induction false} ClosedHasBelow<Op(!new)>(pool: set<Node<Op>>, n: Node<Op>)
    requires Closed(pool) && n in pool
    ensures Below(n) <= pool
    decreases n
  {
    forall x | x in Below(n)
      ensures x in pool
    {
      if x != n {
        var i := BelowAllSplits(n.args, x);
        ClosedHasBelow(pool, n.args[i]);
      }
    }
  }

  lemma ClosedHasBelowAll<Op(!new)>(pool: set<Node<Op>>, nodes: seq<Node<Op>>)
    requires Closed(pool) && forall x :: x in nodes ==> x in pool
    ensures BelowAll(nodes) <= pool
  {
    forall x | x in BelowAll(nodes)
      ensures x in pool
    {
      var i := BelowAllSplits(nodes, x);
      ClosedHasBelow(pool, nodes[i]);
    }
  }

  // ----- Orders

  ghost predicate HasId<Op>(nodes: seq<Node<Op>>, id: nat) {
    exists i :: 0 <= i < |nodes| && nodes[i].id == id
  }

  ghost predicate DistinctIds<Op>(nodes: seq<Node<Op>>) {
    forall i, j :: 0 <= i < j < |nodes| ==> nodes[i].id != nodes[j].id
  }

  /** Every child of the node at `i` stands before it. */
  ghost predicate ArgsBefore<Op>(order: seq<Node<Op>>, i: nat)
    requires i < |order|
  {
    forall k :: 0 <= k < |order[i].args| ==> order[i].args[k] in order[..i]
  }

  /** No node twice, and children before parents. */
  ghost predicate Topological<Op>(order: seq<Node<Op>>) {
    DistinctIds(order) && forall i :: 0 <= i < |order| ==> ArgsBefore(order, i)
  }

  lemma TopologicalSnoc<Op>(order: seq<Node<Op>>, n: Node<Op>)
    requires Topological(order) && !HasId(order, n.id)
    requires forall k :: 0 <= k < |n.args| ==> n.args[k] in order
    ensures Topological(order + [n])
  {
    var longer := order + [n];
    forall i | 0 <= i < |longer|
      ensures ArgsBefore(longer, i)
    {
      assert longer[..i] == order[..i];
      if i < |order| {
        assert ArgsBefore(order, i);
      } else {
        assert order[..i] == order;
      }
    }
  }

  /** A topological order holds everything below its nodes. */
  lemma {:induction false} TopologicalIsClosed<Op>(order: seq<Node<Op>>, n: Node<Op>, x: Node<Op>)
    requires Topological(order) && n in order && x in Below(n)
    ensures x in order
    decreases n
  {
    if x != n {
      var i := BelowAllSplits(n.args, x);
      var k :| 0 <= k < |order| && order[k] == n;
      assert ArgsBefore(order, k);
      TopologicalIsClosed(order, n.args[i], x);
    }
  }

  // ----- Depth-first postorder

  function Reversed<T>(s: seq<T>): seq<T> {
    if s == [] then [] else Reversed(s[1..]) + [s[0]]
  }

  /** The order in which children are visited. */
  function Visits<Op>(n: Node<Op>, backwards: bool): seq<Node<Op>> {
    if backwards then Reversed(n.args) else n.args
  }

  /** Recursive depth-first postorder, extending an order already found. */
  ghost function Visit<Op(!new)>(n: Node<Op>, backwards: bool, order: seq<Node<Op>>): seq<Node<Op>>
    decreases Height(n), 1, 0
  {
    if HasId(order, n.id) then order
    else
      VisitsAreBelow(n, backwards);
      VisitAll(Visits(n, backwards), backwards, order) + [n]
  }

  ghost function VisitAll<Op(!new)>(nodes: seq<Node<Op>>, backwards: bool, order: seq<Node<Op>>): seq<Node<Op>>
    decreases HeightAll(nodes), 2, |nodes|
  {
    if nodes == [] then order
    else VisitAll(nodes[1..], backwards, Visit(nodes[0], backwards, order))
  }

  lemma {:induction false} ReversedHas<T>(s: seq<T>, x: T)
    ensures |Reversed(s)| == |s|
    ensures x in Reversed(s) <==> x in s
  {
    if s != [] {
      ReversedHas(s[1..], x);
      assert s == [s[0]] + s[1..];
    }
  }

  lemma {:induction false} HeightAllBound<Op>(nodes: seq<Node<Op>>, h: nat)
    requires forall x :: x in nodes ==> Height(x) <= h
    ensures HeightAll(nodes) <= h
  {
    if nodes != [] {
      assert nodes[0] in nodes;
      HeightAllBound(nodes[1..], h);
    }
  }

  lemma VisitsHas<Op>(n: Node<Op>, backwards: bool, x: Node<Op>)
    ensures x in Visits(n, backwards) <==> x in n.args
  {
    if backwards {
      ReversedHas(n.args, x);
    }
  }

  lemma VisitsAreBelow<Op(!new)>(n: Node<Op>, backwards: bool)
    ensures HeightAll(Visits(n, backwards)) < Height(n)
    ensures forall x :: x in Visits(n, backwards) <==> x in n.args
  {
    forall x
      ensures x in Visits(n, backwards) <==> x in n.args
    {
      VisitsHas(n, backwards, x);
    }
    forall x | x in Visits(n, backwards)
      ensures Height(x) <= HeightAll(n.args)
    {
      var i :| 0 <= i < |n.args| && n.args[i] == x;
      BelowAllHas(n.args, i);
    }
    HeightAllBound(Visits(n, backwards), HeightAll(n.args));
  }

  /** The nodes so far, all from one coherent graph, in topological order. */
  ghost predicate GoodOrder<Op(!new)>(graph: set<Node<Op>>, order: seq<Node<Op>>) {
    Coherent(graph) && Topological(order) && forall x :: x in order ==> x in graph
  }

  /** Visiting a node of a coherent graph appends what is below it and missing, in topological order. */
  lemma {:induction false} VisitOrders<Op(!new)>(n: Node<Op>, backwards: bool, order: seq<Node<Op>>, graph: set<Node<Op>>)
    requires GoodOrder(graph, order) && Closed(graph) && n in graph
    ensures var r := Visit(n, backwards, order);
            && GoodOrder(graph, r) && order <= r && n in r
            && (forall x :: x in r ==> x in order || x in Below(n))
    decreases Height(n), 1, 0
  {
    if HasId(order, n.id) {
      var i :| 0 <= i < |order| && order[i].id == n.id;
      assert order[i] in order;
    } else {
      VisitsAreBelow(n, backwards);
      var children := Visits(n, backwards);
      forall x | x in children
        ensures x in graph
      {
        assert x in n.args;
        var k :| 0 <= k < |n.args| && n.args[k] == x;
      }
      VisitAllOrders(children, backwards, order, graph);
      var r := VisitAll(children, backwards, order);
      forall x | x in r && x !in order
        ensures x in Below(n) && x != n
      {
        var i := BelowAllSplits(children, x);
        assert children[i] in n.args;
        var k :| 0 <= k < |n.args| && n.args[k] == children[i];
        BelowAllHas(n.args, k);
        BelowTransitive(n.args[k], x);
        ArgBelow(n, k);
      }
      assert forall x :: x in order ==> x.id != n.id by {
        assert forall i :: 0 <= i < |order| ==> order[i].id != n.id;
      }
      assert forall i :: 0 <= i < |r| ==> r[i] in r && r[i].id != n.id;
      forall k | 0 <= k < |n.args|
        ensures n.args[k] in r
      {
        assert n.args[k] in children;
      }
      TopologicalSnoc(r, n);
    }
  }

  lemma {:induction false} VisitAllOrders<Op(!new)>(nodes: seq<Node<Op>>, backwards: bool, order: seq<Node<Op>>, graph: set<Node<Op>>)
    requires GoodOrder(graph, order) && Closed(graph) && forall x :: x in nodes ==> x in graph
    ensures var r := VisitAll(nodes, backwards, order);
            && GoodOrder(graph, r) && order <= r
            && (forall x :: x in nodes ==> x in r)
            && (forall x :: x in r ==> x in order || x in BelowAll(nodes))
    decreases HeightAll(nodes), 2, |nodes|
  {
    if nodes != [] {
      assert nodes[0] in nodes;
      VisitOrders(nodes[0], backwards, order, graph);
      VisitAllOrders(nodes[1..], backwards, Visit(nodes[0], backwards, order), graph);
      assert forall x :: x in nodes <==> x == nodes[0] || x in nodes[1..];
    }
  }

  // ----- The explicit-stack walk

  /** A stack entry: a node, and whether it is to be emitted rather than expanded. */
  type Work<Op> = (Node<Op>, bool)

  /** The order once the stack has been worked off, its last entry first. */
  ghost function Finish<Op(!new)>(stack: seq<Work<Op>>, backwards: bool, order: seq<Node<Op>>): seq<Node<Op>>
    decreases |stack|
  {
    if stack == [] then order
    else
      var (n, emit) := stack[|stack| - 1];
      Finish(stack[..|stack| - 1], backwards, if emit then order + [n] else Visit(n, backwards, order))
  }

  /** Nodes waiting to be expanded, pushed so that the first of the list ends on top. */
  function Push<Op>(stack: seq<Work<Op>>, nodes: seq<Node<Op>>): seq<Work<Op>> {
    if nodes == [] then stack else Push(stack, nodes[1..]) + [(nodes[0], false)]
  }

  lemma {:induction false} FinishPush<Op(!new)>(stack: seq<Work<Op>>, nodes: seq<Node<Op>>, backwards: bool, order: seq<Node<Op>>)
    ensures Finish(Push(stack, nodes), backwards, order) == Finish(stack, backwards, VisitAll(nodes, backwards, order))
    decreases |nodes|
  {
    if nodes != [] {
      var lower := Push(stack, nodes[1..]);
      assert (lower + [(nodes[0], false)])[..|lower|] == lower;
      FinishPush(stack, nodes[1..], backwards, Visit(nodes[0], backwards, order));
    }
  }

  /** Expanding a node that has not been visited: mark it, push its children, and the outcome is its visit. */
  lemma ExpandKeepsOutcome<Op(!new)>(stack: seq<Work<Op>>, backwards: bool, order: seq<Node<Op>>)
    requires stack != [] && !stack[|stack| - 1].1 && !HasId(order, stack[|stack| - 1].0.id)
    ensures Finish(Expanded(stack, Visits(stack[|stack| - 1].0, backwards)), backwards, order) == Finish(stack, backwards, order)
  {
    var rest, n := stack[..|stack| - 1], stack[|stack| - 1].0;
    VisitsAreBelow(n, backwards);
    FinishPush(rest + [(n, true)], Visits(n, backwards), backwards, order);
    assert (rest + [(n, true)])[..|rest|] == rest;
  }

  lemma {:induction false} PushIs<Op>(stack: seq<Work<Op>>, nodes: seq<Node<Op>>)
    ensures var next := Push(stack, nodes);
            && |next| == |stack| + |nodes| && next[..|stack|] == stack
            && (forall p :: |stack| <= p < |next| ==> !next[p].1 && next[p].0 in nodes)
            && (forall x :: x in nodes ==> exists p :: |stack| <= p < |next| && next[p] == (x, false))
  {
    if nodes != [] {
      PushIs(stack, nodes[1..]);
      var lower, next := Push(stack, nodes[1..]), Push(stack, nodes);
      forall x | x in nodes
        ensures exists p :: |stack| <= p < |next| && next[p] == (x, false)
      {
        if x == nodes[0] {
          assert next[|lower|] == (x, false);
        } else {
          assert x in nodes[1..];
          var p :| |stack| <= p < |lower| && lower[p] == (x, false);
          assert next[p] == lower[p];
        }
      }
    }
  }

  /** Every entry above an emission mark is below the marked node. */
  ghost predicate Nested<Op>(stack: seq<Work<Op>>) {
    forall p, q :: 0 <= p < q < |stack| && stack[p].1 ==> Height(stack[q].0) < Height(stack[p].0)
  }

  ghost predicate MarkedId<Op>(stack: seq<Work<Op>>, id: nat) {
    exists p :: 0 <= p < |stack| && stack[p].1 && stack[p].0.id == id
  }

  /** The visited ids are those emitted and those marked for emission, each once. */
  ghost predicate VisitedAre<Op>(stack: seq<Work<Op>>, order: seq<Node<Op>>, visited: set<nat>) {
    && (forall id :: id in visited <==> HasId(order, id) || MarkedId(stack, id))
    && (forall p :: 0 <= p < |stack| && stack[p].1 ==> !HasId(order, stack[p].0.id))
    && (forall p, q :: 0 <= p < q < |stack| && stack[p].1 && stack[q].1 ==> stack[p].0.id != stack[q].0.id)
  }

  ghost predicate Walking<Op(!new)>(graph: set<Node<Op>>, stack: seq<Work<Op>>, order: seq<Node<Op>>, visited: set<nat>) {
    && Coherent(graph) && Closed(graph)
    && (forall p :: 0 <= p < |stack| ==> stack[p].0 in graph)
    && (forall x :: x in order ==> x in graph)
    && Nested(stack)
    && VisitedAre(stack, order, visited)
  }

  /** A node found visited when it is popped for expansion has been emitted: it cannot be its own ancestor. */
  lemma VisitedIsEmitted<Op(!new)>(graph: set<Node<Op>>, stack: seq<Work<Op>>, order: seq<Node<Op>>, visited: set<nat>)
    requires Walking(graph, stack, order, visited) && stack != []
    requires !stack[|stack| - 1].1 && stack[|stack| - 1].0.id in visited
    ensures HasId(order, stack[|stack| - 1].0.id)
  {
    var n := stack[|stack| - 1].0;
    assert forall p :: 0 <= p < |stack| - 1 && stack[p].1 ==> Height(n) < Height(stack[p].0);
  }

  /** Skipping a visited node. */
  lemma SkipKeepsWalking<Op(!new)>(graph: set<Node<Op>>, stack: seq<Work<Op>>, order: seq<Node<Op>>, visited: set<nat>)
    requires Walking(graph, stack, order, visited) && stack != [] && !stack[|stack| - 1].1
    ensures Walking(graph, stack[..|stack| - 1], order, visited)
  {
    var rest := stack[..|stack| - 1];
    forall id
      ensures MarkedId(rest, id) <==> MarkedId(stack, id)
    {
      if MarkedId(stack, id) {
        var p :| 0 <= p < |stack| && stack[p].1 && stack[p].0.id == id;
        assert rest[p] == stack[p];
      }
      if MarkedId(rest, id) {
        var p :| 0 <= p < |rest| && rest[p].1 && rest[p].0.id == id;
        assert stack[p] == rest[p];
      }
    }
  }

  /** Emitting a marked node. */
  lemma EmitKeepsWalking<Op(!new)>(graph: set<Node<Op>>, stack: seq<Work<Op>>, order: seq<Node<Op>>, visited: set<nat>)
    requires Walking(graph, stack, order, visited) && stack != [] && stack[|stack| - 1].1
    ensures Walking(graph, stack[..|stack| - 1], order + [stack[|stack| - 1].0], visited)
  {
    var rest, n := stack[..|stack| - 1], stack[|stack| - 1].0;
    forall id
      ensures MarkedId(stack, id) <==> MarkedId(rest, id) || id == n.id
      ensures HasId(order + [n], id) <==> HasId(order, id) || id == n.id
    {
      if MarkedId(stack, id) {
        var p :| 0 <= p < |stack| && stack[p].1 && stack[p].0.id == id;
        assert p == |rest| || rest[p] == stack[p];
      }
      if MarkedId(rest, id) {
        var p :| 0 <= p < |rest| && rest[p].1 && rest[p].0.id == id;
        assert stack[p] == rest[p];
      }
      HasIdSnoc(order, n, id);
    }
  }

  lemma HasIdSnoc<Op>(order: seq<Node<Op>>, n: Node<Op>, id: nat)
    ensures HasId(order + [n], id) <==> HasId(order, id) || id == n.id
  {
    if HasId(order, id) {
      var i :| 0 <= i < |order| && order[i].id == id;
      assert (order + [n])[i].id == id;
    }
    if id == n.id {
      assert (order + [n])[|order|].id == id;
    }
  }

  /** `nodes` are children of the node on top of the stack. */
  ghost predicate PushesChildren<Op>(stack: seq<Work<Op>>, nodes: seq<Node<Op>>)
    requires stack != []
  {
    forall x :: x in nodes ==> x in stack[|stack| - 1].0.args
  }

  /** The stack after the node on top has been marked and some of its children pushed. */
  function Expanded<Op>(stack: seq<Work<Op>>, nodes: seq<Node<Op>>): seq<Work<Op>>
    requires stack != []
  {
    Push(stack[..|stack| - 1] + [(stack[|stack| - 1].0, true)], nodes)
  }

  lemma ExpandedIs<Op>(stack: seq<Work<Op>>, nodes: seq<Node<Op>>)
    requires stack != [] && PushesChildren(stack, nodes)
    ensures var (next, n) := (Expanded(stack, nodes), stack[|stack| - 1].0);
            && |next| == |stack| + |nodes|
            && (forall p :: 0 <= p < |stack| - 1 ==> next[p] == stack[p])
            && next[|stack| - 1] == (n, true)
            && (forall p :: |stack| <= p < |next| ==> !next[p].1 && next[p].0 in n.args && Height(next[p].0) < Height(n))
            && (forall x :: x in nodes ==> exists p :: |stack| <= p < |next| && next[p] == (x, false))
  {
    var rest, n, next := stack[..|stack| - 1], stack[|stack| - 1].0, Expanded(stack, nodes);
    var marked := rest + [(n, true)];
    PushIs(marked, nodes);
    assert forall p :: 0 <= p < |marked| ==> next[p] == next[..|marked|][p] == marked[p];
    forall p | |stack| <= p < |next|
      ensures Height(next[p].0) < Height(n)
    {
      var k :| 0 <= k < |n.args| && n.args[k] == next[p].0;
      ArgBelow(n, k);
    }
  }

  /** Expanding an unvisited node: its mark covers the children pushed above it. */
  lemma ExpandKeepsNested<Op>(stack: seq<Work<Op>>, nodes: seq<Node<Op>>)
    requires Nested(stack) && stack != [] && PushesChildren(stack, nodes)
    ensures Nested(Expanded(stack, nodes))
  {
    ExpandedIs(stack, nodes);
    assert forall p :: 0 <= p < |stack| - 1 && stack[p].1 ==> Height(stack[|stack| - 1].0) < Height(stack[p].0);
  }

  /** Expanding an unvisited node marks it and nothing else. */
  lemma ExpandKeepsVisited<Op>(stack: seq<Work<Op>>, nodes: seq<Node<Op>>, order: seq<Node<Op>>, visited: set<nat>)
    requires VisitedAre(stack, order, visited) && stack != [] && !stack[|stack| - 1].1 && PushesChildren(stack, nodes)
    requires stack[|stack| - 1].0.id !in visited
    ensures VisitedAre(Expanded(stack, nodes), order, visited + {stack[|stack| - 1].0.id})
  {
    var n, next := stack[|stack| - 1].0, Expanded(stack, nodes);
    ExpandedIs(stack, nodes);
    forall id
      ensures MarkedId(next, id) <==> MarkedId(stack, id) || id == n.id
    {
      if MarkedId(stack, id) {
        var p :| 0 <= p < |stack| && stack[p].1 && stack[p].0.id == id;
        assert next[p] == stack[p];
      }
      if MarkedId(next, id) {
        var p :| 0 <= p < |next| && next[p].1 && next[p].0.id == id;
        assert p < |stack| - 1 ==> stack[p] == next[p];
      }
    }
    assert forall p :: 0 <= p < |stack| - 1 && stack[p].1 ==> MarkedId(stack, stack[p].0.id);
  }

  lemma ExpandKeepsWalking<Op(!new)>(graph: set<Node<Op>>, stack: seq<Work<Op>>, nodes: seq<Node<Op>>, order: seq<Node<Op>>, visited: set<nat>)
    requires Walking(graph, stack, order, visited) && stack != [] && !stack[|stack| - 1].1 && PushesChildren(stack, nodes)
    requires stack[|stack| - 1].0.id !in visited
    ensures Walking(graph, Expanded(stack, nodes), order, visited + {stack[|stack| - 1].0.id})
  {
    var n, next := stack[|stack| - 1].0, Expanded(stack, nodes);
    ExpandedIs(stack, nodes);
    forall p | 0 <= p < |next|
      ensures next[p].0 in graph
    {
      if p >= |stack| {
        var k :| 0 <= k < |n.args| && n.args[k] == next[p].0;
      }
    }
    ExpandKeepsNested(stack, nodes);
    ExpandKeepsVisited(stack, nodes, order, visited);
  }

  lemma StartsWalking<Op(!new)>(roots: seq<Node<Op>>)
    requires Coherent(BelowAll(roots))
    ensures Walking(BelowAll(roots), Push([], roots), [], {})
  {
    BelowAllIsClosed(roots);
    PushIs([], roots);
    var stack := Push([], roots);
    forall p | 0 <= p < |stack|
      ensures !stack[p].1 && stack[p].0 in BelowAll(roots)
    {
      var i :| 0 <= i < |roots| && roots[i] == stack[p].0;
      BelowAllHas(roots, i);
    }
  }

  lemma SmallerSet(ids: set<nat>, visited: set<nat>, id: nat)
    requires id in ids && id !in visited
    ensures |ids - (visited + {id})| < |ids - visited|
  {
    assert ids - visited == (ids - (visited + {id})) + {id};
  }

  lemma {:induction false} ReversedSnoc<T>(s: seq<T>, x: T)
    ensures Reversed(s + [x]) == [x] + Reversed(s)
  {
    if s != [] {
      assert (s + [x])[1..] == s[1..] + [x];
      ReversedSnoc(s[1..], x);
    }
  }

  /** Pushes a node for emission and its children, the last one ending on top. */
  method PushForwards<Op>(stack: seq<Work<Op>>, node: Node<Op>) returns (deeper: seq<Work<Op>>)
    ensures deeper == Push(stack + [(node, true)], Visits(node, true))
  {
    deeper := stack + [(node, true)];
    for k := 0 to |node.args|
      invariant deeper == Push(stack + [(node, true)], Reversed(node.args[..k]))
    {
      assert node.args[..k + 1] == node.args[..k] + [node.args[k]];
      ReversedSnoc(node.args[..k], node.args[k]);
      deeper := deeper + [(node.args[k], false)];
    }
    assert node.args[..|node.args|] == node.args;
  }

  // ----- A whole traversal

  /** The depth-first postorder of the roots holds exactly the reachable nodes, each once, children first. */
  lemma PostorderIsReachable<Op(!new)>(roots: seq<Node<Op>>, backwards: bool)
    requires Coherent(BelowAll(roots))
    ensures var order := VisitAll(roots, backwards, []);
            Topological(order) && forall x :: x in order <==> x in BelowAll(roots)
  {
    BelowAllIsClosed(roots);
    forall x | x in roots
      ensures x in BelowAll(roots)
    {
      var i :| 0 <= i < |roots| && roots[i] == x;
      BelowAllHas(roots, i);
    }
    VisitAllOrders(roots, backwards, [], BelowAll(roots));
    var order := VisitAll(roots, backwards, []);
    forall x | x in BelowAll(roots)
      ensures x in order
    {
      var i := BelowAllSplits(roots, x);
      TopologicalIsClosed(order, roots[i], x);
    }
  }

  ghost function AllIds<Op>(roots: seq<Node<Op>>): set<nat> {
    set x | x in BelowAll(roots) :: x.id
  }

  /** The walk from `roots` with this much of it left finds their depth-first postorder. */
  ghost predicate Traversing<Op(!new)>(roots: seq<Node<Op>>, backwards: bool, stack: seq<Work<Op>>, order: seq<Node<Op>>, visited: set<nat>) {
    && Walking(BelowAll(roots), stack, order, visited)
    && Finish(stack, backwards, order) == VisitAll(roots, backwards, [])
    && visited <= AllIds(roots)
  }

  lemma TraversalStarts<Op(!new)>(roots: seq<Node<Op>>, backwards: bool)
    requires Coherent(BelowAll(roots))
    ensures Traversing(roots, backwards, Push([], roots), [], {})
  {
    FinishPush([], roots, backwards, []);
    StartsWalking(roots);
  }

  lemma TraversalEmits<Op(!new)>(roots: seq<Node<Op>>, backwards: bool, stack: seq<Work<Op>>, order: seq<Node<Op>>, visited: set<nat>)
    requires Traversing(roots, backwards, stack, order, visited) && stack != [] && stack[|stack| - 1].1
    ensures Traversing(roots, backwards, stack[..|stack| - 1], order + [stack[|stack| - 1].0], visited)
  {
    EmitKeepsWalking(BelowAll(roots), stack, order, visited);
  }

  lemma TraversalSkips<Op(!new)>(roots: seq<Node<Op>>, backwards: bool, stack: seq<Work<Op>>, order: seq<Node<Op>>, visited: set<nat>)
    requires Traversing(roots, backwards, stack, order, visited) && stack != [] && !stack[|stack| - 1].1
    requires stack[|stack| - 1].0.id in visited
    ensures Traversing(roots, backwards, stack[..|stack| - 1], order, visited)
  {
    VisitedIsEmitted(BelowAll(roots), stack, order, visited);
    SkipKeepsWalking(BelowAll(roots), stack, order, visited);
  }

  lemma TraversalExpands<Op(!new)>(roots: seq<Node<Op>>, backwards: bool, stack: seq<Work<Op>>, order: seq<Node<Op>>, visited: set<nat>)
    requires Traversing(roots, backwards, stack, order, visited) && stack != [] && !stack[|stack| - 1].1
    requires stack[|stack| - 1].0.id !in visited
    ensures var n := stack[|stack| - 1].0;
            && Traversing(roots, backwards, Expanded(stack, Visits(n, backwards)), order, visited + {n.id})
            && |AllIds(roots) - (visited + {n.id})| < |AllIds(roots) - visited|
  {
    var n := stack[|stack| - 1].0;
    VisitsAreBelow(n, backwards);
    ExpandKeepsWalking(BelowAll(roots), stack, Visits(n, backwards), order, visited);
    assert !HasId(order, n.id);
    ExpandKeepsOutcome(stack, backwards, order);
    SmallerSet(AllIds(roots), visited, n.id);
  }

  lemma EmittedWereVisited<Op(!new)>(stack: seq<Work<Op>>, order: seq<Node<Op>>, visited: set<nat>, x: Node<Op>)
    requires VisitedAre(stack, order, visited) && x in order
    ensures x.id in visited
  {
    var i :| 0 <= i < |order| && order[i] == x;
    assert HasId(order, x.id);
  }
}
