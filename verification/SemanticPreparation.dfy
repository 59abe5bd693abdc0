/**
 * Lowering of configured operations: one explicit-stack walk rebuilds the nodes whose children changed and replaces
 * configured operations by graphs of plain ones. The walk preserves the meaning of every root and the identity of
 * untouched nodes.
 */
module SemanticPreparation {
  import opened DTypes
  import opened NodeInfo
  import opened Wrappers
  import opened Dag
  import opened TensorGraph
  import opened Decomposition

  /** No configured operation at or below the node. */
  ghost predicate Unconfigured(n: Term) {
    forall x :: x in Below(n) ==> !x.op.Configured?
  }

  // ----- Construction of nodes

  /** The check made when a node is constructed from an operation and operands. */
  type Check = (Op, seq<Term>) -> bool

  ghost predicate SameInfos(a: seq<Term>, b: seq<Term>) {
    |a| == |b| && forall k :: 0 <= k < |a| ==> a[k].op.info == b[k].op.info
  }

  /** The check looks at the operation and at shape, type and device of the operands. */
  ghost predicate ChecksInfos(accepts: Check) {
    forall op, a, b :: SameInfos(a, b) ==> accepts(op, a) == accepts(op, b)
  }

  /** The nodes of the graph were themselves constructed. */
  ghost predicate Constructed(accepts: Check, graph: set<Term>) {
    forall x :: x in graph ==> accepts(x.op, x.args)
  }

  ghost predicate ConfiguredNodesFit(graph: set<Term>) {
    forall x :: x in graph && x.op.Configured? ==> ConfiguredFits(x)
  }

  ghost predicate IdsBelow(nodes: set<Term>, bound: nat) {
    forall x :: x in nodes ==> x.id < bound
  }

  // ----- What the table of prepared nodes promises

  ghost predicate SameMeaning(n: Term, m: Term) {
    n.op.info == m.op.info && forall w: World :: Meaning(w, n) == Meaning(w, m)
  }

  /** A prepared node: same meaning, nothing configured below, and the node itself when there was nothing to do. */
  ghost predicate Faithful(n: Term, prepared: Term) {
    && SameMeaning(prepared, n)
    && Unconfigured(prepared)
    && (Unconfigured(n) ==> prepared == n)
  }

  ghost predicate FaithfulTable(graph: set<Term>, mapped: map<nat, Term>) {
    forall x :: x in graph && x.id in mapped ==> Faithful(x, mapped[x.id])
  }

  /** All nodes known so far: the source graph and what has been created, with ids from `first` up to `next`. */
  ghost predicate Pool(graph: set<Term>, first: nat, pool: set<Term>, next: nat, mapped: map<nat, Term>) {
    && graph <= pool && Coherent(pool) && Closed(pool) && first <= next
    && IdsBelow(pool, next)
    && (forall x :: x in pool ==> x in graph || x.id >= first)
    && (forall id :: id in mapped ==> mapped[id] in pool)
  }

  // ----- One node

  /** The children of a node are all in the table. */
  ghost predicate ChildrenMapped(n: Term, mapped: map<nat, Term>) {
    forall k :: 0 <= k < |n.args| ==> n.args[k].id in mapped
  }

  function MappedArgs(n: Term, mapped: map<nat, Term>): (args: seq<Term>)
    requires ChildrenMapped(n, mapped)
    ensures |args| == |n.args| && forall k :: 0 <= k < |args| ==> args[k] == mapped[n.args[k].id]
  {
    seq(|n.args|, k requires 0 <= k < |n.args| => mapped[n.args[k].id])
  }

  /** Some child is no longer itself, told by identity. */
  predicate Changed(n: Term, mapped: map<nat, Term>)
    requires ChildrenMapped(n, mapped)
  {
    exists k :: 0 <= k < |n.args| && mapped[n.args[k].id].id != n.args[k].id
  }

  /** A node whose children are all themselves keeps its operands; otherwise some child had a configured operation below. */
  lemma ChangedMeans(graph: set<Term>, first: nat, pool: set<Term>, next: nat, n: Term, mapped: map<nat, Term>)
    requires Pool(graph, first, pool, next, mapped) && FaithfulTable(graph, mapped)
    requires n in graph && Closed(graph) && ChildrenMapped(n, mapped)
    ensures !Changed(n, mapped) ==> MappedArgs(n, mapped) == n.args
    ensures Changed(n, mapped) ==> !Unconfigured(n)
  {
    forall k | 0 <= k < |n.args|
      ensures mapped[n.args[k].id].id == n.args[k].id ==> mapped[n.args[k].id] == n.args[k]
      ensures mapped[n.args[k].id] != n.args[k] ==> !Unconfigured(n)
    {
      var c := n.args[k];
      assert c in graph && mapped[c.id] in pool && Faithful(c, mapped[c.id]);
      ArgBelow(n, k);
      BelowTransitive(n, c);
    }
  }

  /** The node with its prepared operands: same meaning, and nothing configured strictly below. */
  lemma RebuiltMeans(graph: set<Term>, n: Term, mapped: map<nat, Term>, current: Term)
    requires FaithfulTable(graph, mapped) && n in graph && Closed(graph) && ChildrenMapped(n, mapped)
    requires current.op == n.op && current.args == MappedArgs(n, mapped)
    requires current.id == n.id || !n.op.Source?
    ensures SameMeaning(current, n) && SameInfos(current.args, n.args)
    ensures forall x :: x in BelowAll(current.args) ==> !x.op.Configured?
  {
    forall k | 0 <= k < |n.args|
      ensures SameMeaning(current.args[k], n.args[k])
    {
      assert n.args[k] in graph && Faithful(n.args[k], mapped[n.args[k].id]);
    }
    forall w: World
      ensures Meaning(w, current) == Meaning(w, n)
    {
      assert forall k :: 0 <= k < |n.args| ==> SameMeaning(current.args[k], n.args[k]);
      MeaningsAgree(w, current, n);
    }
    forall x | x in BelowAll(current.args)
      ensures !x.op.Configured?
    {
      var k := BelowAllSplits(current.args, x);
      assert n.args[k] in graph && Faithful(n.args[k], mapped[n.args[k].id]);
    }
  }

  /** Whether a configured node fits depends on its operands' metadata alone. */
  lemma StillFits(n: Term, current: Term)
    requires n.op.Configured? && ConfiguredFits(n) && current.op == n.op && SameInfos(current.args, n.args)
    ensures ConfiguredFits(current)
  {
    assert forall k :: 0 <= k < 3 ==> current.args[k].op.info == n.args[k].op.info;
  }

  /** A rebuilt node joins the pool under the next id. */
  lemma PoolRebuilds(graph: set<Term>, first: nat, pool: set<Term>, next: nat, mapped: map<nat, Term>, current: Term)
    requires Pool(graph, first, pool, next, mapped)
    requires current.id == next && forall k :: 0 <= k < |current.args| ==> current.args[k] in pool
    ensures Pool(graph, first, pool + {current}, next + 1, mapped)
  {
  }

  /** So do the nodes of a replacement. */
  lemma PoolReplaces(graph: set<Term>, first: nat, pool: set<Term>, next: nat, mapped: map<nat, Term>,
                     args: seq<Term>, n: Term, after: nat)
    requires Pool(graph, first, pool, next, mapped) && forall x :: x in args ==> x in pool
    requires GrowsFrom(args, next, n, after)
    ensures Pool(graph, first, pool + Below(n), after, mapped) && n in pool + Below(n)
  {
    ClosedHasBelowAll(pool, args);
    forall x | x in Below(n)
      ensures x in pool || next <= x.id < after
    {
      assert x in BelowAll(args) ==> x in pool;
    }
    var larger := pool + Below(n);
    forall x, k | x in larger && 0 <= k < |x.args|
      ensures x.args[k] in larger
    {
      if x in Below(n) {
        BelowTransitive(n, x);
        ArgBelow(x, k);
      }
    }
  }

  /** Entering a prepared node into the table. */
  lemma TableGrows(graph: set<Term>, first: nat, pool: set<Term>, next: nat, mapped: map<nat, Term>, n: Term, prepared: Term)
    requires Pool(graph, first, pool, next, mapped) && FaithfulTable(graph, mapped) && Coherent(graph) && n in graph
    requires prepared in pool && Faithful(n, prepared)
    ensures Pool(graph, first, pool, next, mapped[n.id := prepared]) && FaithfulTable(graph, mapped[n.id := prepared])
  {
  }

  /** Sources have no operands. */
  ghost predicate SourcesAreLeaves(graph: set<Term>) {
    forall x :: x in graph && x.op.Source? ==> x.args == []
  }

  /** A node whose operands are unconfigured and that was left alone is unconfigured. */
  lemma KeptIsUnconfigured(current: Term)
    requires !current.op.Configured? && forall x :: x in BelowAll(current.args) ==> !x.op.Configured?
    ensures Unconfigured(current)
  {
  }

  /** A node standing for another, over prepared operands. */
  ghost predicate StandsFor(current: Term, n: Term) {
    && current.op == n.op && SameMeaning(current, n)
    && (forall x :: x in BelowAll(current.args) ==> !x.op.Configured?)
    && (n.op.Configured? ==> ConfiguredFits(current))
    && (Unconfigured(n) ==> current == n)
  }

  lemma ReplacementMeans(current: Term, first: nat)
    requires current.op.Configured? && ConfiguredFits(current)
    ensures SameMeaning(Decompose(current, first).value.0, current)
  {
    forall w: World
      ensures Meaning(w, Decompose(current, first).value.0) == Meaning(w, current)
    {
      DecomposeMeans(w, current, first);
    }
    DecomposeKeepsInfo(current, first);
  }

  lemma ReplacementIsFaithful(n: Term, current: Term, replacement: Term, first: nat, after: nat)
    requires n.op.Configured? && StandsFor(current, n)
    requires SameMeaning(replacement, current) && GrowsFrom(current.args, first, replacement, after)
    ensures Faithful(n, replacement)
  {
    assert n in Below(n);
    forall w: World
      ensures Meaning(w, replacement) == Meaning(w, n)
    {
      assert Meaning(w, replacement) == Meaning(w, current);
    }
  }

  /** Replacing a configured node whose operands are prepared. */
  lemma ReplacesNode(graph: set<Term>, first: nat, pool: set<Term>, next: nat, mapped: map<nat, Term>, n: Term, current: Term)
    returns (grown: set<Term>)
    requires Pool(graph, first, pool, next, mapped) && FaithfulTable(graph, mapped) && Coherent(graph) && n in graph
    requires n.op.Configured? && StandsFor(current, n) && current in pool
    ensures var (replacement, after) := Decompose(current, next).value;
            && Pool(graph, first, grown, after, mapped[n.id := replacement]) && FaithfulTable(graph, mapped[n.id := replacement])
  {
    var (replacement, after) := Decompose(current, next).value;
    OperandsInPool(graph, first, pool, next, mapped, current);
    DecomposeGrows(current, next);
    ReplacementMeans(current, next);
    ReplacementIsFaithful(n, current, replacement, next, after);
    PoolReplaces(graph, first, pool, next, mapped, current.args, replacement, after);
    grown := pool + Below(replacement);
    TableGrows(graph, first, grown, after, mapped, n, replacement);
  }

  /** A configured node over operands without any is lowered to a different graph of the same meaning. */
  lemma ConfiguredIsLowered(n: Term, first: nat)
    requires n.op.Configured? && ConfiguredFits(n) && Coherent(BelowAll(n.args)) && IdsBelow(BelowAll(n.args), first)
    requires forall x :: x in BelowAll(n.args) ==> !x.op.Configured?
    ensures var replacement := Decompose(n, first).value.0; Faithful(n, replacement) && replacement != n
  {
    var (replacement, after) := Decompose(n, first).value;
    assert n in Below(n);
    DecomposeGrows(n, first);
    ReplacementMeans(n, first);
    ReplacementIsFaithful(n, n, replacement, first, after);
    assert replacement in Below(replacement);
  }

  /** There are such nodes: a rotation of two tokens of width two. */
  lemma SomeNodeIsLowered()
    ensures exists n: Term, m: Term :: n.op.Configured? && ConfiguredFits(n) && Faithful(n, m) && m != n
  {
    var info := Info([2, 2], F32, Cpu(0));
    var x := Node(0, Source(0, info), []);
    var positions := Node(1, Source(1, Info([2], I64, Cpu(0))), []);
    var frequencies := Node(2, Source(2, Info([1], F32, Cpu(0))), []);
    var n := Node(3, Configured(Rotary(HalfSplit), info), [x, positions, frequencies]);
    forall y | y in BelowAll(n.args)
      ensures y == x || y == positions || y == frequencies
    {
      var k := BelowAllSplits(n.args, y);
      assert BelowAll(n.args[k].args) == {};
    }
    assert ConfiguredFits(n);
    ConfiguredIsLowered(n, 4);
  }

  lemma KeptIsFaithful(n: Term, current: Term)
    requires !n.op.Configured? && StandsFor(current, n)
    ensures Faithful(n, current)
  {
    KeptIsUnconfigured(current);
  }

  lemma KeepsNode(graph: set<Term>, first: nat, pool: set<Term>, next: nat, mapped: map<nat, Term>, n: Term, current: Term)
    requires Pool(graph, first, pool, next, mapped) && FaithfulTable(graph, mapped) && Coherent(graph) && n in graph
    requires !n.op.Configured? && StandsFor(current, n) && current in pool
    ensures Pool(graph, first, pool, next, mapped[n.id := current]) && FaithfulTable(graph, mapped[n.id := current])
  {
    KeptIsFaithful(n, current);
    TableGrows(graph, first, pool, next, mapped, n, current);
  }

  lemma RebuiltStands(graph: set<Term>, first: nat, pool: set<Term>, next: nat, mapped: map<nat, Term>, n: Term, current: Term)
    requires Pool(graph, first, pool, next, mapped) && FaithfulTable(graph, mapped) && ConfiguredNodesFit(graph) && SourcesAreLeaves(graph)
    requires n in graph && Closed(graph) && ChildrenMapped(n, mapped)
    requires current == if Changed(n, mapped) then Node(next, n.op, MappedArgs(n, mapped)) else n
    ensures StandsFor(current, n) && SameInfos(MappedArgs(n, mapped), n.args)
  {
    ChangedMeans(graph, first, pool, next, n, mapped);
    RebuiltMeans(graph, n, mapped, current);
    if n.op.Configured? {
      StillFits(n, current);
    }
  }

  /** The node itself, or rebuilt over its prepared operands when one of them changed. */
  method Rebuild(accepts: Check, node: Term, mapped: map<nat, Term>, next: nat, ghost graph: set<Term>, ghost first: nat, ghost pool: set<Term>)
    returns (r: Result<(Term, nat), string>, ghost grown: set<Term>)
    requires Pool(graph, first, pool, next, mapped) && FaithfulTable(graph, mapped)
    requires Closed(graph) && SourcesAreLeaves(graph) && ConfiguredNodesFit(graph)
    requires node in graph && ChildrenMapped(node, mapped)
    ensures r.Success? ==>
      && r.value == (if Changed(node, mapped) then (Node(next, node.op, MappedArgs(node, mapped)), next + 1) else (node, next))
      && Pool(graph, first, grown, r.value.1, mapped) && StandsFor(r.value.0, node) && r.value.0 in grown
    ensures ChecksInfos(accepts) && Constructed(accepts, graph) ==> r.Success?
  {
    grown := pool;
    if !Changed(node, mapped) {
      RebuiltStands(graph, first, pool, next, mapped, node, node);
      return Success((node, next)), grown;
    }
    var args := MappedArgs(node, mapped);
    var current := Node(next, node.op, args);
    RebuiltStands(graph, first, pool, next, mapped, node, current);
    if !accepts(node.op, args) {
      return Failure("operands do not fit"), grown;
    }
    PoolRebuilds(graph, first, pool, next, mapped, current);
    return Success((current, next + 1)), pool + {current};
  }

  /** Rebuilds a node if its children changed, and replaces it if it is configured. */
  method PrepareNode(accepts: Check, node: Term, mapped: map<nat, Term>, next: nat,
                     ghost graph: set<Term>, ghost first: nat, ghost pool: set<Term>)
    returns (r: Result<(Term, nat), string>, ghost grown: set<Term>)
    requires Pool(graph, first, pool, next, mapped) && FaithfulTable(graph, mapped)
    requires Coherent(graph) && Closed(graph) && SourcesAreLeaves(graph) && ConfiguredNodesFit(graph)
    requires node in graph && ChildrenMapped(node, mapped)
    ensures r.Success? ==>
      var table := mapped[node.id := r.value.0];
      Pool(graph, first, grown, r.value.1, table) && FaithfulTable(graph, table)
    ensures ChecksInfos(accepts) && Constructed(accepts, graph) ==> r.Success?
  {
    var current;
    current, grown := Rebuild(accepts, node, mapped, next, graph, first, pool);
    if current.Failure? {
      return current, grown;
    }
    var replacement := Decompose(current.value.0, current.value.1);
    if replacement.None? {
      KeepsNode(graph, first, grown, current.value.1, mapped, node, current.value.0);
      return current, grown;
    }
    grown := ReplacesNode(graph, first, grown, current.value.1, mapped, node, current.value.0);
    return Success(replacement.value), grown;
  }

  lemma OperandsInPool(graph: set<Term>, first: nat, pool: set<Term>, next: nat, mapped: map<nat, Term>, current: Term)
    requires Pool(graph, first, pool, next, mapped) && current in pool
    ensures forall x :: x in current.args ==> x in pool
    ensures IdsBelow(BelowAll(current.args), next) && Coherent(BelowAll(current.args))
  {
    forall x | x in current.args
      ensures x in pool
    {
      var k :| 0 <= k < |current.args| && current.args[k] == x;
    }
    ClosedHasBelowAll(pool, current.args);
  }

  // ----- The walk

  /** Every child of a marked node is in the table or waits above the mark. */
  ghost predicate ChildrenComing(stack: seq<Work<Op>>, mapped: map<nat, Term>) {
    forall p, k :: 0 <= p < |stack| && stack[p].1 && 0 <= k < |stack[p].0.args| ==> Coming(stack, p, stack[p].0.args[k], mapped)
  }

  ghost predicate Coming(stack: seq<Work<Op>>, p: int, child: Term, mapped: map<nat, Term>) {
    child.id in mapped || exists q :: p < q < |stack| && 0 <= q && stack[q].0 == child
  }

  /** Every root is in the table or on the stack. */
  ghost predicate RootsComing(roots: seq<Term>, stack: seq<Work<Op>>, mapped: map<nat, Term>) {
    forall i :: 0 <= i < |roots| ==> Coming(stack, -1, roots[i], mapped)
  }

  /** Dropping the top entry once its node is in the table. */
  lemma PopKeepsComing(roots: seq<Term>, stack: seq<Work<Op>>, mapped: map<nat, Term>, more: map<nat, Term>)
    requires stack != [] && ChildrenComing(stack, mapped) && RootsComing(roots, stack, mapped)
    requires mapped.Keys <= more.Keys && stack[|stack| - 1].0.id in more
    ensures ChildrenComing(stack[..|stack| - 1], more) && RootsComing(roots, stack[..|stack| - 1], more)
  {
    var rest := stack[..|stack| - 1];
    forall p: int, child | p < |rest| && Coming(stack, p, child, mapped)
      ensures Coming(rest, p, child, more)
    {
      if child.id !in mapped {
        var q :| p < q < |stack| && 0 <= q && stack[q].0 == child;
        assert q == |rest| || rest[q] == stack[q];
      }
    }
    forall p, k | 0 <= p < |rest| && rest[p].1 && 0 <= k < |rest[p].0.args|
      ensures Coming(rest, p, rest[p].0.args[k], more)
    {
      assert stack[p] == rest[p] && Coming(stack, p, stack[p].0.args[k], mapped);
    }
  }

  /** Marking the top entry and pushing its children that are not in the table. */
  lemma ExpandKeepsComing(roots: seq<Term>, stack: seq<Work<Op>>, nodes: seq<Term>, mapped: map<nat, Term>)
    requires stack != [] && !stack[|stack| - 1].1 && ChildrenComing(stack, mapped) && RootsComing(roots, stack, mapped)
    requires PushesChildren(stack, nodes)
    requires forall x :: x in stack[|stack| - 1].0.args ==> x.id in mapped || x in nodes
    ensures ChildrenComing(Expanded(stack, nodes), mapped) && RootsComing(roots, Expanded(stack, nodes), mapped)
  {
    var next := Expanded(stack, nodes);
    ExpandedIs(stack, nodes);
    forall p: int, child | Coming(stack, p, child, mapped)
      ensures Coming(next, p, child, mapped)
    {
      if child.id !in mapped {
        var q :| p < q < |stack| && 0 <= q && stack[q].0 == child;
        assert next[q].0 == child;
      }
    }
    forall p, k | 0 <= p < |next| && next[p].1 && 0 <= k < |next[p].0.args|
      ensures Coming(next, p, next[p].0.args[k], mapped)
    {
      if p < |stack| - 1 {
        assert stack[p] == next[p] && Coming(stack, p, stack[p].0.args[k], mapped);
      } else {
        var child := next[p].0.args[k];
        assert child in stack[|stack| - 1].0.args;
        if child.id !in mapped {
          var q :| |stack| <= q < |next| && next[q] == (child, false);
        }
      }
    }
  }

  /** The walk so far: the table holds exactly the nodes already emitted. */
  ghost predicate Preparing(roots: seq<Term>, stack: seq<Work<Op>>, order: seq<Term>, visited: set<nat>, mapped: map<nat, Term>) {
    && Walking(BelowAll(roots), stack, order, visited)
    && visited <= AllIds(roots)
    && (forall id :: id in mapped <==> HasId(order, id))
    && Topological(order)
    && ChildrenComing(stack, mapped) && RootsComing(roots, stack, mapped)
  }

  lemma PreparationStarts(roots: seq<Term>)
    requires Coherent(BelowAll(roots))
    ensures Preparing(roots, Push([], roots), [], {}, map[])
  {
    StartsWalking(roots);
    PushIs([], roots);
    var stack := Push([], roots);
    forall i | 0 <= i < |roots|
      ensures Coming(stack, -1, roots[i], map[])
    {
      assert roots[i] in roots;
      var q :| 0 <= q < |stack| && stack[q] == (roots[i], false);
      assert stack[q].0 == roots[i];
    }
  }

  /** An entry whose node is already in the table is dropped; a marked entry is never such. */
  lemma PreparationSkips(roots: seq<Term>, stack: seq<Work<Op>>, order: seq<Term>, visited: set<nat>, mapped: map<nat, Term>)
    requires Preparing(roots, stack, order, visited, mapped) && stack != [] && stack[|stack| - 1].0.id in mapped
    ensures Preparing(roots, stack[..|stack| - 1], order, visited, mapped)
  {
    SkipKeepsWalking(BelowAll(roots), stack, order, visited);
    PopKeepsComing(roots, stack, mapped, mapped);
  }

  /** An entry met for the first time is marked, which no node is twice. */
  lemma PreparationExpands(roots: seq<Term>, stack: seq<Work<Op>>, nodes: seq<Term>, order: seq<Term>, visited: set<nat>, mapped: map<nat, Term>)
    requires Preparing(roots, stack, order, visited, mapped) && stack != [] && !stack[|stack| - 1].1
    requires stack[|stack| - 1].0.id !in mapped && PushesChildren(stack, nodes)
    requires forall x :: x in stack[|stack| - 1].0.args ==> x.id in mapped || x in nodes
    ensures var seen := visited + {stack[|stack| - 1].0.id};
            && Preparing(roots, Expanded(stack, nodes), order, seen, mapped)
            && |AllIds(roots) - seen| < |AllIds(roots) - visited|
  {
    var n := stack[|stack| - 1].0;
    if n.id in visited {
      VisitedIsEmitted(BelowAll(roots), stack, order, visited);
    }
    ExpandKeepsWalking(BelowAll(roots), stack, nodes, order, visited);
    ExpandKeepsComing(roots, stack, nodes, mapped);
    SmallerSet(AllIds(roots), visited, n.id);
  }

  /** A marked entry on top has all its children in the table. */
  lemma ReadyMeans(roots: seq<Term>, stack: seq<Work<Op>>, order: seq<Term>, visited: set<nat>, mapped: map<nat, Term>)
    requires Preparing(roots, stack, order, visited, mapped) && stack != [] && stack[|stack| - 1].1
    ensures ChildrenMapped(stack[|stack| - 1].0, mapped) && stack[|stack| - 1].0 in BelowAll(roots)
  {
    var top, n := |stack| - 1, stack[|stack| - 1].0;
    forall k | 0 <= k < |n.args|
      ensures n.args[k].id in mapped
    {
      assert Coming(stack, top, stack[top].0.args[k], mapped);
    }
  }

  /** It leaves the stack when it is entered. */
  lemma PreparationEmits(roots: seq<Term>, stack: seq<Work<Op>>, order: seq<Term>, visited: set<nat>,
                         mapped: map<nat, Term>, prepared: Term)
    requires Preparing(roots, stack, order, visited, mapped) && stack != [] && stack[|stack| - 1].1
    ensures var n := stack[|stack| - 1].0;
            Preparing(roots, stack[..|stack| - 1], order + [n], visited, mapped[n.id := prepared])
  {
    var n := stack[|stack| - 1].0;
    ReadyMeans(roots, stack, order, visited, mapped);
    forall k | 0 <= k < |n.args|
      ensures n.args[k] in order
    {
      EmittedIs(BelowAll(roots), order, n.args[k]);
    }
    TopologicalSnoc(order, n);
    EmitKeepsWalking(BelowAll(roots), stack, order, visited);
    PopKeepsComing(roots, stack, mapped, mapped[n.id := prepared]);
    forall id
      ensures HasId(order + [n], id) <==> HasId(order, id) || id == n.id
    {
      HasIdSnoc(order, n, id);
    }
  }

  lemma EmittedIs(graph: set<Term>, order: seq<Term>, x: Term)
    requires Coherent(graph) && x in graph && HasId(order, x.id) && forall y :: y in order ==> y in graph
    ensures x in order
  {
    var i :| 0 <= i < |order| && order[i].id == x.id;
    assert order[i] in order;
  }

  /** Once the stack is empty the table covers everything below the roots. */
  lemma AllPrepared(roots: seq<Term>, order: seq<Term>, visited: set<nat>, mapped: map<nat, Term>, x: Term)
    requires Preparing(roots, [], order, visited, mapped) && x in BelowAll(roots)
    ensures x.id in mapped
  {
    var i := BelowAllSplits(roots, x);
    BelowAllHas(roots, i);
    assert Coming([], -1, roots[i], mapped);
    EmittedIs(BelowAll(roots), order, roots[i]);
    TopologicalIsClosed(order, roots[i], x);
    var j :| 0 <= j < |order| && order[j] == x;
    assert HasId(order, x.id);
  }

  /** The prepared roots, read from a table that covers the graph. */
  lemma PreparationEnds(roots: seq<Term>, first: nat, pool: set<Term>, next: nat, order: seq<Term>, visited: set<nat>,
                        mapped: map<nat, Term>)
    requires Preparing(roots, [], order, visited, mapped)
    requires Pool(BelowAll(roots), first, pool, next, mapped) && FaithfulTable(BelowAll(roots), mapped)
    ensures Complete(roots, first, mapped)
  {
    forall x | x in BelowAll(roots)
      ensures x.id in mapped && Faithful(x, mapped[x.id])
    {
      AllPrepared(roots, order, visited, mapped, x);
    }
    forall i | 0 <= i < |roots|
      ensures roots[i] in BelowAll(roots)
    {
      BelowAllHas(roots, i);
    }
    forall prepared | AreFrom(prepared, mapped)
      ensures NewOrSource(roots, first, prepared)
    {
      PreparedFromPool(roots, first, pool, next, mapped, prepared);
    }
  }

  lemma PreparedFromPool(roots: seq<Term>, first: nat, pool: set<Term>, next: nat, mapped: map<nat, Term>, prepared: seq<Term>)
    requires Pool(BelowAll(roots), first, pool, next, mapped) && AreFrom(prepared, mapped)
    ensures NewOrSource(roots, first, prepared)
  {
    forall x | x in prepared
      ensures x in pool
    {
      var i :| 0 <= i < |prepared| && prepared[i] == x;
    }
    ClosedHasBelowAll(pool, prepared);
  }

  ghost predicate AreFrom(nodes: seq<Term>, mapped: map<nat, Term>) {
    forall i :: 0 <= i < |nodes| ==> exists id :: id in mapped && mapped[id] == nodes[i]
  }

  /** Together with the source graph the prepared one is coherent, and what is not a source node is newly numbered. */
  ghost predicate NewOrSource(roots: seq<Term>, first: nat, prepared: seq<Term>) {
    && Coherent(BelowAll(roots) + BelowAll(prepared))
    && forall x :: x in BelowAll(prepared) ==> x in BelowAll(roots) || x.id >= first
  }

  /** The children not yet in the table, in order. */
  function Missing(nodes: seq<Term>, mapped: map<nat, Term>): (missing: seq<Term>)
    ensures forall x :: x in missing <==> x in nodes && x.id !in mapped
  {
    if nodes == [] then []
    else (if nodes[0].id in mapped then [] else [nodes[0]]) + Missing(nodes[1..], mapped)
  }

  /** Pushes a node for processing and, above it, its missing children from the last to the first. */
  method PushMissing(stack: seq<Work<Op>>, node: Term, mapped: map<nat, Term>) returns (deeper: seq<Work<Op>>)
    ensures deeper == Push(stack + [(node, true)], Missing(node.args, mapped))
  {
    deeper := stack + [(node, true)];
    var k := |node.args|;
    while k > 0
      invariant 0 <= k <= |node.args|
      invariant deeper == Push(stack + [(node, true)], Missing(node.args[k..], mapped))
    {
      k := k - 1;
      assert node.args[k..][1..] == node.args[k + 1..];
      if node.args[k].id in mapped {
        assert Missing(node.args[k..], mapped) == Missing(node.args[k + 1..], mapped);
      } else {
        assert Missing(node.args[k..], mapped)[1..] == Missing(node.args[k + 1..], mapped);
        deeper := deeper + [(node.args[k], false)];
      }
    }
  }

  /** Enters the node on top of the stack, marked ready, into the table. */
  method Process(accepts: Check, stack: seq<Work<Op>>, mapped: map<nat, Term>, next: nat,
                 ghost roots: seq<Term>, ghost order: seq<Term>, ghost visited: set<nat>, ghost first: nat, ghost pool: set<Term>)
    returns (r: Result<(map<nat, Term>, nat), string>, ghost grown: set<Term>)
    requires SourcesAreLeaves(BelowAll(roots)) && ConfiguredNodesFit(BelowAll(roots))
    requires Preparing(roots, stack, order, visited, mapped) && stack != [] && stack[|stack| - 1].1
    requires Pool(BelowAll(roots), first, pool, next, mapped) && FaithfulTable(BelowAll(roots), mapped)
    ensures ChecksInfos(accepts) && Constructed(accepts, BelowAll(roots)) ==> r.Success?
    ensures r.Success? ==>
      && Preparing(roots, stack[..|stack| - 1], order + [stack[|stack| - 1].0], visited, r.value.0)
      && Pool(BelowAll(roots), first, grown, r.value.1, r.value.0) && FaithfulTable(BelowAll(roots), r.value.0)
  {
    var node := stack[|stack| - 1].0;
    ReadyMeans(roots, stack, order, visited, mapped);
    var prepared;
    prepared, grown := PrepareNode(accepts, node, mapped, next, BelowAll(roots), first, pool);
    if prepared.Failure? {
      return Failure(prepared.error), grown;
    }
    PreparationEmits(roots, stack, order, visited, mapped, prepared.value.0);
    return Success((mapped[node.id := prepared.value.0], prepared.value.1)), grown;
  }

  /** What the finished table promises about everything below the roots. */
  ghost predicate Complete(roots: seq<Term>, first: nat, table: map<nat, Term>) {
    && (forall x :: x in BelowAll(roots) ==> x.id in table && Faithful(x, table[x.id]))
    && (forall i :: 0 <= i < |roots| ==> roots[i] in BelowAll(roots))
    && (forall prepared :: AreFrom(prepared, table) ==> NewOrSource(roots, first, prepared))
  }

  /** The walk: fills the table for the whole graph below the roots, or stops at a refusal. */
  method PrepareTable(accepts: Check, roots: seq<Term>, firstId: nat) returns (r: Result<map<nat, Term>, string>)
    requires Coherent(BelowAll(roots)) && SourcesAreLeaves(BelowAll(roots)) && ConfiguredNodesFit(BelowAll(roots))
    requires IdsBelow(BelowAll(roots), firstId)
    ensures ChecksInfos(accepts) && Constructed(accepts, BelowAll(roots)) ==> r.Success?
    ensures r.Success? ==> Complete(roots, firstId, r.value)
  {
    ghost var pool, order, visited := BelowAll(roots), [], {};
    var mapped: map<nat, Term>, next := map[], firstId;
    var stack: seq<Work<Op>> := Push([], roots);
    PreparationStarts(roots);
    BelowAllIsClosed(roots);
    while stack != []
      invariant Preparing(roots, stack, order, visited, mapped)
      invariant Pool(BelowAll(roots), firstId, pool, next, mapped) && FaithfulTable(BelowAll(roots), mapped)
      decreases |AllIds(roots) - visited|, |stack|
    {
      var (node, ready) := stack[|stack| - 1];
      if node.id in mapped {
        PreparationSkips(roots, stack, order, visited, mapped);
        stack := stack[..|stack| - 1];
      } else if !ready {
        PreparationExpands(roots, stack, Missing(node.args, mapped), order, visited, mapped);
        visited := visited + {node.id};
        stack := PushMissing(stack[..|stack| - 1], node, mapped);
      } else {
        var processed;
        ghost var grown;
        processed, grown := Process(accepts, stack, mapped, next, roots, order, visited, firstId, pool);
        if processed.Failure? {
          return Failure(processed.error);
        }
        mapped, next := processed.value.0, processed.value.1;
        pool, order := grown, order + [node];
        stack := stack[..|stack| - 1];
      }
    }
    PreparationEnds(roots, firstId, pool, next, order, visited, mapped);
    return Success(mapped);
  }

  /** The entries of the roots. */
  method ReadRoots(roots: seq<Term>, first: nat, mapped: map<nat, Term>) returns (prepared: seq<Term>)
    requires Complete(roots, first, mapped)
    ensures |prepared| == |roots| && forall i :: 0 <= i < |roots| ==> Faithful(roots[i], prepared[i])
    ensures NewOrSource(roots, first, prepared)
  {
    prepared := [];
    for i := 0 to |roots|
      invariant |prepared| == i
      invariant forall j :: 0 <= j < i ==> roots[j].id in mapped && prepared[j] == mapped[roots[j].id]
    {
      prepared := prepared + [mapped[roots[i].id]];
    }
    forall i | 0 <= i < |prepared|
      ensures exists id :: id in mapped && mapped[id] == prepared[i]
    {
      assert prepared[i] == mapped[roots[i].id];
    }
  }

  /**
   * Prepares the graph below the roots. On success every root keeps its meaning, no configured operation is left,
   * a root with nothing to do is itself, and every node of the result is a source node or newly numbered.
   */
  method PrepareSemantics(accepts: Check, roots: seq<Term>, firstId: nat)
    returns (r: Result<seq<Term>, string>, ghost table: map<nat, Term>)
    requires Coherent(BelowAll(roots)) && SourcesAreLeaves(BelowAll(roots)) && ConfiguredNodesFit(BelowAll(roots))
    requires IdsBelow(BelowAll(roots), firstId)
    ensures ChecksInfos(accepts) && Constructed(accepts, BelowAll(roots)) ==> r.Success?
    ensures r.Success? ==>
      && |r.value| == |roots|
      && (forall i :: 0 <= i < |roots| ==> Faithful(roots[i], r.value[i]))
      && NewOrSource(roots, firstId, r.value)
      && (forall x :: x in BelowAll(roots) ==> x.id in table && Faithful(x, table[x.id]))
  {
    table := map[];
    var mapped := PrepareTable(accepts, roots, firstId);
    if mapped.Failure? {
      return Failure(mapped.error), table;
    }
    table := mapped.value;
    var prepared := ReadRoots(roots, firstId, mapped.value);
    return Success(prepared), table;
  }
}
