/**
 * The walks over a graph that differentiation needs, and the copy of a checkpoint's region: which nodes stay shared,
 * and why the copies stand for the originals.
 */
module Checkpoints {
  import opened Dag
  import opened ScalarGraph
  import opened AdjointRules

  // ----- Topological order

  /** Postorder of everything below a node, each node once, the node itself last. */
  method Topo(loss: Term) returns (order: seq<Term>)
    requires Coherent(Below(loss))
    ensures Topological(order) && (forall x :: x in order <==> x in Below(loss))
    ensures order != [] && order[|order| - 1] == loss
  {
    assert BelowAll([loss]) == Below(loss);
    var visited: set<nat> := {};
    var stack: seq<Work<Op>> := [(loss, false)];
    order := [];
    TraversalStarts([loss], true);
    assert stack == Push([], [loss]);
    while stack != []
      invariant Traversing([loss], true, stack, order, visited)
      decreases |AllIds([loss]) - visited|, |stack|
    {
      var (node, processed) := stack[|stack| - 1];
      if processed {
        TraversalEmits([loss], true, stack, order, visited);
        order := order + [node];
        stack := stack[..|stack| - 1];
      } else if node.id in visited {
        TraversalSkips([loss], true, stack, order, visited);
        stack := stack[..|stack| - 1];
      } else {
        TraversalExpands([loss], true, stack, order, visited);
        visited := visited + {node.id};
        stack := PushForwards(stack[..|stack| - 1], node);
      }
    }
    PostorderIsReachable([loss], true);
    assert order == VisitAll([loss], true, []) == Visit(loss, true, []);
  }

  // ----- What lies outside a checkpoint

  /** The nodes reachable from `n` without passing through the node numbered `c`. */
  ghost function Outside(n: Term, c: nat): set<Term>
    decreases n, 1
  {
    if n.id == c then {} else {n} + OutsideAll(n.args, c)
  }

  ghost function OutsideAll(nodes: seq<Term>, c: nat): set<Term>
    decreases nodes, 0
  {
    if nodes == [] then {} else Outside(nodes[0], c) + OutsideAll(nodes[1..], c)
  }

  lemma {:induction false} OutsideAllHas(nodes: seq<Term>, c: nat, k: nat)
    requires k < |nodes|
    ensures Outside(nodes[k], c) <= OutsideAll(nodes, c)
    decreases k
  {
    if k > 0 {
      OutsideAllHas(nodes[1..], c, k - 1);
    }
  }

  lemma {:induction false} OutsideAllSplits(nodes: seq<Term>, c: nat, x: Term) returns (k: nat)
    requires x in OutsideAll(nodes, c)
    ensures k < |nodes| && x in Outside(nodes[k], c)
    decreases |nodes|
  {
    if x in Outside(nodes[0], c) {
      k := 0;
    } else {
      k := OutsideAllSplits(nodes[1..], c, x);
      k := k + 1;
    }
  }

  /** What is outside stays outside on the way down, except at the checkpoint itself. */
  lemma {:induction false} OutsideStep(n: Term, c: nat, x: Term, k: nat)
    requires x in Outside(n, c) && k < |x.args| && x.args[k].id != c
    ensures x.args[k] in Outside(n, c)
    decreases n
  {
    if x == n {
      OutsideAllHas(n.args, c, k);
    } else {
      var i := OutsideAllSplits(n.args, c, x);
      OutsideStep(n.args[i], c, x, k);
      OutsideAllHas(n.args, c, i);
    }
  }

  lemma {:induction false} OutsideIsBelow(n: Term, c: nat, x: Term)
    requires x in Outside(n, c)
    ensures x in Below(n) && x.id != c
    decreases n
  {
    if x != n {
      var i := OutsideAllSplits(n.args, c, x);
      OutsideIsBelow(n.args[i], c, x);
      BelowAllHas(n.args, i);
    }
  }

  /** Handled: the checkpoint, a visited node, or one still on the stack. */
  ghost predicate Handled(x: Term, c: nat, visited: set<nat>, stack: seq<Term>) {
    x.id == c || x.id in visited || x in stack
  }

  ghost predicate Exploring(root: Term, c: nat, visited: set<nat>, stack: seq<Term>) {
    && Coherent(Below(root))
    && Handled(root, c, visited, stack)
    && (forall x :: x in stack ==> x.id == c || x in Outside(root, c))
    && (forall id :: id in visited ==> exists x :: x in Outside(root, c) && x.id == id)
    && (forall x, k :: x in Outside(root, c) && x.id in visited && 0 <= k < |x.args| ==> Handled(x.args[k], c, visited, stack))
  }

  /** Once nothing is left on the stack every outside node has been visited. */
  lemma {:induction false} ExploredAll(root: Term, c: nat, visited: set<nat>, n: Term, x: Term)
    requires Exploring(root, c, visited, []) && x in Outside(n, c)
    requires n.id in visited && n in Outside(root, c)
    ensures x.id in visited
    decreases n
  {
    if x != n {
      var k := OutsideAllSplits(n.args, c, x);
      assert Handled(n.args[k], c, visited, []);
      OutsideStep(root, c, n, k);
      ExploredAll(root, c, visited, n.args[k], x);
    }
  }

  lemma DropHandled(root: Term, c: nat, visited: set<nat>, stack: seq<Term>)
    requires Exploring(root, c, visited, stack) && stack != []
    requires stack[|stack| - 1].id == c || stack[|stack| - 1].id in visited
    ensures Exploring(root, c, visited, stack[..|stack| - 1])
  {
    var rest, top := stack[..|stack| - 1], stack[|stack| - 1];
    assert stack == rest + [top];
    forall x | Handled(x, c, visited, stack)
      ensures Handled(x, c, visited, rest)
    {
    }
  }

  lemma ExploreTop(root: Term, c: nat, visited: set<nat>, stack: seq<Term>)
    requires Exploring(root, c, visited, stack) && stack != []
    requires stack[|stack| - 1].id != c && stack[|stack| - 1].id !in visited
    ensures var top := stack[|stack| - 1];
            && Exploring(root, c, visited + {top.id}, stack[..|stack| - 1] + top.args)
            && top in Below(root)
  {
    var rest, top := stack[..|stack| - 1], stack[|stack| - 1];
    var seen, next := visited + {top.id}, rest + top.args;
    assert stack == rest + [top];
    assert top in stack;
    OutsideIsBelow(root, c, top);
    forall x | Handled(x, c, visited, stack)
      ensures Handled(x, c, seen, next)
    {
    }
    forall x | x in next
      ensures x.id == c || x in Outside(root, c)
    {
      if x !in rest {
        var k :| 0 <= k < |top.args| && top.args[k] == x;
        if x.id != c {
          OutsideStep(root, c, top, k);
        }
      }
    }
    forall x, k | x in Outside(root, c) && x.id in seen && 0 <= k < |x.args|
      ensures Handled(x.args[k], c, seen, next)
    {
      OutsideIsBelow(root, c, x);
      if x.id == top.id {
        assert x == top && x.args[k] in next;
      } else {
        assert Handled(x.args[k], c, visited, stack);
      }
    }
  }

  ghost function IdsOf(nodes: set<Term>): set<nat> {
    set x | x in nodes :: x.id
  }

  /** The ids of the nodes reachable from the last node of an order without passing through the checkpoint. */
  method OutsideSet(order: seq<Term>, checkpointId: nat) returns (visited: set<nat>)
    requires order != [] ==> Coherent(Below(order[|order| - 1]))
    ensures visited == if order == [] then {} else IdsOf(Outside(order[|order| - 1], checkpointId))
  {
    visited := {};
    if order == [] {
      return;
    }
    var root := order[|order| - 1];
    var stack := [root];
    while stack != []
      invariant Exploring(root, checkpointId, visited, stack)
      decreases |IdsOf(Below(root)) - visited|, |stack|
    {
      var node := stack[|stack| - 1];
      if node.id == checkpointId || node.id in visited {
        DropHandled(root, checkpointId, visited, stack);
        stack := stack[..|stack| - 1];
      } else {
        ExploreTop(root, checkpointId, visited, stack);
        SmallerSet(IdsOf(Below(root)), visited, node.id);
        visited := visited + {node.id};
        stack := PushAll(stack[..|stack| - 1], node.args);
      }
    }
    forall x | x in Outside(root, checkpointId)
      ensures x.id in visited
    {
      assert root.id != checkpointId;
      ExploredAll(root, checkpointId, visited, root, x);
    }
  }

  method PushAll(stack: seq<Term>, nodes: seq<Term>) returns (deeper: seq<Term>)
    ensures deeper == stack + nodes
  {
    deeper := stack;
    for k := 0 to |nodes|
      invariant deeper == stack + nodes[..k]
    {
      deeper := deeper + [nodes[k]];
    }
  }

  // ----- Copying a region

  /** Region nodes that stay shared: those seen from outside, and those without operands. */
  predicate Kept(n: Term, outside: set<nat>) {
    n.id in outside || n.args == []
  }

  /** What stands for a region node after the copy. */
  function Image(copies: map<nat, Term>, n: Term): Term {
    if n.id in copies then copies[n.id] else n
  }

  function Images(copies: map<nat, Term>, nodes: seq<Term>): (images: seq<Term>)
    ensures |images| == |nodes| && forall k :: 0 <= k < |nodes| ==> images[k] == Image(copies, nodes[k])
  {
    seq(|nodes|, k requires 0 <= k < |nodes| => Image(copies, nodes[k]))
  }

  /**
   * The first `count` nodes of the region have been dealt with: kept nodes are listed as shared, every other one has a
   * copy with a new id, the same operation and the images of its operands.
   */
  ghost predicate Copied(region: seq<Term>, count: nat, outside: set<nat>, copies: map<nat, Term>, shared: map<nat, Term>,
                         first: nat, next: nat)
    requires count <= |region|
  {
    && first <= next
    && (forall id :: id in copies ==> exists i :: 0 <= i < count && region[i].id == id && !Kept(region[i], outside))
    && (forall id :: id in shared ==> exists i :: 0 <= i < count && region[i].id == id && Kept(region[i], outside))
    && (forall i :: 0 <= i < count && Kept(region[i], outside) ==> region[i].id in shared && shared[region[i].id] == region[i])
    && (forall i :: 0 <= i < count && !Kept(region[i], outside) ==>
          region[i].id in copies && IsCopy(region[i], copies[region[i].id], copies, first, next))
    && (forall a, b :: a in copies && b in copies && a != b ==> copies[a].id != copies[b].id)
  }

  ghost predicate IsCopy(n: Term, copy: Term, copies: map<nat, Term>, first: nat, next: nat) {
    first <= copy.id < next && copy.op == n.op && copy.args == Images(copies, n.args)
  }

  /** Later copies do not disturb the image of an operand. */
  lemma CopyKeepsImages(region: seq<Term>, count: nat, outside: set<nat>, copies: map<nat, Term>, shared: map<nat, Term>,
                        first: nat, next: nat, copy: Term, i: nat)
    requires Topological(region) && count < |region| && i <= count
    requires Copied(region, count, outside, copies, shared, first, next)
    ensures Images(copies[region[count].id := copy], region[i].args) == Images(copies, region[i].args)
  {
    var more := copies[region[count].id := copy];
    assert ArgsBefore(region, i);
    forall k | 0 <= k < |region[i].args|
      ensures Image(more, region[i].args[k]) == Image(copies, region[i].args[k])
    {
      assert region[i].args[k] in region[..i];
      var j :| 0 <= j < i && region[j] == region[i].args[k];
      assert region[j].id != region[count].id;
    }
  }

  lemma CopiedOneMore(region: seq<Term>, count: nat, outside: set<nat>, copies: map<nat, Term>, shared: map<nat, Term>,
                      first: nat, next: nat, copy: Term)
    requires Topological(region) && count < |region| && !Kept(region[count], outside)
    requires Copied(region, count, outside, copies, shared, first, next)
    requires copy == Node(next, region[count].op, Images(copies, region[count].args))
    ensures Copied(region, count + 1, outside, copies[region[count].id := copy], shared, first, next + 1)
  {
    var more := copies[region[count].id := copy];
    assert forall i :: 0 <= i < count ==> region[i].id != region[count].id;
    forall i | 0 <= i < count + 1 && !Kept(region[i], outside)
      ensures region[i].id in more && IsCopy(region[i], more[region[i].id], more, first, next + 1)
    {
      CopyKeepsImages(region, count, outside, copies, shared, first, next, copy, i);
    }
    forall a, b | a in more && b in more && a != b
      ensures more[a].id != more[b].id
    {
      assert a in copies ==> copies[a].id < next;
      assert b in copies ==> copies[b].id < next;
    }
  }

  lemma KeptOneMore(region: seq<Term>, count: nat, outside: set<nat>, copies: map<nat, Term>, shared: map<nat, Term>, first: nat, next: nat)
    requires Topological(region) && count < |region| && Kept(region[count], outside)
    requires Copied(region, count, outside, copies, shared, first, next)
    ensures Copied(region, count + 1, outside, copies, shared[region[count].id := region[count]], first, next)
  {
    assert forall j :: 0 <= j < count ==> region[j].id != region[count].id;
  }

  method CopyRegion(ids: NodeIds, region: seq<Term>, outside: set<nat>) returns (copies: map<nat, Term>, shared: map<nat, Term>)
    requires Topological(region)
    modifies ids
    ensures Copied(region, |region|, outside, copies, shared, old(ids.next), ids.next)
  {
    copies, shared := map[], map[];
    for i := 0 to |region|
      invariant Copied(region, i, outside, copies, shared, old(ids.next), ids.next)
    {
      var node := region[i];
      if Kept(node, outside) {
        KeptOneMore(region, i, outside, copies, shared, old(ids.next), ids.next);
        shared := shared[node.id := node];
      } else {
        ghost var next := ids.next;
        var copy := ids.Make(node.op.kind, node.op.dtype, Images(copies, node.args));
        CopiedOneMore(region, i, outside, copies, shared, old(ids.next), next, copy);
        copies := copies[node.id := copy];
      }
    }
  }

  // ----- Copies stand for the originals

  /** A node of the region and its image agree in value, and in tangent unless the target itself was copied. */
  lemma {:induction false} ImageAgrees(w: World, t: nat, region: seq<Term>, outside: set<nat>, copies: map<nat, Term>,
                                       shared: map<nat, Term>, first: nat, next: nat, i: nat)
    requires Topological(region) && i < |region|
    requires Copied(region, |region|, outside, copies, shared, first, next)
    requires forall j :: 0 <= j < |region| ==> Typed(region[j])
    requires t < first && t !in copies
    ensures Eval(w, Image(copies, region[i])) == Eval(w, region[i])
    ensures Tangent(w, t, Image(copies, region[i])) == Tangent(w, t, region[i])
    decreases i
  {
    var n := region[i];
    if !Kept(n, outside) {
      assert ArgsBefore(region, i);
      forall k | 0 <= k < |n.args|
        ensures Eval(w, Image(copies, n.args[k])) == Eval(w, n.args[k])
        ensures Tangent(w, t, Image(copies, n.args[k])) == Tangent(w, t, n.args[k])
      {
        assert n.args[k] in region[..i];
        var j :| 0 <= j < i && region[j] == n.args[k];
        ImageAgrees(w, t, region, outside, copies, shared, first, next, j);
      }
      RebuiltAgrees(w, t, n, copies[n.id]);
    } else {
      KeptIsImage(region, outside, copies, shared, first, next, i);
    }
  }

  lemma KeptIsImage(region: seq<Term>, outside: set<nat>, copies: map<nat, Term>, shared: map<nat, Term>,
                    first: nat, next: nat, i: nat)
    requires Topological(region) && i < |region| && Kept(region[i], outside)
    requires Copied(region, |region|, outside, copies, shared, first, next)
    ensures Image(copies, region[i]) == region[i] && region[i].id !in copies
  {
    assert forall j :: 0 <= j < |region| && region[j].id == region[i].id ==> j == i;
  }

  lemma {:induction false} SameHeights(a: seq<Term>, b: seq<Term>)
    requires |a| == |b| && forall k :: 0 <= k < |a| ==> Height(a[k]) == Height(b[k])
    ensures HeightAll(a) == HeightAll(b)
  {
    if a != [] {
      SameHeights(a[1..], b[1..]);
    }
  }

  lemma {:induction false} ImageHeight(region: seq<Term>, outside: set<nat>, copies: map<nat, Term>, shared: map<nat, Term>,
                                       first: nat, next: nat, i: nat)
    requires Topological(region) && i < |region|
    requires Copied(region, |region|, outside, copies, shared, first, next)
    ensures Height(Image(copies, region[i])) == Height(region[i])
    decreases i
  {
    var n := region[i];
    if !Kept(n, outside) {
      assert ArgsBefore(region, i);
      var copy := copies[n.id];
      forall k | 0 <= k < |n.args|
        ensures Height(copy.args[k]) == Height(n.args[k])
      {
        assert n.args[k] in region[..i];
        var j :| 0 <= j < i && region[j] == n.args[k];
        ImageHeight(region, outside, copies, shared, first, next, j);
      }
      SameHeights(copy.args, n.args);
    } else {
      KeptIsImage(region, outside, copies, shared, first, next, i);
    }
  }

  // ----- The order of the copy

  /** The kept nodes of a region, in order. */
  ghost function KeptOf(region: seq<Term>, outside: set<nat>): seq<Term> {
    if region == [] then []
    else
      var (front, n) := (region[..|region| - 1], region[|region| - 1]);
      KeptOf(front, outside) + if Kept(n, outside) then [n] else []
  }

  /** The copies, in the order of their originals. */
  function CopiesOf(region: seq<Term>, copies: map<nat, Term>): seq<Term> {
    if region == [] then []
    else
      var (front, n) := (region[..|region| - 1], region[|region| - 1]);
      CopiesOf(front, copies) + if n.id in copies then [copies[n.id]] else []
  }

  method CopiedOrder(region: seq<Term>, copies: map<nat, Term>) returns (order: seq<Term>)
    ensures order == CopiesOf(region, copies)
  {
    order := [];
    for i := 0 to |region|
      invariant order == CopiesOf(region[..i], copies)
    {
      assert region[..i + 1][..i] == region[..i];
      if region[i].id in copies {
        order := order + [copies[region[i].id]];
      }
    }
    assert region[..|region|] == region;
  }

  lemma {:induction false} KeptOfHas(region: seq<Term>, outside: set<nat>, x: Term)
    ensures x in KeptOf(region, outside) <==> x in region && Kept(x, outside)
  {
    if region != [] {
      var front, n := region[..|region| - 1], region[|region| - 1];
      assert region == front + [n];
      KeptOfHas(front, outside, x);
    }
  }

  lemma {:induction false} CopiesOfHas(region: seq<Term>, copies: map<nat, Term>, x: Term)
    ensures x in CopiesOf(region, copies) <==> exists i :: 0 <= i < |region| && region[i].id in copies && copies[region[i].id] == x
  {
    if region != [] {
      var front, n := region[..|region| - 1], region[|region| - 1];
      assert region == front + [n];
      CopiesOfHas(front, copies, x);
      if x in CopiesOf(front, copies) {
        var i :| 0 <= i < |front| && front[i].id in copies && copies[front[i].id] == x;
        assert region[i] == front[i];
      }
      if x == Image(copies, n) && n.id in copies {
        assert region[|front|] == n;
      }
    }
  }

  /** The operands of a kept node are kept. */
  ghost predicate KeptDownwards(region: seq<Term>, outside: set<nat>) {
    forall i, k :: 0 <= i < |region| && Kept(region[i], outside) && 0 <= k < |region[i].args| ==> Kept(region[i].args[k], outside)
  }

  lemma {:induction false} KeptIsTopological(region: seq<Term>, outside: set<nat>, count: nat)
    requires Topological(region) && KeptDownwards(region, outside) && count <= |region|
    ensures Topological(KeptOf(region[..count], outside))
  {
    if count > 0 {
      var n := region[count - 1];
      assert region[..count][..count - 1] == region[..count - 1];
      KeptIsTopological(region, outside, count - 1);
      assert !Kept(n, outside) ==> KeptOf(region[..count], outside) == KeptOf(region[..count - 1], outside);
      if Kept(n, outside) {
        assert KeptOf(region[..count], outside) == KeptOf(region[..count - 1], outside) + [n];
        assert ArgsBefore(region, count - 1);
        forall k | 0 <= k < |n.args|
          ensures n.args[k] in KeptOf(region[..count - 1], outside)
        {
          KeptOfHas(region[..count - 1], outside, n.args[k]);
        }
        NoSuchId(region, outside, count - 1);
        TopologicalSnoc(KeptOf(region[..count - 1], outside), n);
      }
    }
  }

  lemma NoSuchId(region: seq<Term>, outside: set<nat>, count: nat)
    requires Topological(region) && count < |region|
    ensures !HasId(KeptOf(region[..count], outside), region[count].id)
  {
    var kept := KeptOf(region[..count], outside);
    forall j | 0 <= j < |kept|
      ensures kept[j].id != region[count].id
    {
      KeptOfHas(region[..count], outside, kept[j]);
      var i :| 0 <= i < count && region[i] == kept[j];
    }
  }

  /** Kept nodes followed by copies: a topological order of the copied region. */
  lemma {:induction false} CopyIsTopological(region: seq<Term>, outside: set<nat>, copies: map<nat, Term>, shared: map<nat, Term>,
                                             first: nat, next: nat, count: nat)
    requires Topological(region) && KeptDownwards(region, outside) && count <= |region|
    requires Copied(region, |region|, outside, copies, shared, first, next)
    requires forall i :: 0 <= i < |region| ==> region[i].id < first
    ensures Topological(KeptOf(region, outside) + CopiesOf(region[..count], copies))
  {
    if count == 0 {
      KeptIsTopological(region, outside, |region|);
      assert region[..|region|] == region;
      assert KeptOf(region, outside) + CopiesOf(region[..0], copies) == KeptOf(region, outside);
    } else {
      CopyIsTopological(region, outside, copies, shared, first, next, count - 1);
      CopyStaysTopological(region, outside, copies, shared, first, next, count - 1);
    }
  }

  lemma CopyStaysTopological(region: seq<Term>, outside: set<nat>, copies: map<nat, Term>, shared: map<nat, Term>,
                             first: nat, next: nat, count: nat)
    requires Topological(region) && count < |region|
    requires Copied(region, |region|, outside, copies, shared, first, next)
    requires forall i :: 0 <= i < |region| ==> region[i].id < first
    requires Topological(KeptOf(region, outside) + CopiesOf(region[..count], copies))
    ensures Topological(KeptOf(region, outside) + CopiesOf(region[..count + 1], copies))
  {
    CopiesOfSnoc(region, copies, count);
    if region[count].id in copies {
      CopyFollows(region, outside, copies, shared, first, next, count);
      TopologicalTail(KeptOf(region, outside), CopiesOf(region[..count], copies), copies[region[count].id]);
    }
  }

  lemma TopologicalTail(front: seq<Term>, back: seq<Term>, n: Term)
    requires Topological(front + back) && !HasId(front + back, n.id)
    requires forall k :: 0 <= k < |n.args| ==> n.args[k] in front + back
    ensures Topological(front + (back + [n]))
  {
    TopologicalSnoc(front + back, n);
    assert front + (back + [n]) == (front + back) + [n];
  }

  lemma CopiesOfSnoc(region: seq<Term>, copies: map<nat, Term>, count: nat)
    requires count < |region|
    ensures CopiesOf(region[..count + 1], copies)
            == if region[count].id in copies then CopiesOf(region[..count], copies) + [copies[region[count].id]]
               else CopiesOf(region[..count], copies)
  {
    assert region[..count + 1][..count] == region[..count];
  }

  /** The copy of the next node is new, and its operands are kept or copied already. */
  lemma CopyFollows(region: seq<Term>, outside: set<nat>, copies: map<nat, Term>, shared: map<nat, Term>,
                    first: nat, next: nat, count: nat)
    requires Topological(region) && count < |region| && region[count].id in copies
    requires Copied(region, |region|, outside, copies, shared, first, next)
    requires forall i :: 0 <= i < |region| ==> region[i].id < first
    ensures var before := KeptOf(region, outside) + CopiesOf(region[..count], copies);
            var copy := copies[region[count].id];
            !HasId(before, copy.id) && forall k :: 0 <= k < |copy.args| ==> copy.args[k] in before
  {
    var n, kept, earlier := region[count], KeptOf(region, outside), CopiesOf(region[..count], copies);
    var copy, before := copies[n.id], kept + earlier;
    assert !Kept(n, outside) && IsCopy(n, copy, copies, first, next) by {
      if Kept(n, outside) {
        KeptIsImage(region, outside, copies, shared, first, next, count);
      }
    }
    forall x: Term | x in before
      ensures x.id != copy.id
    {
      if x in kept {
        KeptOfHas(region, outside, x);
      } else {
        CopiesOfHas(region[..count], copies, x);
        var i :| 0 <= i < count && region[..count][i].id in copies && copies[region[..count][i].id] == x;
        assert region[i].id != n.id;
      }
    }
    assert forall j :: 0 <= j < |before| ==> before[j] in before;
    assert ArgsBefore(region, count);
    forall k | 0 <= k < |copy.args|
      ensures copy.args[k] in before
    {
      var arg := n.args[k];
      assert arg in region[..count];
      var i :| 0 <= i < count && region[i] == arg;
      if Kept(arg, outside) {
        KeptIsImage(region, outside, copies, shared, first, next, i);
        KeptOfHas(region, outside, arg);
      } else {
        assert region[..count][i] == arg && arg.id in copies;
        CopiesOfHas(region[..count], copies, copies[arg.id]);
      }
    }
  }
}
