/**
 * Reverse-mode differentiation: a walk over a topological order, last node first, that turns cotangents into
 * contributions to operands. Checkpoint regions are copied and differentiated by a recursive walk.
 */
module Autodiff {
  import opened DTypes
  import opened Wrappers
  import opened Dag
  import opened InnerProduct
  import opened ScalarGraph
  import opened AdjointRules
  import opened Cotangents
  import opened Checkpoints
  import opened Exposure

  // ----- Orders as coherent graphs

  lemma SameIdSameNode(order: seq<Term>, a: Term, b: Term)
    requires Topological(order) && a in order && b in order && a.id == b.id
    ensures a == b
  {
    var i :| 0 <= i < |order| && order[i] == a;
    var j :| 0 <= j < |order| && order[j] == b;
    assert i == j;
  }

  lemma BelowIsCoherent(order: seq<Term>, n: Term)
    requires Topological(order) && n in order
    ensures Coherent(Below(n)) && forall x :: x in Below(n) ==> x in order
  {
    forall x | x in Below(n)
      ensures x in order
    {
      TopologicalIsClosed(order, n, x);
    }
    forall a, b | a in Below(n) && b in Below(n) && a.id == b.id
      ensures a == b
    {
      SameIdSameNode(order, a, b);
    }
  }

  /** What is strictly below a node stands before it. */
  lemma BelowIsBefore(order: seq<Term>, j: nat, x: Term)
    requires Topological(order) && j < |order| && x in Below(order[j]) && x != order[j]
    ensures x in order[..j]
  {
    var n := order[j];
    var k := BelowAllSplits(n.args, x);
    assert ArgsBefore(order, j);
    assert forall i :: 0 <= i < j ==> ArgsBefore(order, i) && order[..j][..i] == order[..i];
    assert Topological(order[..j]);
    TopologicalIsClosed(order[..j], n.args[k], x);
  }

  /** A node strictly below another does not vary with it. */
  lemma BelowIsConstant(w: World, order: seq<Term>, n: Term, x: Term)
    requires Topological(order) && n in order && x in Below(n) && x != n
    ensures Tangent(w, n.id, x) == 0.0
  {
    BelowIsCoherent(order, n);
    BelowTransitive(n, x);
    forall y | y in Below(x)
      ensures y.id != n.id
    {
      BelowTransitive(x, y);
      assert n in Below(n);
    }
    TangentIsLocal(w, n.id, x);
  }

  // ----- What a walk needs and keeps

  /** Nodes of `bound` are inputs shared with an enclosing walk; those of `order` are walked. */
  ghost predicate Walkable(bound: seq<Term>, order: seq<Term>, next: nat, height: nat) {
    && Topological(bound + order)
    && (forall x :: x in bound + order ==> x.id < next && Typed(x))
    && (forall x :: x in order ==> Height(x) <= height && x in Below(order[|order| - 1]))
  }

  ghost predicate FitsTarget(t: nat, bound: seq<Term>, order: seq<Term>) {
    && (forall x :: x in bound + order && x.id == t ==> x.op.dtype.IsFloat())
    && (order != [] ==> Exposed(t, order[|order| - 1]))
  }

  ghost predicate FitTargets(targets: set<nat>, bound: seq<Term>, order: seq<Term>, next: nat) {
    forall t :: t in targets ==> t < next && FitsTarget(t, bound, order)
  }

  ghost predicate KeysIn(cotangents: map<nat, Term>, nodes: seq<Term>) {
    forall id :: id in cotangents ==> HasId(nodes, id)
  }

  /** The cotangent of `t` once it has been walked. */
  ghost function Settled(w: World, t: nat, walked: seq<Term>, cotangents: map<nat, Term>): real {
    if HasId(walked, t) then Gradient(w, t, cotangents) else 0.0
  }

  /**
   * The conservation law: with `order[i..]` walked, what is pending on the rest plus the settled cotangent of the
   * target is what was pending at the start.
   */
  ghost predicate Conserved(w: World, t: nat, bound: seq<Term>, order: seq<Term>, i: nat, start: map<nat, Term>, cotangents: map<nat, Term>)
    requires i <= |order|
  {
    Pending(w, t, bound + order[..i], cotangents) + Settled(w, t, order[i..], cotangents) == Pending(w, t, bound + order, start)
  }

  ghost predicate AllConserved(targets: set<nat>, bound: seq<Term>, order: seq<Term>, i: nat, start: map<nat, Term>, cotangents: map<nat, Term>)
    requires i <= |order|
  {
    forall w: World, t: nat :: t in targets ==> Conserved(w, t, bound, order, i, start, cotangents)
  }

  /** Contributions of a node with cotangent `g`, for a set of targets. */
  ghost predicate Delivers(node: Term, g: Term, out: seq<(Term, Term)>, targets: set<nat>) {
    && (forall k :: 0 <= k < |out| ==> out[k].0 in Below(node) && out[k].0 != node)
    && (forall w: World, t: nat :: t in targets && t != node.id ==> Flow(w, t, out) == Eval(w, g) * Tangent(w, t, node))
  }

  /** For every target the contributions carry what `g` at the node `n` would. */
  ghost predicate Carries(out: seq<(Term, Term)>, g: Term, n: Term, targets: set<nat>) {
    forall w: World, t: nat :: t in targets ==> Flow(w, t, out) == Eval(w, g) * Tangent(w, t, n)
  }

  ghost predicate InputsIn(out: seq<(Term, Term)>, nodes: seq<Term>) {
    forall k :: 0 <= k < |out| ==> out[k].0 in nodes
  }

  ghost predicate Differentiable(nodes: seq<Term>) {
    forall x :: x in nodes ==> !x.op.kind.Barred? && !x.op.kind.Opaque?
  }

  // ----- One node

  lemma HasIdAtFront(order: seq<Term>, i: nat, t: nat)
    requires 0 < i <= |order|
    ensures HasId(order[i - 1..], t) <==> order[i - 1].id == t || HasId(order[i..], t)
  {
    var longer, shorter := order[i - 1..], order[i..];
    if HasId(longer, t) {
      var k :| 0 <= k < |longer| && longer[k].id == t;
      assert k > 0 ==> shorter[k - 1] == longer[k];
    }
    if HasId(shorter, t) {
      var k :| 0 <= k < |shorter| && shorter[k].id == t;
      assert longer[k + 1] == shorter[k];
    }
    assert longer[0] == order[i - 1];
  }

  /** A node without a cotangent, or that is not floating point, is skipped without loss. */
  lemma SkipConserves(w: World, t: nat, bound: seq<Term>, order: seq<Term>, i: nat, start: map<nat, Term>, cotangents: map<nat, Term>)
    requires 0 < i <= |order| && Conserved(w, t, bound, order, i, start, cotangents)
    requires DistinctIds(order)
    requires order[i - 1].id !in cotangents || (!order[i - 1].op.dtype.IsFloat() && order[i - 1].id != t)
    ensures Conserved(w, t, bound, order, i - 1, start, cotangents)
  {
    var n := order[i - 1];
    assert bound + order[..i] == (bound + order[..i - 1]) + [n];
    PendingSnoc(w, t, bound + order[..i - 1], n, cotangents);
    HasIdAtFront(order, i, t);
    TangentIs(w, t, n);
    ZeroTimes(Gradient(w, n.id, cotangents), Tangent(w, t, n));
  }

  /** Ids of the walked part do not occur in the rest. */
  lemma WalkedIsApart(bound: seq<Term>, order: seq<Term>, i: nat, t: nat)
    requires Topological(bound + order) && i <= |order| && HasId(order[i..], t)
    ensures !HasId(bound + order[..i], t)
  {
    var all, rest := bound + order, bound + order[..i];
    var k :| 0 <= k < |order| - i && order[i..][k].id == t;
    assert all[|bound| + i + k].id == t;
    forall j | 0 <= j < |rest|
      ensures rest[j].id != t
    {
      assert rest[j] == all[j];
    }
  }

  /** The settled cotangents survive contributions to the rest. */
  lemma SettledSurvives(w: World, t: nat, bound: seq<Term>, order: seq<Term>, i: nat, before: map<nat, Term>, after: map<nat, Term>)
    requires Topological(bound + order) && i <= |order| && KeepsOthers(bound + order[..i], before, after)
    ensures HasId(order[i..], t) ==> Gradient(w, t, after) == Gradient(w, t, before)
  {
    if HasId(order[i..], t) {
      WalkedIsApart(bound, order, i, t);
    }
  }

  /** Contributions strictly below a node carry nothing to the node itself. */
  lemma NothingReturns(w: World, nodes: seq<Term>, n: Term, g: Term, out: seq<(Term, Term)>, targets: set<nat>)
    requires Topological(nodes) && n in nodes && Delivers(n, g, out, targets)
    ensures Flow(w, n.id, out) == 0.0
  {
    forall k | 0 <= k < |out|
      ensures Tangent(w, n.id, out[k].0) == 0.0
    {
      BelowIsConstant(w, nodes, n, out[k].0);
    }
    FlowToConstants(w, n.id, out);
  }

  /** Delivering the contributions of the next node conserves what is owed to every target. */
  lemma DeliverConserves(w: World, t: nat, bound: seq<Term>, order: seq<Term>, i: nat, start: map<nat, Term>,
                         before: map<nat, Term>, after: map<nat, Term>, out: seq<(Term, Term)>, targets: set<nat>)
    requires 0 < i <= |order| && Conserved(w, t, bound, order, i, start, before)
    requires Topological(bound + order) && t in targets
    requires order[i - 1].id in before && order[i - 1].op.dtype.IsFloat()
    requires Delivers(order[i - 1], before[order[i - 1].id], out, targets)
    requires Received(bound + order[..i - 1], before, after, out)
    requires KeepsOthers(bound + order[..i - 1], before, after)
    ensures Conserved(w, t, bound, order, i - 1, start, after)
  {
    var n, rest := order[i - 1], bound + order[..i - 1];
    var g := before[n.id];
    assert bound + order[..i] == rest + [n];
    PendingSnoc(w, t, rest, n, before);
    HasIdAtFront(order, i, t);
    SettledSurvives(w, t, bound, order, i - 1, before, after);
    assert Pending(w, t, rest, after) == Pending(w, t, rest, before) + Flow(w, t, out);
    if t == n.id {
      assert n in bound + order by {
        assert (bound + order)[|bound| + i - 1] == n;
      }
      NothingReturns(w, bound + order, n, g, out, targets);
      TangentIs(w, t, n);
      WalkedOnce(bound, order, i);
    }
  }

  lemma WalkedOnce(bound: seq<Term>, order: seq<Term>, i: nat)
    requires Topological(bound + order) && 0 < i <= |order|
    ensures !HasId(order[i..], order[i - 1].id)
  {
    forall k | 0 <= k < |order| - i
      ensures order[i..][k].id != order[i - 1].id
    {
      assert (bound + order)[|bound| + i + k] == order[i..][k] && (bound + order)[|bound| + i - 1] == order[i - 1];
    }
  }

  // ----- Collecting the cotangents of a region's inputs

  /** What has been handed on and what is left together owe what the whole table owed. */
  ghost predicate Collected(kept: seq<Term>, sub: map<nat, Term>, rest: map<nat, Term>, out: seq<(Term, Term)>) {
    forall w: World, t: nat :: Flow(w, t, out) + Pending(w, t, kept, rest) == Pending(w, t, kept, sub)
  }

  lemma CollectNothing(kept: seq<Term>, sub: map<nat, Term>)
    ensures Collected(kept, sub, sub, [])
  {
    forall w: World, t: nat
      ensures Flow(w, t, []) == 0.0
    {
      FlowOfNothing(w, t);
    }
  }

  lemma CollectDrops(kept: seq<Term>, sub: map<nat, Term>, rest: map<nat, Term>, out: seq<(Term, Term)>, id: nat)
    requires Collected(kept, sub, rest, out) && DistinctIds(kept) && id in rest && !HasId(kept, id)
    ensures Collected(kept, sub, rest - {id}, out)
  {
    forall w: World, t: nat
      ensures Flow(w, t, out) + Pending(w, t, kept, rest - {id}) == Pending(w, t, kept, sub)
    {
      CollectOne(w, t, kept, rest, id);
    }
  }

  lemma CollectHandsOn(kept: seq<Term>, sub: map<nat, Term>, rest: map<nat, Term>, out: seq<(Term, Term)>, n: Term)
    requires Collected(kept, sub, rest, out) && DistinctIds(kept) && n.id in rest && n in kept
    ensures Collected(kept, sub, rest - {n.id}, out + [(n, rest[n.id])])
  {
    forall w: World, t: nat
      ensures Flow(w, t, out + [(n, rest[n.id])]) + Pending(w, t, kept, rest - {n.id}) == Pending(w, t, kept, sub)
    {
      CollectOne(w, t, kept, rest, n.id);
      FlowSnoc(w, t, out, n, rest[n.id]);
    }
  }

  /** Of a region's cotangents those of copies are dropped and those of shared nodes handed on, in any order. */
  method Collect(sub: map<nat, Term>, copyIds: set<nat>, shared: map<nat, Term>, ghost kept: seq<Term>)
    returns (out: seq<(Term, Term)>)
    requires DistinctIds(kept)
    requires forall id :: id in shared <==> HasId(kept, id)
    requires forall id :: id in shared ==> shared[id] in kept && shared[id].id == id && id !in copyIds
    ensures InputsIn(out, kept) && Collected(kept, sub, map[], out)
  {
    out := [];
    var rest := sub;
    CollectNothing(kept, sub);
    while rest.Keys != {}
      invariant InputsIn(out, kept)
      invariant Collected(kept, sub, rest, out)
      decreases |rest|
    {
      var id :| id in rest.Keys;
      var less := rest - {id};
      assert |less| < |rest| by {
        assert rest == less[id := rest[id]];
      }
      if id in copyIds || id !in shared {
        CollectDrops(kept, sub, rest, out, id);
      } else {
        CollectHandsOn(kept, sub, rest, out, shared[id]);
        out := out + [(shared[id], rest[id])];
      }
      rest := less;
    }
    assert rest == map[];
  }

  /** Removing one cotangent removes what it owed, if it belongs to one of the nodes. */
  lemma CollectOne(w: World, t: nat, nodes: seq<Term>, cotangents: map<nat, Term>, id: nat)
    requires DistinctIds(nodes) && id in cotangents
    ensures !HasId(nodes, id) ==> Pending(w, t, nodes, cotangents - {id}) == Pending(w, t, nodes, cotangents)
    ensures forall n :: n in nodes && n.id == id ==>
      Pending(w, t, nodes, cotangents) == Pending(w, t, nodes, cotangents - {id}) + Eval(w, cotangents[id]) * Tangent(w, t, n)
  {
    var less := cotangents - {id};
    assert forall other: nat :: other != id ==> Gradient(w, other, less) == Gradient(w, other, cotangents);
    if !HasId(nodes, id) {
      assert Carried(w, nodes, less) == Carried(w, nodes, cotangents) by {
        assert forall k :: 0 <= k < |nodes| ==> nodes[k].id != id;
      }
    }
    forall n | n in nodes && n.id == id
      ensures Pending(w, t, nodes, cotangents) == Pending(w, t, nodes, less) + Eval(w, cotangents[id]) * Tangent(w, t, n)
    {
      var j :| 0 <= j < |nodes| && nodes[j] == n;
      PendingUpdate(w, t, nodes, j, less, cotangents, Eval(w, cotangents[id]));
    }
  }

  /** A single cotangent owes itself times the tangent of its node. */
  lemma PendingOfOne(w: World, t: nat, nodes: seq<Term>, n: Term, g: Term)
    requires DistinctIds(nodes) && n in nodes
    ensures Pending(w, t, nodes, map[n.id := g]) == Eval(w, g) * Tangent(w, t, n)
  {
    var j :| 0 <= j < |nodes| && nodes[j] == n;
    NothingPending(w, t, nodes, map[]);
    PendingUpdate(w, t, nodes, j, map[], map[n.id := g], Eval(w, g));
  }

  // ----- The region of a checkpoint

  /** The region of checkpoint `c` as the walk sees it. */
  ghost predicate RegionOf(bound: seq<Term>, order: seq<Term>, c: Term, region: seq<Term>, outside: set<nat>)
    requires order != [] && |c.args| == 1
  {
    && Topological(region) && (forall x :: x in region <==> x in Below(c.args[0]))
    && region != [] && region[|region| - 1] == c.args[0]
    && (forall x :: x in region ==> x in bound + order && Height(x) <= Height(c.args[0]))
    && outside == IdsOf(Outside(order[|order| - 1], c.id))
  }

  lemma RegionInOrder(bound: seq<Term>, order: seq<Term>, c: Term)
    requires Topological(bound + order) && c in order && |c.args| == 1
    ensures Coherent(Below(c.args[0])) && Height(c.args[0]) < Height(c)
    ensures forall x :: x in Below(c.args[0]) ==>
      x in bound + order && Height(x) <= Height(c.args[0]) && x.id != c.id && x in Below(c) && x != c
    ensures Coherent(Below(order[|order| - 1])) && forall x :: x in Below(order[|order| - 1]) ==> x in bound + order
  {
    var all, a := bound + order, c.args[0];
    assert c in all && order[|order| - 1] in all;
    BelowIsCoherent(all, c);
    BelowIsCoherent(all, order[|order| - 1]);
    ArgBelow(c, 0);
    BelowTransitive(c, a);
    forall x | x in Below(a)
      ensures x in all && Height(x) <= Height(a) && x.id != c.id && x in Below(c) && x != c
    {
      BelowTransitive(a, x);
      assert c in Below(c);
    }
  }

  /** Operands of a shared node are shared: they are outside too, or leaves. */
  lemma RegionKeepsDownwards(bound: seq<Term>, order: seq<Term>, c: Term, region: seq<Term>, outside: set<nat>)
    requires Topological(bound + order) && c in order && |c.args| == 1 && RegionOf(bound, order, c, region, outside)
    ensures KeptDownwards(region, outside)
  {
    var root := order[|order| - 1];
    RegionInOrder(bound, order, c);
    forall i, k | 0 <= i < |region| && Kept(region[i], outside) && 0 <= k < |region[i].args|
      ensures Kept(region[i].args[k], outside)
    {
      var n := region[i];
      assert n in region && ArgsBefore(region, i);
      assert n.args[k] in region by {
        assert n.args[k] in region[..i];
      }
      var seen :| seen in Outside(root, c.id) && seen.id == n.id;
      OutsideIsBelow(root, c.id, seen);
      SameIdSameNode(bound + order, seen, n);
      OutsideStep(root, c.id, n, k);
    }
  }

  /** The copy mirrors the region. */
  lemma CopyMirrors(bound: seq<Term>, order: seq<Term>, c: Term, region: seq<Term>, outside: set<nat>,
                    copies: map<nat, Term>, shared: map<nat, Term>, first: nat, next: nat, height: nat)
    requires Walkable(bound, order, first, height) && c in order && |c.args| == 1 && RegionOf(bound, order, c, region, outside)
    requires Copied(region, |region|, outside, copies, shared, first, next)
    ensures Mirrored(region, outside, copies, shared, first, next)
  {
    RegionKeepsDownwards(bound, order, c, region, outside);
    assert forall i :: 0 <= i < |region| ==> region[i] in region;
  }

  /** The copied region can be walked: shared nodes are its inputs. */
  lemma CopyIsWalkable(bound: seq<Term>, order: seq<Term>, c: Term, region: seq<Term>, outside: set<nat>,
                       copies: map<nat, Term>, shared: map<nat, Term>, first: nat, next: nat, height: nat)
    requires Walkable(bound, order, first, height) && c in order && |c.args| == 1 && RegionOf(bound, order, c, region, outside)
    requires Copied(region, |region|, outside, copies, shared, first, next) && c.args[0].id in copies
    ensures Walkable(KeptOf(region, outside), CopiesOf(region, copies), next, Height(c.args[0]))
    ensures CopiesOf(region, copies) != [] && CopiesOf(region, copies)[|CopiesOf(region, copies)| - 1] == copies[c.args[0].id]
  {
    var kept, copied := KeptOf(region, outside), CopiesOf(region, copies);
    CopyMirrors(bound, order, c, region, outside, copies, shared, first, next, height);
    CopyIsTopological(region, outside, copies, shared, first, next, |region|);
    assert region[..|region|] == region;
    assert copied[|copied| - 1] == copies[c.args[0].id];
    forall x | x in kept
      ensures x.id < next && Typed(x)
    {
      KeptOfHas(region, outside, x);
    }
    forall x | x in copied
      ensures x.id < next && Typed(x) && Height(x) <= Height(c.args[0]) && x in Below(copied[|copied| - 1])
    {
      CopyFitsWalk(c.args[0], region, outside, copies, shared, first, next, x);
    }
  }

  lemma CopyFitsWalk(a: Term, region: seq<Term>, outside: set<nat>, copies: map<nat, Term>, shared: map<nat, Term>,
                     first: nat, next: nat, x: Term)
    requires Mirrored(region, outside, copies, shared, first, next) && a in region && a.id in copies
    requires x in CopiesOf(region, copies)
    requires forall y :: y in region ==> Typed(y) && y in Below(a) && Height(y) <= Height(a)
    ensures first <= x.id < next && Typed(x) && Height(x) <= Height(a) && x in Below(copies[a.id])
  {
    CopiesOfHas(region, copies, x);
    var i :| 0 <= i < |region| && region[i].id in copies && copies[region[i].id] == x;
    assert region[i] in region;
    CopyOf(region, outside, copies, shared, first, next, i);
    ImageHeight(region, outside, copies, shared, first, next, i);
    var j :| 0 <= j < |region| && region[j] == a;
    ImageBelow(region, outside, copies, shared, first, next, j, region[i]);
  }

  lemma CopyOf(region: seq<Term>, outside: set<nat>, copies: map<nat, Term>, shared: map<nat, Term>, first: nat, next: nat, i: nat)
    requires Topological(region) && i < |region| && region[i].id in copies
    requires Copied(region, |region|, outside, copies, shared, first, next)
    ensures !Kept(region[i], outside) && IsCopy(region[i], copies[region[i].id], copies, first, next)
  {
    if Kept(region[i], outside) {
      KeptIsImage(region, outside, copies, shared, first, next, i);
    }
  }

  /** A target of the walk that lies in the region is seen from outside, so it is not copied. */
  lemma TargetIsNotCopied(t: nat, bound: seq<Term>, order: seq<Term>, c: Term, region: seq<Term>, outside: set<nat>,
                          copies: map<nat, Term>, shared: map<nat, Term>, first: nat, next: nat, height: nat)
    requires Walkable(bound, order, first, height) && c in order && |c.args| == 1 && RegionOf(bound, order, c, region, outside)
    requires Copied(region, |region|, outside, copies, shared, first, next)
    requires FitsTarget(t, bound, order) && c.op.kind.Checkpoint?
    ensures t !in copies
  {
    assert BelowAll(c.args) == Below(c.args[0]) by {
      assert c.args[1..] == [];
    }
    forall i | 0 <= i < |region| && region[i].id == t
      ensures Kept(region[i], outside)
    {
      assert region[i] in region;
      if region[i].args != [] {
        assert Inside(t, c);
      }
    }
  }

  /** A target of the walk is a target of the copied region's walk. */
  lemma CopyFitsTarget(t: nat, bound: seq<Term>, order: seq<Term>, c: Term, region: seq<Term>, outside: set<nat>,
                       copies: map<nat, Term>, shared: map<nat, Term>, first: nat, next: nat, height: nat)
    requires Walkable(bound, order, first, height) && c in order && |c.args| == 1 && RegionOf(bound, order, c, region, outside)
    requires Copied(region, |region|, outside, copies, shared, first, next) && c.args[0].id in copies
    requires t < first && FitsTarget(t, bound, order) && c.op.kind.Checkpoint?
    ensures FitsTarget(t, KeptOf(region, outside), CopiesOf(region, copies))
    ensures !HasId(CopiesOf(region, copies), t)
  {
    var kept, copied := KeptOf(region, outside), CopiesOf(region, copies);
    CopyMirrors(bound, order, c, region, outside, copies, shared, first, next, height);
    TargetIsNotCopied(t, bound, order, c, region, outside, copies, shared, first, next, height);
    ExposedToRegion(t, order[|order| - 1], c);
    ImageExposed(region, outside, copies, shared, first, next, t, |region| - 1);
    forall x | x in copied
      ensures x.id != t
    {
      CopiesOfHas(region, copies, x);
      var i :| 0 <= i < |region| && region[i].id in copies && copies[region[i].id] == x;
      CopyOf(region, outside, copies, shared, first, next, i);
    }
    assert forall k :: 0 <= k < |copied| ==> copied[k] in copied;
    forall x | x in kept
      ensures x.id == t ==> x.op.dtype.IsFloat()
    {
      KeptOfHas(region, outside, x);
    }
    assert copied[|copied| - 1] == copies[c.args[0].id];
  }

  lemma CopyIsDifferentiable(bound: seq<Term>, order: seq<Term>, c: Term, region: seq<Term>, outside: set<nat>,
                             copies: map<nat, Term>, shared: map<nat, Term>, first: nat, next: nat)
    requires Differentiable(bound + order) && order != [] && |c.args| == 1 && RegionOf(bound, order, c, region, outside)
    requires Copied(region, |region|, outside, copies, shared, first, next)
    ensures Differentiable(KeptOf(region, outside) + CopiesOf(region, copies))
  {
    forall x | x in KeptOf(region, outside) + CopiesOf(region, copies)
      ensures !x.op.kind.Barred? && !x.op.kind.Opaque?
    {
      if x in KeptOf(region, outside) {
        KeptOfHas(region, outside, x);
      } else {
        CopiesOfHas(region, copies, x);
        var i :| 0 <= i < |region| && region[i].id in copies && copies[region[i].id] == x;
        CopyOf(region, outside, copies, shared, first, next, i);
        assert region[i] in region;
      }
    }
  }

  /** What the shared nodes receive from a walk that starts at its root, for a target outside the walk. */
  lemma RegionDelivers(w: World, t: nat, kept: seq<Term>, copied: seq<Term>, root: Term, g: Term,
                       start: map<nat, Term>, sub: map<nat, Term>)
    requires DistinctIds(kept + copied) && root in kept + copied && start == map[root.id := g]
    requires Conserved(w, t, kept, copied, 0, start, sub) && !HasId(copied, t)
    ensures Pending(w, t, kept, sub) == Eval(w, g) * Tangent(w, t, root)
  {
    ConservedAtEnd(w, t, kept, copied, start, sub);
    PendingOfOne(w, t, kept + copied, root, g);
  }

  lemma RegionCarries(kept: seq<Term>, copied: seq<Term>, root: Term, g: Term, start: map<nat, Term>, sub: map<nat, Term>,
                      out: seq<(Term, Term)>, targets: set<nat>)
    requires DistinctIds(kept + copied) && root in kept + copied && start == map[root.id := g]
    requires AllConserved(targets, kept, copied, 0, start, sub) && Collected(kept, sub, map[], out)
    requires forall t :: t in targets ==> !HasId(copied, t)
    ensures Carries(out, g, root, targets)
  {
    forall w: World, t: nat | t in targets
      ensures Flow(w, t, out) == Eval(w, g) * Tangent(w, t, root)
    {
      assert Conserved(w, t, kept, copied, 0, start, sub);
      RegionDelivers(w, t, kept, copied, root, g, start, sub);
      NothingPending(w, t, kept, map[]);
    }
  }

  lemma ConservedAtEnd(w: World, t: nat, bound: seq<Term>, order: seq<Term>, start: map<nat, Term>, end: map<nat, Term>)
    requires Conserved(w, t, bound, order, 0, start, end)
    ensures Pending(w, t, bound, end) + Settled(w, t, order, end) == Pending(w, t, bound + order, start)
  {
    assert bound + order[..0] == bound;
    assert order[0..] == order;
  }

  /** The copied region's shared nodes, as `Collect` needs them. */
  lemma SharedAreKept(region: seq<Term>, outside: set<nat>, copies: map<nat, Term>, shared: map<nat, Term>, first: nat, next: nat,
                      copyIds: set<nat>)
    requires Topological(region) && Copied(region, |region|, outside, copies, shared, first, next)
    requires forall x :: x in region ==> x.id < first
    requires copyIds == set id | id in copies :: copies[id].id
    ensures forall id :: id in shared <==> HasId(KeptOf(region, outside), id)
    ensures forall id :: id in shared ==> shared[id] in KeptOf(region, outside) && shared[id].id == id && id !in copyIds
  {
    var kept := KeptOf(region, outside);
    forall id | id in shared
      ensures shared[id] in kept && shared[id].id == id && id !in copyIds && HasId(kept, id)
    {
      var i :| 0 <= i < |region| && region[i].id == id && Kept(region[i], outside);
      assert region[i] in region;
      KeptOfHas(region, outside, region[i]);
      var j :| 0 <= j < |kept| && kept[j] == region[i];
      assert forall other :: other in copies ==> first <= copies[other].id;
    }
    forall k | 0 <= k < |kept|
      ensures kept[k].id in shared
    {
      assert kept[k] in kept;
      KeptOfHas(region, outside, kept[k]);
      var i :| 0 <= i < |region| && region[i] == kept[k];
    }
  }

  /** The image of the region's root stands for the checkpoint, for every target. */
  lemma RootStandsFor(w: World, t: nat, bound: seq<Term>, order: seq<Term>, c: Term, region: seq<Term>, outside: set<nat>,
                      copies: map<nat, Term>, shared: map<nat, Term>, first: nat, next: nat, height: nat)
    requires Walkable(bound, order, first, height) && c in order && |c.args| == 1 && RegionOf(bound, order, c, region, outside)
    requires Copied(region, |region|, outside, copies, shared, first, next)
    requires t < first && FitsTarget(t, bound, order) && c.op.kind.Checkpoint?
    ensures Tangent(w, t, Image(copies, c.args[0])) == Tangent(w, t, c.args[0])
  {
    TargetIsNotCopied(t, bound, order, c, region, outside, copies, shared, first, next, height);
    var i :| 0 <= i < |region| && region[i] == c.args[0];
    assert forall j :: 0 <= j < |region| ==> region[j] in region;
    ImageAgrees(w, t, region, outside, copies, shared, first, next, i);
  }

  /** Contributions that carry what a stand-in for its operand would are those of a checkpoint. */
  lemma StandInDelivers(c: Term, g: Term, standIn: Term, out: seq<(Term, Term)>, targets: set<nat>)
    requires c.op.kind.Checkpoint? && |c.args| == 1 && c.op.dtype.IsFloat()
    requires forall k :: 0 <= k < |out| ==> out[k].0 in Below(c) && out[k].0 != c
    requires Carries(out, g, standIn, targets)
    requires forall w: World, t: nat :: t in targets ==> Tangent(w, t, standIn) == Tangent(w, t, c.args[0])
    ensures Delivers(c, g, out, targets)
  {
    forall w: World, t: nat | t in targets && t != c.id
      ensures Flow(w, t, out) == Eval(w, g) * Tangent(w, t, c)
    {
      UnaryTangent(w, t, c);
    }
  }

  /** The copied region's walk keeps the targets out of the copy. */
  lemma CopyFitsTargets(bound: seq<Term>, order: seq<Term>, c: Term, region: seq<Term>, outside: set<nat>,
                        copies: map<nat, Term>, shared: map<nat, Term>, first: nat, next: nat, height: nat, targets: set<nat>)
    requires Walkable(bound, order, first, height) && FitTargets(targets, bound, order, first)
    requires c in order && |c.args| == 1 && c.op.kind.Checkpoint? && RegionOf(bound, order, c, region, outside)
    requires Copied(region, |region|, outside, copies, shared, first, next) && c.args[0].id in copies
    ensures FitTargets(targets, KeptOf(region, outside), CopiesOf(region, copies), next)
    ensures forall t :: t in targets ==> !HasId(CopiesOf(region, copies), t)
  {
    forall t | t in targets
      ensures t < next && FitsTarget(t, KeptOf(region, outside), CopiesOf(region, copies)) && !HasId(CopiesOf(region, copies), t)
    {
      CopyFitsTarget(t, bound, order, c, region, outside, copies, shared, first, next, height);
    }
  }

  lemma CopyHasRoot(region: seq<Term>, outside: set<nat>, copies: map<nat, Term>, a: Term)
    requires a in region && a.id in copies
    ensures copies[a.id] in CopiesOf(region, copies)
  {
    var i :| 0 <= i < |region| && region[i] == a;
    CopiesOfHas(region, copies, copies[a.id]);
  }

  // ----- The walk

  /** Walks the copy of a region from its root and hands the cotangents of its inputs on. */
  method DifferentiateCopy(ids: NodeIds, ghost kept: seq<Term>, copied: seq<Term>, root: Term, g: Term,
                           copyIds: set<nat>, shared: map<nat, Term>, ghost targets: set<nat>, ghost height: nat)
    returns (r: Result<seq<(Term, Term)>, GradError>)
    requires Walkable(kept, copied, ids.next, height) && FitTargets(targets, kept, copied, ids.next)
    requires root in copied && forall t :: t in targets ==> !HasId(copied, t)
    requires forall id :: id in shared <==> HasId(kept, id)
    requires forall id :: id in shared ==> shared[id] in kept && shared[id].id == id && id !in copyIds
    modifies ids
    ensures ids.next >= old(ids.next)
    ensures Differentiable(kept + copied) ==> r.Success?
    ensures r.Success? ==> InputsIn(r.value, kept)
    ensures r.Success? ==> Carries(r.value, g, root, targets)
    decreases height, 3
  {
    var start: map<nat, Term> := map[root.id := g];
    RootIsKey(kept, copied, root);
    var sub := Backward(ids, kept, copied, start, targets, height);
    if sub.Failure? {
      return Failure(sub.error);
    }
    var out := Collect(sub.value, copyIds, shared, kept);
    RegionCarries(kept, copied, root, g, start, sub.value, out, targets);
    return Success(out);
  }

  lemma RootIsKey(bound: seq<Term>, order: seq<Term>, root: Term)
    requires root in order && Topological(bound + order)
    ensures HasId(bound + order, root.id) && root in bound + order && DistinctIds(bound)
  {
    var j :| 0 <= j < |order| && order[j] == root;
    assert (bound + order)[|bound| + j] == root;
    assert forall k :: 0 <= k < |bound| ==> (bound + order)[k] == bound[k];
  }

  /** Finds the region of a checkpoint and copies what is not shared. */
  method CopyInterior(ids: NodeIds, ghost bound: seq<Term>, order: seq<Term>, c: Term)
    returns (region: seq<Term>, ghost outside: set<nat>, copies: map<nat, Term>, shared: map<nat, Term>)
    requires Topological(bound + order) && c in order && |c.args| == 1
    modifies ids
    ensures ids.next >= old(ids.next)
    ensures RegionOf(bound, order, c, region, outside)
    ensures Copied(region, |region|, outside, copies, shared, old(ids.next), ids.next)
  {
    RegionInOrder(bound, order, c);
    var seen := OutsideSet(order, c.id);
    outside := seen;
    region := Topo(c.args[0]);
    copies, shared := CopyRegion(ids, region, seen);
  }

  lemma KeptIsInRegion(out: seq<(Term, Term)>, region: seq<Term>, outside: set<nat>)
    requires InputsIn(out, KeptOf(region, outside))
    ensures InputsIn(out, region)
  {
    forall k | 0 <= k < |out|
      ensures out[k].0 in region
    {
      KeptOfHas(region, outside, out[k].0);
    }
  }

  /** The contributions of a checkpoint whose region's root was copied. */
  method DifferentiateInterior(ids: NodeIds, ghost bound: seq<Term>, ghost order: seq<Term>, c: Term, g: Term, region: seq<Term>,
                               ghost outside: set<nat>, copies: map<nat, Term>, shared: map<nat, Term>, ghost first: nat,
                               ghost targets: set<nat>, ghost height: nat)
    returns (r: Result<seq<(Term, Term)>, GradError>)
    requires Walkable(bound, order, first, height) && FitTargets(targets, bound, order, first)
    requires c in order && |c.args| == 1 && c.op.kind.Checkpoint? && RegionOf(bound, order, c, region, outside)
    requires Copied(region, |region|, outside, copies, shared, first, ids.next) && c.args[0].id in copies
    requires Height(c.args[0]) < height && c.args[0] in region && forall x :: x in region ==> x.id < first
    modifies ids
    ensures ids.next >= old(ids.next)
    ensures Differentiable(bound + order) ==> r.Success?
    ensures r.Success? ==> InputsIn(r.value, region)
    ensures r.Success? ==> Carries(r.value, g, copies[c.args[0].id], targets)
    decreases height, 0
  {
    var a := c.args[0];
    ghost var kept := KeptOf(region, outside);
    var copied := CopiedOrder(region, copies);
    var copyIds := set id | id in copies :: copies[id].id;
    CopyIsWalkable(bound, order, c, region, outside, copies, shared, first, ids.next, height);
    CopyFitsTargets(bound, order, c, region, outside, copies, shared, first, ids.next, height, targets);
    CopyHasRoot(region, outside, copies, a);
    SharedAreKept(region, outside, copies, shared, first, ids.next, copyIds);
    if Differentiable(bound + order) {
      CopyIsDifferentiable(bound, order, c, region, outside, copies, shared, first, ids.next);
    }
    r := DifferentiateCopy(ids, kept, copied, copies[a.id], g, copyIds, shared, targets, Height(a));
    if r.Success? {
      KeptIsInRegion(r.value, region, outside);
    }
  }

  /** The contributions of a checkpoint node. */
  method DifferentiateRegion(ids: NodeIds, ghost bound: seq<Term>, order: seq<Term>, c: Term, g: Term,
                             ghost targets: set<nat>, ghost height: nat)
    returns (r: Result<seq<(Term, Term)>, GradError>)
    requires Walkable(bound, order, ids.next, height) && FitTargets(targets, bound, order, ids.next)
    requires c in order && c.op.kind.Checkpoint? && c.op.dtype.IsFloat() && |c.args| == 1
    modifies ids
    ensures ids.next >= old(ids.next)
    ensures Differentiable(bound + order) ==> r.Success?
    ensures r.Success? ==> Delivers(c, g, r.value, targets)
    decreases height, 1, 0
  {
    var a := c.args[0];
    RegionInOrder(bound, order, c);
    ghost var first := ids.next;
    var region, copies, shared;
    ghost var outside;
    region, outside, copies, shared := CopyInterior(ids, bound, order, c);
    ghost var next := ids.next;
    if a.id in copies {
      r := DifferentiateInterior(ids, bound, order, c, g, region, outside, copies, shared, first, targets, height);
    } else {
      r := Success([(a, g)]);
      OneCarries(a, g, targets);
    }
    if r.Success? {
      RegionIsDelivered(bound, order, c, g, region, outside, copies, shared, first, next, height, r.value, targets);
    }
  }

  lemma OneCarries(n: Term, g: Term, targets: set<nat>)
    ensures Carries([(n, g)], g, n, targets)
  {
    forall w: World, t: nat | t in targets
      ensures Flow(w, t, [(n, g)]) == Eval(w, g) * Tangent(w, t, n)
    {
      FlowOfOne(w, t, n, g, Eval(w, g), Tangent(w, t, n));
    }
  }

  lemma RegionIsDelivered(bound: seq<Term>, order: seq<Term>, c: Term, g: Term, region: seq<Term>, outside: set<nat>,
                          copies: map<nat, Term>, shared: map<nat, Term>, first: nat, next: nat, height: nat,
                          out: seq<(Term, Term)>, targets: set<nat>)
    requires Walkable(bound, order, first, height) && FitTargets(targets, bound, order, first)
    requires c in order && |c.args| == 1 && c.op.kind.Checkpoint? && c.op.dtype.IsFloat()
    requires RegionOf(bound, order, c, region, outside)
    requires Copied(region, |region|, outside, copies, shared, first, next)
    requires InputsIn(out, region) && Carries(out, g, Image(copies, c.args[0]), targets)
    ensures Delivers(c, g, out, targets)
  {
    RegionInOrder(bound, order, c);
    forall w: World, t: nat | t in targets
      ensures Tangent(w, t, Image(copies, c.args[0])) == Tangent(w, t, c.args[0])
    {
      RootStandsFor(w, t, bound, order, c, region, outside, copies, shared, first, next, height);
    }
    StandInDelivers(c, g, Image(copies, c.args[0]), out, targets);
  }

  method Backward(ids: NodeIds, ghost bound: seq<Term>, order: seq<Term>, start: map<nat, Term>,
                  ghost targets: set<nat>, ghost height: nat)
    returns (r: Result<map<nat, Term>, GradError>)
    requires Walkable(bound, order, ids.next, height) && FitTargets(targets, bound, order, ids.next)
    requires KeysIn(start, bound + order)
    modifies ids
    ensures ids.next >= old(ids.next)
    ensures Differentiable(bound + order) ==> r.Success?
    ensures r.Success? ==> KeysIn(r.value, bound + order)
    ensures r.Success? ==> AllConserved(targets, bound, order, 0, start, r.value)
    decreases height, 2
  {
    var cotangents := start;
    StartConserved(targets, bound, order, start);
    var i := |order|;
    while i > 0
      invariant 0 <= i <= |order| && ids.next >= old(ids.next)
      invariant KeysIn(cotangents, bound + order)
      invariant AllConserved(targets, bound, order, i, start, cotangents)
    {
      var node := order[i - 1];
      if node.id in cotangents && node.op.dtype.IsFloat() {
        WalkableLater(bound, order, old(ids.next), ids.next, height, targets);
        var after := Step(ids, bound, order, i, start, cotangents, targets, height);
        if after.Failure? {
          return Failure(after.error);
        }
        cotangents := after.value;
      } else {
        AllSkip(targets, bound, order, i, start, cotangents);
      }
      i := i - 1;
    }
    return Success(cotangents);
  }

  lemma WalkableLater(bound: seq<Term>, order: seq<Term>, next: nat, later: nat, height: nat, targets: set<nat>)
    requires Walkable(bound, order, next, height) && FitTargets(targets, bound, order, next) && next <= later
    ensures Walkable(bound, order, later, height) && FitTargets(targets, bound, order, later)
  {
  }

  lemma StartConserved(targets: set<nat>, bound: seq<Term>, order: seq<Term>, start: map<nat, Term>)
    ensures AllConserved(targets, bound, order, |order|, start, start)
  {
    assert order[..|order|] == order && order[|order|..] == [];
  }

  lemma AllSkip(targets: set<nat>, bound: seq<Term>, order: seq<Term>, i: nat, start: map<nat, Term>, cotangents: map<nat, Term>)
    requires 0 < i <= |order| && AllConserved(targets, bound, order, i, start, cotangents)
    requires Topological(bound + order) && forall t :: t in targets ==> FitsTarget(t, bound, order)
    requires order[i - 1].id !in cotangents || !order[i - 1].op.dtype.IsFloat()
    ensures AllConserved(targets, bound, order, i - 1, start, cotangents)
  {
    assert order[i - 1] in bound + order by {
      assert (bound + order)[|bound| + i - 1] == order[i - 1];
    }
    forall j, k | 0 <= j < k < |order|
      ensures order[j].id != order[k].id
    {
      assert (bound + order)[|bound| + j] == order[j] && (bound + order)[|bound| + k] == order[k];
    }
    var rest: nat := i - 1;
    forall w: World, t: nat | t in targets
      ensures Conserved(w, t, bound, order, rest, start, cotangents)
    {
      assert Conserved(w, t, bound, order, i, start, cotangents);
      SkipConserves(w, t, bound, order, i, start, cotangents);
    }
  }

  /** One node with a cotangent: works out its contributions and accumulates them. */
  method Step(ids: NodeIds, ghost bound: seq<Term>, order: seq<Term>, i: nat, ghost start: map<nat, Term>,
              cotangents: map<nat, Term>, ghost targets: set<nat>, ghost height: nat)
    returns (r: Result<map<nat, Term>, GradError>)
    requires Walkable(bound, order, ids.next, height) && FitTargets(targets, bound, order, ids.next)
    requires 0 < i <= |order| && order[i - 1].id in cotangents && order[i - 1].op.dtype.IsFloat()
    requires KeysIn(cotangents, bound + order) && AllConserved(targets, bound, order, i, start, cotangents)
    modifies ids
    ensures ids.next >= old(ids.next)
    ensures Differentiable(bound + order) ==> r.Success?
    ensures r.Success? ==> KeysIn(r.value, bound + order) && AllConserved(targets, bound, order, i - 1, start, r.value)
    decreases height, 1, 1
  {
    var node := order[i - 1];
    ghost var rest := bound + order[..i - 1];
    NodeInOrder(bound, order, i);
    var out;
    if node.op.kind.Checkpoint? {
      out := DifferentiateRegion(ids, bound, order, node, cotangents[node.id], targets, height);
    } else {
      out := Propagate(ids, node, cotangents[node.id]);
      if out.Success? {
        AdjointDelivers(node, cotangents[node.id], out.value, targets);
      }
    }
    if out.Failure? {
      return Failure(out.error);
    }
    ContributionsAreBefore(bound, order, i, cotangents[node.id], out.value, targets);
    var after := AccumulateAll(ids, cotangents, out.value, rest);
    AllDeliver(targets, bound, order, i, start, cotangents, after, out.value);
    KeysStayIn(bound, order, i, cotangents, after);
    return Success(after);
  }

  lemma NodeInOrder(bound: seq<Term>, order: seq<Term>, i: nat)
    requires 0 < i <= |order|
    ensures order[i - 1] in order && order[i - 1] in bound + order
  {
    assert (bound + order)[|bound| + i - 1] == order[i - 1];
  }

  lemma AdjointDelivers(node: Term, g: Term, out: seq<(Term, Term)>, targets: set<nat>)
    requires Adjoint(node, g, out)
    ensures Delivers(node, g, out, targets)
  {
    forall k | 0 <= k < |out|
      ensures out[k].0 in Below(node) && out[k].0 != node
    {
      var j :| 0 <= j < |node.args| && node.args[j] == out[k].0;
      ArgBelow(node, j);
    }
  }

  /** Contributions go to nodes that are still to be walked, or to inputs of the walk. */
  lemma ContributionsAreBefore(bound: seq<Term>, order: seq<Term>, i: nat, g: Term, out: seq<(Term, Term)>, targets: set<nat>)
    requires 0 < i <= |order| && Topological(bound + order) && Delivers(order[i - 1], g, out, targets)
    ensures DistinctIds(bound + order[..i - 1])
    ensures forall k :: 0 <= k < |out| ==> out[k].0 in bound + order[..i - 1]
  {
    var all, at := bound + order, |bound| + i - 1;
    assert all[at] == order[i - 1] && all[..at] == bound + order[..i - 1];
    assert forall j :: 0 <= j < at ==> all[..at][j] == all[j];
    forall k | 0 <= k < |out|
      ensures out[k].0 in all[..at]
    {
      BelowIsBefore(all, at, out[k].0);
    }
  }

  lemma AllDeliver(targets: set<nat>, bound: seq<Term>, order: seq<Term>, i: nat, start: map<nat, Term>,
                   before: map<nat, Term>, after: map<nat, Term>, out: seq<(Term, Term)>)
    requires 0 < i <= |order| && AllConserved(targets, bound, order, i, start, before) && Topological(bound + order)
    requires order[i - 1].id in before && order[i - 1].op.dtype.IsFloat()
    requires Delivers(order[i - 1], before[order[i - 1].id], out, targets)
    requires Received(bound + order[..i - 1], before, after, out) && KeepsOthers(bound + order[..i - 1], before, after)
    ensures AllConserved(targets, bound, order, i - 1, start, after)
  {
    var rest: nat := i - 1;
    forall w: World, t: nat | t in targets
      ensures Conserved(w, t, bound, order, rest, start, after)
    {
      assert Conserved(w, t, bound, order, i, start, before);
      DeliverConserves(w, t, bound, order, i, start, before, after, out, targets);
    }
  }

  lemma KeysStayIn(bound: seq<Term>, order: seq<Term>, i: nat, before: map<nat, Term>, after: map<nat, Term>)
    requires 0 < i <= |order| && KeysIn(before, bound + order) && KeepsOthers(bound + order[..i - 1], before, after)
    ensures KeysIn(after, bound + order)
  {
    var rest, all := bound + order[..i - 1], bound + order;
    forall id | id in after
      ensures HasId(all, id)
    {
      if HasId(rest, id) {
        var j :| 0 <= j < |rest| && rest[j].id == id;
        assert all[j] == rest[j];
      }
    }
  }

  // ----- Gradients

  /** The graph of a loss and its targets: nodes well typed, ids in use, equal ids meaning equal nodes. */
  ghost predicate LossGraph(loss: Term, wrt: seq<Term>, next: nat) {
    && Coherent(Below(loss) + (set x | x in wrt))
    && (forall x :: x in Below(loss) ==> Typed(x) && x.id < next)
    && (forall x :: x in wrt ==> x.id < next)
  }

  /** The gradient evaluates to the derivative of the loss, in every world. */
  ghost predicate IsGradient(gradient: Term, target: Term, loss: Term) {
    forall w: World :: Eval(w, gradient) == Tangent(w, target.id, loss)
  }

  ghost predicate AreGradients(gradients: seq<Term>, wrt: seq<Term>, loss: Term) {
    && |gradients| == |wrt|
    && forall i :: 0 <= i < |wrt| && Exposed(wrt[i].id, loss) ==> IsGradient(gradients[i], wrt[i], loss)
  }

  ghost function ExposedIds(wrt: seq<Term>, loss: Term): set<nat> {
    set x | x in wrt && Exposed(x.id, loss) :: x.id
  }

  lemma LossIsWalkable(loss: Term, wrt: seq<Term>, next: nat, order: seq<Term>)
    requires LossGraph(loss, wrt, next) && Topological(order) && forall x :: x in order <==> x in Below(loss)
    requires order != [] && order[|order| - 1] == loss && forall x :: x in wrt ==> x.op.dtype.IsFloat()
    ensures Walkable([], order, next, Height(loss))
    ensures FitTargets(ExposedIds(wrt, loss), [], order, next)
  {
    assert [] + order == order;
    forall x | x in order
      ensures Height(x) <= Height(loss) && x in Below(order[|order| - 1])
    {
      BelowTransitive(loss, x);
    }
    forall t | t in ExposedIds(wrt, loss)
      ensures t < next && FitsTarget(t, [], order)
    {
      var target :| target in wrt && Exposed(target.id, loss) && target.id == t;
      forall x | x in order && x.id == t
        ensures x.op.dtype.IsFloat()
      {
        assert x == target;
      }
    }
  }

  lemma SettledIsGradient(w: World, t: nat, order: seq<Term>, cotangents: map<nat, Term>)
    requires KeysIn(cotangents, order)
    ensures Settled(w, t, order, cotangents) == Gradient(w, t, cotangents)
    ensures Pending(w, t, [], cotangents) == 0.0
  {
    NothingPending(w, t, [], cotangents);
  }

  lemma OneTimes(x: real, y: real)
    requires x == 1.0
    ensures x * y == y
  {
  }

  /** At the end of a whole walk the cotangent of a target is all that was owed to it. */
  lemma WalkSettles(w: World, t: nat, order: seq<Term>, start: map<nat, Term>, cotangents: map<nat, Term>)
    requires KeysIn(cotangents, order) && Conserved(w, t, [], order, 0, start, cotangents)
    ensures Gradient(w, t, cotangents) == Pending(w, t, order, start)
  {
    assert [] + order == order;
    ConservedAtEnd(w, t, [], order, start, cotangents);
    SettledIsGradient(w, t, order, cotangents);
  }

  /** A cotangent of one at the loss owes the derivative of the loss. */
  lemma LossOwes(w: World, t: nat, loss: Term, order: seq<Term>, one: Term, start: map<nat, Term>)
    requires DistinctIds(order) && loss in order && Eval(w, one) == 1.0 && start == map[loss.id := one]
    ensures Pending(w, t, order, start) == Tangent(w, t, loss)
  {
    PendingOfOne(w, t, order, loss, one);
    OneTimes(Eval(w, one), Tangent(w, t, loss));
  }

  /** Reads one gradient per target from the finished walk. */
  method ReadGradients(ids: NodeIds, wrt: seq<Term>, cotangents: map<nat, Term>) returns (gradients: seq<Term>)
    modifies ids
    ensures |gradients| == |wrt| && ids.next >= old(ids.next)
    ensures forall i, w: World :: 0 <= i < |wrt| ==> Eval(w, gradients[i]) == Gradient(w, wrt[i].id, cotangents)
  {
    gradients := [];
    for i := 0 to |wrt|
      invariant |gradients| == i && ids.next >= old(ids.next)
      invariant forall j, w: World :: 0 <= j < i ==> Eval(w, gradients[j]) == Gradient(w, wrt[j].id, cotangents)
    {
      var gradient;
      if wrt[i].id in cotangents {
        gradient := cotangents[wrt[i].id];
      } else {
        gradient := ids.Full(0.0, wrt[i].op.dtype);
      }
      gradients := gradients + [gradient];
    }
  }

  /** Floating point throughout the ends, and no operation without an adjoint on the way. */
  ghost predicate CanDifferentiate(loss: Term, wrt: seq<Term>) {
    && loss.op.dtype.IsFloat() && (forall x :: x in wrt ==> x.op.dtype.IsFloat())
    && forall x :: x in Below(loss) ==> !x.op.kind.Barred? && !x.op.kind.Opaque?
  }

  /**
   * Gradients of a loss with respect to some nodes. Each one whose target is exposed is the forward-mode derivative,
   * whatever is shared and wherever checkpoints stand.
   */
  method Grad(ids: NodeIds, loss: Term, wrt: seq<Term>) returns (r: Result<seq<Term>, GradError>)
    requires LossGraph(loss, wrt, ids.next)
    modifies ids
    ensures ids.next >= old(ids.next)
    ensures r.Success? ==> AreGradients(r.value, wrt, loss)
    ensures r.Success? ==> loss.op.dtype.IsFloat() && forall x :: x in wrt ==> x.op.dtype.IsFloat()
    ensures r.Success? ==> forall x :: x in Below(loss) ==> !x.op.kind.Barred?
    ensures CanDifferentiate(loss, wrt) ==> r.Success?
  {
    if !loss.op.dtype.IsFloat() {
      return Failure(NonFloatLoss);
    }
    for i := 0 to |wrt|
      invariant forall j :: 0 <= j < i ==> wrt[j].op.dtype.IsFloat()
    {
      if !wrt[i].op.dtype.IsFloat() {
        return Failure(NonFloatTarget(i));
      }
    }
    var order := Topo(loss);
    for i := 0 to |order|
      invariant forall j :: 0 <= j < i ==> !order[j].op.kind.Barred?
    {
      if order[i].op.kind.Barred? {
        assert order[i] in order;
        return Failure(NotDifferentiable(order[i].op.kind.tag));
      }
    }
    r := GradAlong(ids, loss, wrt, order);
  }

  /** The walk over a checked order, from a cotangent of one at the loss. */
  method GradAlong(ids: NodeIds, loss: Term, wrt: seq<Term>, order: seq<Term>) returns (r: Result<seq<Term>, GradError>)
    requires LossGraph(loss, wrt, ids.next) && loss.op.dtype.IsFloat() && forall x :: x in wrt ==> x.op.dtype.IsFloat()
    requires Topological(order) && forall x :: x in order <==> x in Below(loss)
    requires order != [] && order[|order| - 1] == loss
    modifies ids
    ensures ids.next >= old(ids.next)
    ensures r.Success? ==> AreGradients(r.value, wrt, loss)
    ensures Differentiable(order) ==> r.Success?
  {
    ghost var targets := ExposedIds(wrt, loss);
    LossIsWalkable(loss, wrt, ids.next, order);
    ghost var next := ids.next;
    var one := ids.Full(1.0, loss.op.dtype);
    WalkableLater([], order, next, ids.next, Height(loss), targets);
    var start: map<nat, Term> := map[loss.id := one];
    assert [] + order == order;
    assert loss in order;
    RootIsKey([], order, loss);
    var walked := Backward(ids, [], order, start, targets, Height(loss));
    if walked.Failure? {
      return Failure(walked.error);
    }
    var gradients := ReadGradients(ids, wrt, walked.value);
    GradientsRead(loss, wrt, order, one, start, walked.value, gradients);
    return Success(gradients);
  }

  lemma GradientsRead(loss: Term, wrt: seq<Term>, order: seq<Term>, one: Term, start: map<nat, Term>,
                      cotangents: map<nat, Term>, gradients: seq<Term>)
    requires Topological(order) && loss in order && KeysIn(cotangents, order)
    requires forall w: World :: Eval(w, one) == 1.0
    requires start == map[loss.id := one] && AllConserved(ExposedIds(wrt, loss), [], order, 0, start, cotangents)
    requires |gradients| == |wrt|
    requires forall i, w: World :: 0 <= i < |wrt| ==> Eval(w, gradients[i]) == Gradient(w, wrt[i].id, cotangents)
    ensures AreGradients(gradients, wrt, loss)
  {
    forall i | 0 <= i < |wrt| && Exposed(wrt[i].id, loss)
      ensures IsGradient(gradients[i], wrt[i], loss)
    {
      forall w: World
        ensures Eval(w, gradients[i]) == Tangent(w, wrt[i].id, loss)
      {
        assert wrt[i] in wrt && wrt[i].id in ExposedIds(wrt, loss);
        assert Conserved(w, wrt[i].id, [], order, 0, start, cotangents);
        WalkSettles(w, wrt[i].id, order, start, cotangents);
        LossOwes(w, wrt[i].id, loss, order, one, start);
      }
    }
  }
}
