/** The table of cotangents, and the quantity a reverse walk conserves. */
module Cotangents {
  import opened Dag
  import opened InnerProduct
  import opened ScalarGraph
  import opened AdjointRules

  /** The cotangents of some nodes, zero where none has arrived. */
  ghost function Carried(w: World, nodes: seq<Term>, cotangents: map<nat, Term>): (vs: seq<real>)
    ensures |vs| == |nodes| && forall k :: 0 <= k < |vs| ==> vs[k] == Gradient(w, nodes[k].id, cotangents)
  {
    seq(|nodes|, k requires 0 <= k < |nodes| => Gradient(w, nodes[k].id, cotangents))
  }

  ghost function Gradient(w: World, id: nat, cotangents: map<nat, Term>): real {
    if id in cotangents then Eval(w, cotangents[id]) else 0.0
  }

  ghost function NodeTangents(w: World, t: nat, nodes: seq<Term>): (ts: seq<real>)
    ensures |ts| == |nodes| && forall k :: 0 <= k < |ts| ==> ts[k] == Tangent(w, t, nodes[k])
  {
    seq(|nodes|, k requires 0 <= k < |nodes| => Tangent(w, t, nodes[k]))
  }

  /** What the cotangents of these nodes still owe to `t`: each one times the tangent of its node. */
  ghost function Pending(w: World, t: nat, nodes: seq<Term>, cotangents: map<nat, Term>): real {
    Dot(Carried(w, nodes, cotangents), NodeTangents(w, t, nodes))
  }

  lemma PendingSnoc(w: World, t: nat, nodes: seq<Term>, n: Term, cotangents: map<nat, Term>)
    ensures Pending(w, t, nodes + [n], cotangents)
            == Pending(w, t, nodes, cotangents) + Gradient(w, n.id, cotangents) * Tangent(w, t, n)
  {
    DotExtends(Carried(w, nodes, cotangents), NodeTangents(w, t, nodes),
               Carried(w, nodes + [n], cotangents), NodeTangents(w, t, nodes + [n]));
  }

  /** Changing the cotangent of one of the nodes changes what is pending by the difference. */
  lemma PendingUpdate(w: World, t: nat, nodes: seq<Term>, j: nat, before: map<nat, Term>, after: map<nat, Term>, x: real)
    requires DistinctIds(nodes) && j < |nodes|
    requires forall id: nat :: id != nodes[j].id ==> Gradient(w, id, after) == Gradient(w, id, before)
    requires Gradient(w, nodes[j].id, after) == Gradient(w, nodes[j].id, before) + x
    ensures Pending(w, t, nodes, after) == Pending(w, t, nodes, before) + x * Tangent(w, t, nodes[j])
  {
    forall k | 0 <= k < |nodes| && k != j
      ensures nodes[k].id != nodes[j].id
    {
    }
    DotChanges(Carried(w, nodes, before), NodeTangents(w, t, nodes), Carried(w, nodes, after), j, x, |nodes|);
  }

  /** Nothing is pending on nodes without a cotangent. */
  lemma NothingPending(w: World, t: nat, nodes: seq<Term>, cotangents: map<nat, Term>)
    requires forall k :: 0 <= k < |nodes| ==> nodes[k].id !in cotangents
    ensures Pending(w, t, nodes, cotangents) == 0.0
  {
    var vs, ts := Carried(w, nodes, cotangents), NodeTangents(w, t, nodes);
    forall k | 0 <= k < |vs|
      ensures vs[k] * ts[k] == 0.0
    {
      ZeroTimes(vs[k], ts[k]);
    }
    DotOfZeros(vs, ts, |vs|);
  }

  lemma ZeroTimes(x: real, y: real)
    requires x == 0.0 || y == 0.0
    ensures x * y == 0.0
  {
  }

  lemma FlowSnoc(w: World, t: nat, out: seq<(Term, Term)>, input: Term, contribution: Term)
    ensures Flow(w, t, out + [(input, contribution)]) == Flow(w, t, out) + Eval(w, contribution) * Tangent(w, t, input)
  {
    var more := out + [(input, contribution)];
    DotExtends(Contributed(w, out), InputTangents(w, t, out), Contributed(w, more), InputTangents(w, t, more));
  }

  lemma FlowOfNothing(w: World, t: nat)
    ensures Flow(w, t, []) == 0.0
  {
  }

  /** Contributions to nodes that do not vary carry nothing. */
  lemma FlowToConstants(w: World, t: nat, out: seq<(Term, Term)>)
    requires forall k :: 0 <= k < |out| ==> Tangent(w, t, out[k].0) == 0.0
    ensures Flow(w, t, out) == 0.0
  {
    var es, ts := Contributed(w, out), InputTangents(w, t, out);
    forall k | 0 <= k < |es|
      ensures es[k] * ts[k] == 0.0
    {
      ZeroTimes(es[k], ts[k]);
    }
    DotOfZeros(es, ts, |es|);
  }

  // ----- Accumulation

  /** Adds a contribution to the cotangent of a node, or makes it the first one. */
  method Accumulate(ids: NodeIds, cotangents: map<nat, Term>, input: Term, contribution: Term) returns (after: map<nat, Term>)
    modifies ids
    ensures ids.next >= old(ids.next)
    ensures after.Keys == cotangents.Keys + {input.id}
    ensures forall id :: id in cotangents && id != input.id ==> after[id] == cotangents[id]
    ensures forall w: World :: Gradient(w, input.id, after) == Gradient(w, input.id, cotangents) + Eval(w, contribution)
  {
    if input.id in cotangents {
      var sum := ids.Sum(cotangents[input.id], contribution);
      after := cotangents[input.id := sum];
    } else {
      after := cotangents[input.id := contribution];
    }
  }

  /** Between two tables, the contributions `out` have been added to what is pending on the nodes. */
  ghost predicate Received(nodes: seq<Term>, before: map<nat, Term>, after: map<nat, Term>, out: seq<(Term, Term)>) {
    forall w: World, t: nat :: Pending(w, t, nodes, after) == Pending(w, t, nodes, before) + Flow(w, t, out)
  }

  lemma ReceivedNothing(nodes: seq<Term>, cotangents: map<nat, Term>)
    ensures Received(nodes, cotangents, cotangents, [])
  {
    forall w: World, t: nat
      ensures Flow(w, t, []) == 0.0
    {
      FlowOfNothing(w, t);
    }
  }

  lemma ReceivedOneMore(nodes: seq<Term>, first: map<nat, Term>, before: map<nat, Term>, after: map<nat, Term>,
                        out: seq<(Term, Term)>, input: Term, contribution: Term)
    requires Received(nodes, first, before, out) && DistinctIds(nodes) && input in nodes
    requires forall id :: id != input.id ==> (id in before <==> id in after) && (id in before ==> after[id] == before[id])
    requires forall w: World :: Gradient(w, input.id, after) == Gradient(w, input.id, before) + Eval(w, contribution)
    ensures Received(nodes, first, after, out + [(input, contribution)])
  {
    var j :| 0 <= j < |nodes| && nodes[j] == input;
    forall w: World, t: nat
      ensures Pending(w, t, nodes, after) == Pending(w, t, nodes, first) + Flow(w, t, out + [(input, contribution)])
    {
      assert forall id: nat :: id != input.id ==> Gradient(w, id, after) == Gradient(w, id, before);
      PendingUpdate(w, t, nodes, j, before, after, Eval(w, contribution));
      FlowSnoc(w, t, out, input, contribution);
    }
  }

  /** Cotangents are added for nodes of the list only, and those of other nodes are kept. */
  ghost predicate KeepsOthers(nodes: seq<Term>, before: map<nat, Term>, after: map<nat, Term>) {
    && (forall id :: id in before ==> id in after)
    && (forall id :: id in after ==> id in before || HasId(nodes, id))
    && (forall id :: id in before && !HasId(nodes, id) ==> after[id] == before[id])
  }

  /** Accumulates contributions in turn. What becomes pending on the nodes is exactly what the contributions carry. */
  method AccumulateAll(ids: NodeIds, cotangents: map<nat, Term>, out: seq<(Term, Term)>, ghost nodes: seq<Term>)
    returns (after: map<nat, Term>)
    requires DistinctIds(nodes) && forall k :: 0 <= k < |out| ==> out[k].0 in nodes
    modifies ids
    ensures ids.next >= old(ids.next)
    ensures KeepsOthers(nodes, cotangents, after) && Received(nodes, cotangents, after, out)
  {
    after := cotangents;
    ReceivedNothing(nodes, cotangents);
    assert out[..0] == [];
    for k := 0 to |out|
      invariant ids.next >= old(ids.next)
      invariant KeepsOthers(nodes, cotangents, after) && Received(nodes, cotangents, after, out[..k])
    {
      var (input, contribution) := out[k];
      assert HasId(nodes, input.id);
      ghost var before := after;
      after := Accumulate(ids, after, input, contribution);
      assert out[..k + 1] == out[..k] + [(input, contribution)];
      ReceivedOneMore(nodes, cotangents, before, after, out[..k], input, contribution);
    }
    assert out[..|out|] == out;
  }
}
