/** The reuse edges of a packing, and the conflict check made while they are collected. */
module ReuseEdges {
  import opened Wrappers
  import opened Lowered
  import opened Liveness
  import opened Sorting
  import opened Packing
  import opened Placement

  /** After instruction `after`, `next` may reuse the storage of `previous`; `next` is written from `before` on. */
  datatype ReuseEdge = ReuseEdge(previous: nat, next: nat, after: nat, before: nat)

  predicate SharesAddress(a: Assignment, b: Assignment) {
    a.segment == b.segment && a.offset < b.offset + b.bytes && b.offset < a.offset + a.bytes
  }

  ghost predicate HasByte(a: Assignment, byte: nat) {
    a.offset <= byte < a.offset + a.bytes
  }

  ghost predicate IsInside(a: Assignment, b: Assignment) {
    a.bytes == 0 && b.offset < a.offset < b.offset + b.bytes
  }

  /** Sharing an address is having a byte in common, or standing without bytes strictly inside the other. */
  lemma SharingMeans(a: Assignment, b: Assignment)
    ensures SharesAddress(a, b) <==>
            a.segment == b.segment && ((exists byte: nat :: HasByte(a, byte) && HasByte(b, byte)) || IsInside(a, b) || IsInside(b, a))
  {
    if SharesAddress(a, b) && a.bytes > 0 && b.bytes > 0 {
      assert HasByte(a, if a.offset < b.offset then b.offset else a.offset) && HasByte(b, if a.offset < b.offset then b.offset else a.offset);
    }
  }

  function EdgeFor(a: Assignment, b: Assignment): ReuseEdge
    requires a.interval.end > 0
  {
    ReuseEdge(a.value, b.value, a.interval.end - 1, b.interval.start)
  }

  ghost predicate InStartOrder(assignments: seq<Assignment>) {
    && (forall i :: 0 <= i < |assignments| ==> assignments[i].interval.start < assignments[i].interval.end)
    && (forall i, j :: 0 <= i < j < |assignments| ==> assignments[i].interval.start <= assignments[j].interval.start)
  }

  /** The edge of some earlier assignment whose address range meets that of a later one. */
  ghost predicate IsReuse(assignments: seq<Assignment>, e: ReuseEdge)
    requires InStartOrder(assignments)
  {
    exists i, j :: 0 <= i < j < |assignments| && SharesAddress(assignments[i], assignments[j])
                   && e == EdgeFor(assignments[i], assignments[j])
  }

  ghost predicate ConflictAt(assignments: seq<Assignment>, i: int, j: int) {
    0 <= i < j < |assignments| && SharesAddress(assignments[i], assignments[j])
    && assignments[i].interval.Overlaps(assignments[j].interval)
  }

  ghost predicate Conflict(assignments: seq<Assignment>) {
    exists i, j :: ConflictAt(assignments, i, j)
  }

  /** The sort key `(before, after, next, previous)`. */
  predicate EdgeLeq(a: ReuseEdge, b: ReuseEdge) {
    a.before < b.before || (a.before == b.before &&
    (a.after < b.after || (a.after == b.after &&
    (a.next < b.next || (a.next == b.next && a.previous <= b.previous)))))
  }

  ghost predicate StrictlyOrdered(edges: seq<ReuseEdge>) {
    forall i, j :: 0 <= i < j < |edges| ==> EdgeLeq(edges[i], edges[j]) && edges[i] != edges[j]
  }

  /** By the instruction that waits, the one it waits for, and the values. */
  lemma OrderedEdges(edges: seq<ReuseEdge>, i: nat, j: nat)
    requires StrictlyOrdered(edges) && i < j < |edges|
    ensures edges[i].before <= edges[j].before
    ensures edges[i].before == edges[j].before ==> edges[i].after <= edges[j].after
    ensures edges[i].before == edges[j].before && edges[i].after == edges[j].after ==> edges[i].next <= edges[j].next
    ensures edges[i].before == edges[j].before && edges[i].after == edges[j].after && edges[i].next == edges[j].next ==>
              edges[i].previous < edges[j].previous
  {
    assert EdgeLeq(edges[i], edges[j]) && edges[i] != edges[j];
  }

  function Dedup(edges: seq<ReuseEdge>): seq<ReuseEdge> {
    if |edges| <= 1 then edges
    else if edges[0] == edges[1] then Dedup(edges[1..])
    else [edges[0]] + Dedup(edges[1..])
  }

  lemma StrictlyOrderedHead(head: ReuseEdge, rest: seq<ReuseEdge>)
    requires StrictlyOrdered(rest) && forall e :: e in rest ==> EdgeLeq(head, e) && e != head
    ensures StrictlyOrdered([head] + rest)
  {
    var all := [head] + rest;
    forall i, j | 0 <= i < j < |all|
      ensures EdgeLeq(all[i], all[j]) && all[i] != all[j]
    {
      assert all[j] == rest[j - 1] && rest[j - 1] in rest;
    }
  }

  /** In an ordered list a head that differs from its neighbour is below all the rest. */
  lemma HeadIsLess(edges: seq<ReuseEdge>, k: nat)
    requires Ordered(EdgeLeq, edges) && 0 < k < |edges| && edges[0] != edges[1]
    ensures EdgeLeq(edges[0], edges[k]) && edges[k] != edges[0]
  {
    assert EdgeLeq(edges[0], edges[1]) && (k == 1 || EdgeLeq(edges[1], edges[k]));
  }

  lemma {:induction false} DedupKeeps(edges: seq<ReuseEdge>)
    requires Ordered(EdgeLeq, edges)
    ensures StrictlyOrdered(Dedup(edges))
    ensures forall e :: e in Dedup(edges) <==> e in edges
  {
    if |edges| > 1 {
      var rest := edges[1..];
      DedupKeeps(rest);
      assert forall e :: e in edges <==> e == edges[0] || e in rest;
      if edges[0] != edges[1] {
        forall e | e in Dedup(rest)
          ensures EdgeLeq(edges[0], e) && e != edges[0]
        {
          assert e in rest;
          var k :| 0 <= k < |rest| && rest[k] == e;
          HeadIsLess(edges, k + 1);
        }
        StrictlyOrderedHead(edges[0], Dedup(rest));
      }
    }
  }

  /** A strictly ordered list is determined by its elements. */
  lemma {:induction false} StrictlyOrderedOnce(a: seq<ReuseEdge>, b: seq<ReuseEdge>)
    requires StrictlyOrdered(a) && StrictlyOrdered(b)
    requires forall e :: e in a <==> e in b
    ensures a == b
    decreases |a|
  {
    assert b == [] || b[0] in b;
    if a != [] {
      assert a[0] in b && b != [] && b[0] in a;
      assert a[0] == b[0];
      forall e
        ensures e in a[1..] <==> e in b[1..]
      {
        assert e in a <==> e == a[0] || e in a[1..];
        assert e in b <==> e == b[0] || e in b[1..];
        assert a[0] !in a[1..] && b[0] !in b[1..];
      }
      StrictlyOrderedOnce(a[1..], b[1..]);
      assert a == [a[0]] + a[1..] && b == [b[0]] + b[1..];
    }
  }

  /** Every reuse is ordered: the previous value's last use comes before the next value's first write. */
  lemma ReuseIsOrdered(assignments: seq<Assignment>, e: ReuseEdge)
    requires InStartOrder(assignments) && !Conflict(assignments) && IsReuse(assignments, e)
    ensures e.after < e.before
  {
    var i, j :| 0 <= i < j < |assignments| && SharesAddress(assignments[i], assignments[j])
                && e == EdgeFor(assignments[i], assignments[j]);
    assert !ConflictAt(assignments, i, j);
  }

  /** Byte-disjoint values with positive sizes never trip the conflict test. */
  lemma ConflictNeedsEmptyValue(assignments: seq<Assignment>, i: nat, j: nat)
    requires Safe(assignments) && ConflictAt(assignments, i, j)
    ensures var a, b := assignments[i], assignments[j];
            || (a.bytes == 0 && b.offset < a.offset < b.offset + b.bytes)
            || (b.bytes == 0 && a.offset < b.offset < a.offset + a.bytes)
  {
    var a, b := assignments[i], assignments[j];
    var x := Max(a.offset, b.offset);
    assert Disjoint(a.Bytes(), b.Bytes());
    assert !(a.Bytes().Has(x) && b.Bytes().Has(x));
  }

  /** `b` has no bytes and stands strictly inside `a` while both are live. */
  ghost predicate Surrounds(a: Assignment, b: Assignment) {
    && b.bytes == 0 && a.segment == b.segment && a.offset < b.offset < a.offset + a.bytes
    && a.interval.Overlaps(b.interval)
  }

  ghost predicate SurroundsAt(assignments: seq<Assignment>, i: int, j: int) {
    0 <= i < |assignments| && 0 <= j < |assignments| && Surrounds(assignments[i], assignments[j])
  }

  /** Some value without bytes stands strictly inside another that is live at the same time. */
  ghost predicate SurroundsEmptyValue(assignments: seq<Assignment>) {
    exists i, j :: SurroundsAt(assignments, i, j)
  }

  /** For byte-disjoint values the conflict test fails exactly when a live value surrounds an empty one. */
  lemma ConflictIsSurrounding(assignments: seq<Assignment>)
    requires Safe(assignments)
    ensures Conflict(assignments) <==> SurroundsEmptyValue(assignments)
  {
    if Conflict(assignments) {
      var i, j :| ConflictAt(assignments, i, j);
      ConflictNeedsEmptyValue(assignments, i, j);
      assert SurroundsAt(assignments, i, j) || SurroundsAt(assignments, j, i);
    }
    if SurroundsEmptyValue(assignments) {
      var i, j :| SurroundsAt(assignments, i, j);
      assert ConflictAt(assignments, i, j) || ConflictAt(assignments, j, i);
    }
  }

  method CollectReuseEdges(assignments: seq<Assignment>) returns (r: Result<seq<ReuseEdge>, PlannerError>)
    requires InStartOrder(assignments)
    ensures r.Success? <==> !Conflict(assignments)
    ensures r.Success? ==> StrictlyOrdered(r.value) && forall e :: e in r.value <==> IsReuse(assignments, e)
    ensures r.Failure? ==> exists i, j :: ConflictAt(assignments, i, j)
                                          && r.error == PackingConflict(assignments[i].value, assignments[j].value)
  {
    var edges: seq<ReuseEdge> := [];
    for j := 0 to |assignments|
      invariant forall i', j' :: ConflictAt(assignments, i', j') ==> j <= j'
      invariant forall e :: e in edges ==> IsReuse(assignments, e)
      invariant forall i', j' :: 0 <= i' < j' < j && SharesAddress(assignments[i'], assignments[j']) ==>
        EdgeFor(assignments[i'], assignments[j']) in edges
    {
      var next := assignments[j];
      for i := 0 to j
        invariant forall i', j' :: ConflictAt(assignments, i', j') ==> j < j' || (j == j' && i <= i')
        invariant forall e :: e in edges ==> IsReuse(assignments, e)
        invariant forall i', j' :: 0 <= i' < j' < |assignments| && (j' < j || (j' == j && i' < i))
                                   && SharesAddress(assignments[i'], assignments[j']) ==>
          EdgeFor(assignments[i'], assignments[j']) in edges
      {
        var previous := assignments[i];
        if previous.segment != next.segment {
          continue;
        }
        var addressOverlap := previous.offset < next.offset + next.bytes && next.offset < previous.offset + previous.bytes;
        if !addressOverlap {
          continue;
        }
        if previous.interval.Overlaps(next.interval) {
          assert ConflictAt(assignments, i, j);
          return Failure(PackingConflict(previous.value, next.value));
        }
        if previous.interval.end <= next.interval.start {
          edges := edges + [EdgeFor(previous, next)];
        }
      }
    }
    var sorted := Sort(EdgeLeq, edges);
    SortKeeps(EdgeLeq, edges);
    DedupKeeps(sorted);
    return Success(Dedup(sorted));
  }
}
