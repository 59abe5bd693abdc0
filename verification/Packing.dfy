/** The segment packer as functions on values: free lists, placement, and the run over all requests. */
module Packing {
  import opened Wrappers
  import opened Lowered
  import opened Sorting

  // ----- Byte ranges

  /** The half-open byte range `[start, end)`. */
  datatype Range = Range(start: nat, end: nat) {
    predicate Has(b: int) {
      start <= b < end
    }
  }

  function Max(a: nat, b: nat): nat {
    if a < b then b else a
  }

  /** `b` lies in one of the ranges. */
  ghost predicate Covers(ranges: seq<Range>, b: int) {
    exists i :: 0 <= i < |ranges| && ranges[i].Has(b)
  }

  ghost predicate NonEmptyRanges(ranges: seq<Range>) {
    forall i :: 0 <= i < |ranges| ==> ranges[i].start < ranges[i].end
  }

  /** Sorted, disjoint and not even touching: each range is a maximal run of covered bytes. */
  ghost predicate Canonical(ranges: seq<Range>) {
    && NonEmptyRanges(ranges)
    && forall i, j :: 0 <= i < j < |ranges| ==> ranges[i].end < ranges[j].start
  }

  /** The order of the sort key `(start, end)`. */
  predicate RangeLeq(a: Range, b: Range) {
    a.start < b.start || (a.start == b.start && a.end <= b.end)
  }

  /** One step of the merge loop: extend the last range, or start a new one. */
  function Absorb(merged: seq<Range>, r: Range): seq<Range> {
    if merged != [] && r.start <= merged[|merged| - 1].end then
      var last := merged[|merged| - 1];
      merged[..|merged| - 1] + [Range(last.start, Max(last.end, r.end))]
    else
      merged + [r]
  }

  function AbsorbAll(merged: seq<Range>, ranges: seq<Range>): seq<Range>
    decreases ranges
  {
    if ranges == [] then merged else AbsorbAll(Absorb(merged, ranges[0]), ranges[1..])
  }

  function Coalesced(ranges: seq<Range>): seq<Range> {
    AbsorbAll([], Sort(RangeLeq, ranges))
  }

  ghost predicate SortedRanges(ranges: seq<Range>) {
    forall i, j :: 0 <= i < j < |ranges| ==> ranges[i].start <= ranges[j].start
  }

  lemma AbsorbKeeps(merged: seq<Range>, r: Range)
    requires Canonical(merged) && r.start < r.end
    requires merged != [] ==> merged[|merged| - 1].start <= r.start
    ensures Canonical(Absorb(merged, r))
    ensures forall b :: Covers(Absorb(merged, r), b) <==> Covers(merged, b) || r.Has(b)
    ensures Absorb(merged, r) != [] && Absorb(merged, r)[|Absorb(merged, r)| - 1].start <= r.start
  {
    var next := Absorb(merged, r);
    forall b
      ensures Covers(next, b) <==> Covers(merged, b) || r.Has(b)
    {
      if Covers(merged, b) {
        var i :| 0 <= i < |merged| && merged[i].Has(b);
        assert next[i].Has(b);
      }
      if r.Has(b) {
        assert next[|next| - 1].Has(b);
      }
      if Covers(next, b) {
        var i :| 0 <= i < |next| && next[i].Has(b);
        if i < |merged| - 1 {
          assert merged[i].Has(b);
        } else if i == |merged| - 1 {
          assert merged[i].Has(b) || r.Has(b);
        }
      }
    }
  }

  lemma {:induction false} AbsorbAllKeeps(merged: seq<Range>, ranges: seq<Range>)
    requires Canonical(merged) && NonEmptyRanges(ranges) && SortedRanges(ranges)
    requires merged != [] && ranges != [] ==> merged[|merged| - 1].start <= ranges[0].start
    ensures Canonical(AbsorbAll(merged, ranges))
    ensures forall b :: Covers(AbsorbAll(merged, ranges), b) <==> Covers(merged, b) || Covers(ranges, b)
    decreases ranges
  {
    if ranges != [] {
      var r, rest := ranges[0], ranges[1..];
      AbsorbKeeps(merged, r);
      AbsorbAllKeeps(Absorb(merged, r), rest);
      forall b
        ensures Covers(ranges, b) <==> r.Has(b) || Covers(rest, b)
      {
        if Covers(rest, b) {
          var i :| 0 <= i < |rest| && rest[i].Has(b);
          assert ranges[i + 1].Has(b);
        }
        if r.Has(b) {
          assert ranges[0].Has(b);
        }
        if Covers(ranges, b) {
          var i :| 0 <= i < |ranges| && ranges[i].Has(b);
          assert i == 0 || rest[i - 1].Has(b);
        }
      }
    }
  }

  /** Coalescing keeps the covered bytes and leaves only maximal ranges. */
  lemma CoalescedMeaning(ranges: seq<Range>)
    requires NonEmptyRanges(ranges)
    ensures Canonical(Coalesced(ranges))
    ensures forall b :: Covers(Coalesced(ranges), b) <==> Covers(ranges, b)
  {
    var sorted := Sort(RangeLeq, ranges);
    SortKeeps(RangeLeq, ranges);
    forall i | 0 <= i < |sorted|
      ensures sorted[i].start < sorted[i].end
    {
      assert sorted[i] in ranges;
    }
    AbsorbAllKeeps([], sorted);
    forall b
      ensures Covers(sorted, b) <==> Covers(ranges, b)
    {
      if Covers(sorted, b) {
        var i :| 0 <= i < |sorted| && sorted[i].Has(b);
        assert sorted[i] in ranges;
        var j :| 0 <= j < |ranges| && ranges[j] == sorted[i];
        assert ranges[j].Has(b);
      }
      if Covers(ranges, b) {
        var i :| 0 <= i < |ranges| && ranges[i].Has(b);
        assert ranges[i] in sorted;
        var j :| 0 <= j < |sorted| && sorted[j] == ranges[i];
        assert sorted[j].Has(b);
      }
    }
  }

  /** A canonical list is determined by the bytes it covers. */
  lemma {:induction false} CanonicalOnce(a: seq<Range>, b: seq<Range>)
    requires Canonical(a) && Canonical(b)
    requires forall x :: Covers(a, x) <==> Covers(b, x)
    ensures a == b
    decreases |a|
  {
    if a == [] || b == [] {
      if a != [] {
        assert a[0].Has(a[0].start);
        assert Covers(a, a[0].start);
      }
      if b != [] {
        assert b[0].Has(b[0].start);
        assert Covers(b, b[0].start);
      }
    } else {
      FirstRangeOnce(a, b);
      FirstRangeOnce(b, a);
      forall x
        ensures Covers(a[1..], x) <==> Covers(b[1..], x)
      {
        CoversRest(a, x);
        CoversRest(b, x);
      }
      CanonicalOnce(a[1..], b[1..]);
      assert a == [a[0]] + a[1..] && b == [b[0]] + b[1..];
    }
  }

  lemma CoversRest(a: seq<Range>, x: int)
    requires Canonical(a) && a != []
    ensures Covers(a[1..], x) <==> Covers(a, x) && x >= a[0].end
  {
    if Covers(a[1..], x) {
      var i :| 0 <= i < |a[1..]| && a[1..][i].Has(x);
      assert a[i + 1].Has(x);
    }
    if Covers(a, x) && x >= a[0].end {
      var i :| 0 <= i < |a| && a[i].Has(x);
      assert a[1..][i - 1].Has(x);
    }
  }

  lemma FirstRangeOnce(a: seq<Range>, b: seq<Range>)
    requires Canonical(a) && Canonical(b) && a != [] && b != []
    requires forall x :: Covers(a, x) <==> Covers(b, x)
    ensures b[0].start <= a[0].start && (b[0].start == a[0].start ==> a[0].end <= b[0].end)
  {
    assert a[0].Has(a[0].start);
    assert Covers(b, a[0].start);
    assert forall j :: 0 <= j < |b| ==> !b[j].Has(b[0].end);
    assert !Covers(a, b[0].end) && !a[0].Has(b[0].end);
  }

  // ----- Segments under construction

  datatype ActiveAllocation = ActiveAllocation(end: nat, offset: nat, bytes: nat) {
    function Bytes(): Range {
      Range(offset, offset + bytes)
    }
  }

  /** The contents of a `WorkingSegment`. */
  datatype Segment = Segment(
    space: MemorySpace,
    ownership: SegmentOwnership,
    maxBytes: nat,
    granularity: nat,
    alignment: nat,
    usedEnd: nat,
    free: seq<Range>,
    active: seq<ActiveAllocation>)

  ghost predicate Occupied(active: seq<ActiveAllocation>, b: int) {
    exists i :: 0 <= i < |active| && active[i].Bytes().Has(b)
  }

  ghost predicate Disjoint(a: Range, b: Range) {
    forall x :: !(a.Has(x) && b.Has(x))
  }

  /** Free and active ranges tile `[0, usedEnd)` exactly, and the free list is canonical. */
  ghost predicate Tiled(s: Segment) {
    && Canonical(s.free)
    && (forall b :: Covers(s.free, b) <==> 0 <= b < s.usedEnd && !Occupied(s.active, b))
    && (forall i :: 0 <= i < |s.active| ==> s.active[i].offset + s.active[i].bytes <= s.usedEnd)
    && (forall i, j :: 0 <= i < j < |s.active| ==> Disjoint(s.active[i].Bytes(), s.active[j].Bytes()))
  }

  // ----- Retirement

  function StillActive(active: seq<ActiveAllocation>, before: nat): seq<ActiveAllocation> {
    if active == [] then []
    else if active[0].end <= before then StillActive(active[1..], before)
    else [active[0]] + StillActive(active[1..], before)
  }

  function RetiredRanges(active: seq<ActiveAllocation>, before: nat): seq<Range> {
    if active == [] then []
    else if active[0].end <= before && active[0].bytes != 0 then
      [active[0].Bytes()] + RetiredRanges(active[1..], before)
    else RetiredRanges(active[1..], before)
  }

  function Retired(s: Segment, before: nat): Segment {
    s.(active := StillActive(s.active, before), free := Coalesced(s.free + RetiredRanges(s.active, before)))
  }

  lemma {:induction false} StillActiveSplits(active: seq<ActiveAllocation>, before: nat)
    requires forall i, j :: 0 <= i < j < |active| ==> Disjoint(active[i].Bytes(), active[j].Bytes())
    ensures NonEmptyRanges(RetiredRanges(active, before))
    ensures forall b :: Occupied(active, b) <==> Occupied(StillActive(active, before), b) || Covers(RetiredRanges(active, before), b)
    ensures forall b :: !(Occupied(StillActive(active, before), b) && Covers(RetiredRanges(active, before), b))
    ensures forall a :: a in StillActive(active, before) <==> a in active && a.end > before
    ensures forall i, j :: 0 <= i < j < |StillActive(active, before)| ==>
              Disjoint(StillActive(active, before)[i].Bytes(), StillActive(active, before)[j].Bytes())
  {
    if active != [] {
      var first, rest := active[0], active[1..];
      StillActiveSplits(rest, before);
      var still, retired := StillActive(rest, before), RetiredRanges(rest, before);
      OccupiedCons(first, rest);
      OccupiedCons(first, still);
      CoversCons(first.Bytes(), retired);
      assert active == [first] + rest;
      assert forall i :: 0 <= i < |rest| ==> Disjoint(first.Bytes(), rest[i].Bytes());
      assert forall b :: first.Bytes().Has(b) ==> !Occupied(rest, b);
      forall j | 0 <= j < |still|
        ensures Disjoint(first.Bytes(), still[j].Bytes())
      {
        assert still[j] in rest;
      }
    }
  }

  lemma OccupiedCons(first: ActiveAllocation, rest: seq<ActiveAllocation>)
    ensures forall b :: Occupied([first] + rest, b) <==> first.Bytes().Has(b) || Occupied(rest, b)
  {
    forall b
      ensures Occupied([first] + rest, b) <==> first.Bytes().Has(b) || Occupied(rest, b)
    {
      if first.Bytes().Has(b) {
        assert ([first] + rest)[0].Bytes().Has(b);
      }
      if Occupied(rest, b) {
        var i :| 0 <= i < |rest| && rest[i].Bytes().Has(b);
        assert ([first] + rest)[i + 1].Bytes().Has(b);
      }
    }
  }

  lemma OccupiedSnoc(active: seq<ActiveAllocation>, last: ActiveAllocation)
    ensures forall b :: Occupied(active + [last], b) <==> last.Bytes().Has(b) || Occupied(active, b)
  {
    forall b
      ensures Occupied(active + [last], b) <==> last.Bytes().Has(b) || Occupied(active, b)
    {
      if last.Bytes().Has(b) {
        assert (active + [last])[|active|].Bytes().Has(b);
      }
      if Occupied(active, b) {
        var i :| 0 <= i < |active| && active[i].Bytes().Has(b);
        assert (active + [last])[i].Bytes().Has(b);
      }
    }
  }

  lemma CoversCons(first: Range, rest: seq<Range>)
    ensures forall b :: Covers([first] + rest, b) <==> first.Has(b) || Covers(rest, b)
  {
    CoversConcat([first], rest);
    assert [first][0] == first;
    assert forall b :: Covers([first], b) <==> first.Has(b);
  }

  lemma CoversConcat(a: seq<Range>, c: seq<Range>)
    ensures forall b :: Covers(a + c, b) <==> Covers(a, b) || Covers(c, b)
  {
    forall b
      ensures Covers(a + c, b) <==> Covers(a, b) || Covers(c, b)
    {
      if Covers(a, b) {
        var i :| 0 <= i < |a| && a[i].Has(b);
        assert (a + c)[i].Has(b);
      }
      if Covers(c, b) {
        var i :| 0 <= i < |c| && c[i].Has(b);
        assert (a + c)[|a| + i].Has(b);
      }
    }
  }

  lemma RetiredTiled(s: Segment, before: nat)
    requires Tiled(s)
    ensures Tiled(Retired(s, before))
    ensures forall a :: a in Retired(s, before).active <==> a in s.active && a.end > before
  {
    StillActiveSplits(s.active, before);
    var retired := RetiredRanges(s.active, before);
    CoversConcat(s.free, retired);
    CoalescedMeaning(s.free + retired);
    var t := Retired(s, before);
    forall i | 0 <= i < |t.active|
      ensures t.active[i].offset + t.active[i].bytes <= t.usedEnd
    {
      assert t.active[i] in s.active;
    }
    forall b
      ensures Covers(t.free, b) <==> 0 <= b < t.usedEnd && !Occupied(t.active, b)
    {
      if Occupied(s.active, b) {
        var i :| 0 <= i < |s.active| && s.active[i].Bytes().Has(b);
      }
    }
  }

  // ----- Allocation inside one segment

  /** A segment with the allocation recorded as active. */
  function Activated(s: Segment, alignment: nat, allocation: ActiveAllocation): Segment {
    s.(alignment := Max(s.alignment, alignment), active := s.active + [allocation])
  }

  /** The range on its own, unless it is empty. */
  function NonEmpty(r: Range): seq<Range> {
    if r.start < r.end then [r] else []
  }

  /** `consume_free_range`: removes `[offset, offset + bytes)` from free range `g`. */
  function Consumed(s: Segment, g: nat, offset: nat, bytes: nat): Segment
    requires g < |s.free|
  {
    var left, right := NonEmpty(Range(s.free[g].start, offset)), NonEmpty(Range(offset + bytes, s.free[g].end));
    s.(free := Coalesced(s.free[..g] + s.free[g + 1..] + left + right))
  }

  /** Growing the tail: any alignment gap becomes free space. */
  function Grown(s: Segment, offset: nat, bytes: nat): Segment {
    var gap := if s.usedEnd < offset then Coalesced(s.free + [Range(s.usedEnd, offset)]) else s.free;
    s.(free := gap, usedEnd := offset + bytes)
  }

  lemma CoversWithout(ranges: seq<Range>, g: nat)
    requires Canonical(ranges) && g < |ranges|
    ensures forall b :: Covers(ranges[..g] + ranges[g + 1..], b) <==> Covers(ranges, b) && !ranges[g].Has(b)
  {
    var before, after := ranges[..g], ranges[g + 1..];
    CoversConcat(before, after);
    CoversConcat(before, [ranges[g]] + after);
    CoversCons(ranges[g], after);
    assert ranges == before + ([ranges[g]] + after);
    assert forall i, b :: 0 <= i < g && ranges[g].Has(b) ==> !before[i].Has(b);
    assert forall i, b :: 0 <= i < |after| && ranges[g].Has(b) ==> !after[i].Has(b);
  }

  lemma CoversNonEmpty(r: Range)
    ensures forall b :: Covers(NonEmpty(r), b) <==> r.Has(b)
  {
    if r.start < r.end {
      assert [r][0] == r;
    }
  }

  lemma ConsumedFree(s: Segment, g: nat, offset: nat, bytes: nat)
    requires Canonical(s.free) && g < |s.free|
    requires s.free[g].start <= offset && offset + bytes <= s.free[g].end
    ensures Canonical(Consumed(s, g, offset, bytes).free)
    ensures forall b :: Covers(Consumed(s, g, offset, bytes).free, b) <==>
                        Covers(s.free, b) && !Range(offset, offset + bytes).Has(b)
  {
    var others := s.free[..g] + s.free[g + 1..];
    var l, r := Range(s.free[g].start, offset), Range(offset + bytes, s.free[g].end);
    CoversWithout(s.free, g);
    CoversNonEmpty(l);
    CoversNonEmpty(r);
    CoversConcat(others, NonEmpty(l));
    CoversConcat(others + NonEmpty(l), NonEmpty(r));
    CoalescedMeaning(others + NonEmpty(l) + NonEmpty(r));
    forall b
      ensures Covers(Consumed(s, g, offset, bytes).free, b) <==> Covers(s.free, b) && !Range(offset, offset + bytes).Has(b)
    {
      assert s.free[g].Has(b) ==> Covers(s.free, b);
      assert Covers(others + NonEmpty(l) + NonEmpty(r), b) <==> Covers(others, b) || l.Has(b) || r.Has(b);
    }
  }

  /** Taking part of a free range keeps the tiling. */
  lemma ConsumedTiled(s: Segment, g: nat, alignment: nat, a: ActiveAllocation)
    requires Tiled(s) && g < |s.free|
    requires s.free[g].start <= a.offset && a.offset + a.bytes <= s.free[g].end
    ensures Tiled(Activated(Consumed(s, g, a.offset, a.bytes), alignment, a))
  {
    var t := Activated(Consumed(s, g, a.offset, a.bytes), alignment, a);
    ConsumedFree(s, g, a.offset, a.bytes);
    OccupiedSnoc(s.active, a);
    assert s.free[g].Has(s.free[g].end - 1);
    assert Covers(s.free, s.free[g].end - 1);
    FreshIsDisjoint(s, a);
    forall b | a.Bytes().Has(b)
      ensures Covers(s.free, b)
    {
      assert s.free[g].Has(b);
    }
  }

  /** An allocation inside free space or past the used end shares no byte with an active one. */
  lemma FreshIsDisjoint(s: Segment, a: ActiveAllocation)
    requires Tiled(s)
    requires (exists g :: 0 <= g < |s.free| && s.free[g].start <= a.offset && a.offset + a.bytes <= s.free[g].end) || s.usedEnd <= a.offset
    ensures forall i :: 0 <= i < |s.active| ==> Disjoint(s.active[i].Bytes(), a.Bytes())
  {
    forall i | 0 <= i < |s.active|
      ensures Disjoint(s.active[i].Bytes(), a.Bytes())
    {
      forall x
        ensures !(s.active[i].Bytes().Has(x) && a.Bytes().Has(x))
      {
        if s.active[i].Bytes().Has(x) && a.Bytes().Has(x) {
          assert Occupied(s.active, x);
          if s.usedEnd > a.offset {
            var g :| 0 <= g < |s.free| && s.free[g].start <= a.offset && a.offset + a.bytes <= s.free[g].end;
            assert s.free[g].Has(x);
            assert Covers(s.free, x);
          }
        }
      }
    }
  }

  /** Growing the tail keeps the tiling. */
  lemma GrownTiled(s: Segment, alignment: nat, a: ActiveAllocation)
    requires Tiled(s) && s.usedEnd <= a.offset
    ensures Tiled(Activated(Grown(s, a.offset, a.bytes), alignment, a))
  {
    var t := Activated(Grown(s, a.offset, a.bytes), alignment, a);
    OccupiedSnoc(s.active, a);
    FreshIsDisjoint(s, a);
    var gap := Range(s.usedEnd, a.offset);
    if s.usedEnd < a.offset {
      CoversConcat(s.free, [gap]);
      CoalescedMeaning(s.free + [gap]);
      assert [gap][0] == gap;
      assert forall b :: Covers([gap], b) <==> gap.Has(b);
    }
    forall b
      ensures Covers(t.free, b) <==> 0 <= b < t.usedEnd && !Occupied(t.active, b)
    {
      if Occupied(s.active, b) {
        var i :| 0 <= i < |s.active| && s.active[i].Bytes().Has(b);
      }
    }
  }

  /** A new segment holds just its first allocation. */
  lemma FirstTiled(s: Segment, a: ActiveAllocation)
    requires s.free == [] && s.active == [a] && a.offset == 0 && s.usedEnd == a.bytes
    ensures Tiled(s)
  {
    OccupiedSnoc([], a);
    assert s.active == [] + [a];
  }
}
