/** Segments under construction, updated in place while the packer runs. */
module WorkingSegments {
  import opened Wrappers
  import opened Lowered
  import opened Liveness
  import opened Sorting
  import opened Packing
  import opened Placement

  method Coalesce(ranges: seq<Range>) returns (merged: seq<Range>)
    ensures merged == Coalesced(ranges)
  {
    var sorted := Sort(RangeLeq, ranges);
    merged := [];
    for i := 0 to |sorted|
      invariant AbsorbAll(merged, sorted[i..]) == Coalesced(ranges)
    {
      var range := sorted[i];
      assert sorted[i..][0] == range && sorted[i..][1..] == sorted[i + 1..];
      if merged != [] && range.start <= merged[|merged| - 1].end {
        var previous := merged[|merged| - 1];
        merged := merged[..|merged| - 1] + [Range(previous.start, Max(previous.end, range.end))];
      } else {
        merged := merged + [range];
      }
    }
  }

  class WorkingSegment {
    const space: MemorySpace
    const ownership: SegmentOwnership
    const maxBytes: nat
    const granularity: nat
    var alignment: nat
    var usedEnd: nat
    var free: seq<Range>
    var active: seq<ActiveAllocation>

    ghost function Contents(): Segment
      reads this
    {
      Segment(space, ownership, maxBytes, granularity, alignment, usedEnd, free, active)
    }

    constructor (config: SpaceConfig, req: Request)
      ensures Contents() == NewSegment(config, req)
    {
      space, ownership := req.space, req.ownership;
      maxBytes, granularity := config.maxSegmentBytes, config.segmentGranularity;
      alignment := Max(config.segmentAlignment, req.alignment);
      usedEnd := req.bytes;
      free, active := [], [];
    }

    /** Moves allocations ending at or before `before` to the free list. */
    method Retire(before: nat)
      modifies this
      ensures Contents() == Retired(old(Contents()), before)
    {
      var allocations := active;
      active := [];
      for i := 0 to |allocations|
        invariant free + RetiredRanges(allocations[i..], before) == old(free) + RetiredRanges(old(active), before)
        invariant active + StillActive(allocations[i..], before) == StillActive(old(active), before)
        invariant alignment == old(alignment) && usedEnd == old(usedEnd)
      {
        var allocation := allocations[i];
        assert allocations[i..][0] == allocation && allocations[i..][1..] == allocations[i + 1..];
        if allocation.end <= before {
          if allocation.bytes != 0 {
            free := free + [allocation.Bytes()];
          }
        } else {
          active := active + [allocation];
        }
      }
      assert allocations[|allocations|..] == [];
      assert free + [] == free && active + [] == active;
      free := Coalesce(free);
    }

    method ConsumeFreeRange(g: nat, offset: nat, bytes: nat)
      requires g < |free|
      modifies this
      ensures Contents() == Consumed(old(Contents()), g, offset, bytes)
    {
      var range := free[g];
      free := free[..g] + free[g + 1..];
      if range.start < offset {
        free := free + [Range(range.start, offset)];
      }
      var end := offset + bytes;
      if end < range.end {
        free := free + [Range(end, range.end)];
      }
      assert free == old(free)[..g] + old(free)[g + 1..] + NonEmpty(Range(range.start, offset)) + NonEmpty(Range(end, range.end));
      free := Coalesce(free);
    }

    method GrowTail(offset: nat, bytes: nat)
      modifies this
      ensures Contents() == Grown(old(Contents()), offset, bytes)
    {
      if usedEnd < offset {
        free := Coalesce(free + [Range(usedEnd, offset)]);
      }
      usedEnd := offset + bytes;
    }

    method Activate(minimumAlignment: nat, allocation: ActiveAllocation)
      modifies this
      ensures Contents() == Activated(old(Contents()), minimumAlignment, allocation)
    {
      alignment := Max(alignment, minimumAlignment);
      active := active + [allocation];
    }
  }

  ghost predicate Distinct(working: seq<WorkingSegment>) {
    forall i, j :: 0 <= i < j < |working| ==> working[i] != working[j]
  }

  ghost function AllContents(working: seq<WorkingSegment>): (r: seq<Segment>)
    reads working
    ensures |r| == |working|
  {
    seq(|working|, i requires 0 <= i < |working| reads working => working[i].Contents())
  }

  method RetireEach(working: seq<WorkingSegment>, before: nat)
    requires Distinct(working)
    modifies working
    ensures AllContents(working) == RetireAll(old(AllContents(working)), before)
  {
    for i := 0 to |working|
      invariant forall j :: 0 <= j < i ==> working[j].Contents() == Retired(old(working[j].Contents()), before)
      invariant forall j :: i <= j < |working| ==> working[j].Contents() == old(working[j].Contents())
    {
      working[i].Retire(before);
    }
  }

  /** Best fit over the retired ranges of compatible segments. */
  method FindGap(working: seq<WorkingSegment>, req: Request) returns (best: Option<Gap>)
    requires req.alignment > 0
    ensures best == BestGap(AllContents(working), req)
  {
    ghost var segments := AllContents(working);
    best := None;
    for s := 0 to |working|
      invariant best == BestGapUpTo(segments, req, s, 0)
    {
      var segment := working[s];
      assert segments[s] == segment.Contents();
      if segment.space != req.space || segment.ownership != req.ownership {
        IncompatibleHasNoGap(segments, req, s, |segment.free|);
        continue;
      }
      for g := 0 to |segment.free|
        invariant best == BestGapUpTo(segments, req, s, g)
      {
        var range := segment.free[g];
        var offset := RoundUp(range.start, req.alignment);
        var end := offset + req.bytes;
        if end <= range.end {
          var waste := range.end - range.start - req.bytes;
          var candidate := Gap(waste, s, offset, g);
          if best == None || candidate.Less(best.value) {
            best := Some(candidate);
          }
        }
      }
    }
  }

  lemma {:induction false} IncompatibleHasNoGap(segments: seq<Segment>, req: Request, s: nat, g: nat)
    requires s < |segments| && g <= |segments[s].free| && req.alignment > 0 && !Compatible(segments[s], req)
    ensures BestGapUpTo(segments, req, s, g) == BestGapUpTo(segments, req, s, 0)
  {
    if g > 0 {
      IncompatibleHasNoGap(segments, req, s, g - 1);
    }
  }

  /** The compatible segment whose rounded size grows least. */
  method FindTail(working: seq<WorkingSegment>, req: Request) returns (best: Option<Tail>)
    requires req.alignment > 0 && PositiveGranularity(AllContents(working))
    ensures best == BestTail(AllContents(working), req)
  {
    ghost var segments := AllContents(working);
    best := None;
    for s := 0 to |working|
      invariant best == BestTailUpTo(segments, req, s)
    {
      var segment := working[s];
      assert segments[s] == segment.Contents();
      if segment.space != req.space || segment.ownership != req.ownership {
        continue;
      }
      var offset := RoundUp(segment.usedEnd, req.alignment);
      var capacity := RoundUp(offset + req.bytes, segment.granularity);
      if capacity <= segment.maxBytes {
        var used := RoundUp(segment.usedEnd, segment.granularity);
        var candidate := Tail(if capacity > used then capacity - used else 0, s, offset);
        if best == None || candidate.Less(best.value) {
          best := Some(candidate);
        }
      }
    }
  }

  /** Places one request, reusing a gap, growing a tail or opening a segment. */
  method Place(working: seq<WorkingSegment>, space: SpaceConfig, req: Request)
    returns (next: seq<WorkingSegment>, s: nat, offset: nat)
    requires Distinct(working) && PositiveGranularity(AllContents(working)) && req.alignment > 0
    modifies working
    ensures Distinct(next) && s < |next|
    ensures forall i :: 0 <= i < |next| ==> next[i] in working || fresh(next[i])
    ensures (AllContents(next), s, offset) == Placed(old(AllContents(working)), space, req)
  {
    ghost var segments := AllContents(working);
    BestGapIsLeast(segments, req);
    BestTailIsLeast(segments, req, |segments|);
    next := working;
    var gap := FindGap(working, req);
    if gap.Some? {
      s, offset := gap.value.segment, gap.value.offset;
      working[s].ConsumeFreeRange(gap.value.range, offset, req.bytes);
    } else {
      var tail := FindTail(working, req);
      if tail.Some? {
        s, offset := tail.value.segment, tail.value.offset;
        working[s].GrowTail(offset, req.bytes);
      } else {
        s, offset := |working|, 0;
        var added := new WorkingSegment(space, req);
        next := working + [added];
      }
    }
    next[s].Activate(req.alignment, ActiveAllocation(req.interval.end, offset, req.bytes));
    assert AllContents(next) == Placed(segments, space, req).0;
  }

  /** One packing step: check the request, retire what has ended, place the value. */
  method PackStep(config: seq<SpaceConfig>, working: seq<WorkingSegment>, assignments: seq<Assignment>, req: Request)
    returns (r: Result<Assignment, PlannerError>, next: seq<WorkingSegment>)
    requires ValidConfig(config) && Distinct(working) && PositiveGranularity(AllContents(working)) && req.alignment > 0
    modifies working
    ensures Distinct(next)
    ensures forall i :: 0 <= i < |next| ==> next[i] in working || fresh(next[i])
    ensures match r
            case Failure(e) => PackOne(config, old(PackState(AllContents(working), assignments)), req) == Failure(e)
            case Success(a) => PackOne(config, old(PackState(AllContents(working), assignments)), req)
                               == Success(PackState(AllContents(next), assignments + [a]))
  {
    next := working;
    var space := CheckRequest(config, req);
    if space.Failure? {
      return Failure(space.error), next;
    }
    RetireEach(working, req.interval.start);
    FindConfigFinds(config, req.space);
    var s, offset;
    next, s, offset := Place(working, space.value, req);
    r := Success(Assignment(req.value, s, offset, req.bytes, req.interval));
  }
}
