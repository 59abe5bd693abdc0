/** What the packer's choice of a place means, in terms of the free ranges and tails of the segments alone. */
module BestFit {
  import opened Wrappers
  import opened Lowered
  import opened Liveness
  import opened Packing
  import opened Arithmetic
  import opened Placement

  // ----- Multiples

  ghost predicate IsMultiple(n: nat, multiple: nat) {
    multiple > 0 && exists q: nat :: n == Times(multiple, q)
  }

  /** The least multiple of `multiple` from `value` on. */
  ghost predicate IsRoundedUp(value: nat, multiple: nat, r: nat) {
    IsMultiple(r, multiple) && value <= r < value + multiple
  }

  lemma RoundUpIs(value: nat, multiple: nat)
    requires multiple > 0
    ensures IsRoundedUp(value, multiple, RoundUp(value, multiple))
  {
    RemainderIsMultiple(RoundUp(value, multiple), multiple);
  }

  lemma RemainderIsMultiple(n: nat, multiple: nat)
    requires multiple > 0 && n % multiple == 0
    ensures IsMultiple(n, multiple)
  {
    assert n == Times(multiple, n / multiple);
  }

  lemma MultiplesApart(multiple: nat, a: nat, b: nat)
    requires IsMultiple(a, multiple) && IsMultiple(b, multiple) && a < b
    ensures a + multiple <= b
  {
    var p: nat :| a == Times(multiple, p);
    var q: nat :| b == Times(multiple, q);
    if q <= p {
      MulMonotone(multiple, q, p);
    } else {
      MulMonotone(multiple, p + 1, q);
      NextMultiple(multiple, p);
    }
  }

  lemma NextMultiple(multiple: nat, p: nat)
    ensures multiple * (p + 1) == multiple * p + multiple
  {
  }

  /** No multiple from `value` on is below the rounded one. */
  lemma RoundedIsLeast(value: nat, multiple: nat, r: nat, other: nat)
    requires IsRoundedUp(value, multiple, r) && IsMultiple(other, multiple) && value <= other
    ensures r <= other
  {
    if other < r {
      MultiplesApart(multiple, other, r);
    }
  }

  lemma RoundedOnce(value: nat, multiple: nat, a: nat, b: nat)
    requires IsRoundedUp(value, multiple, a) && IsRoundedUp(value, multiple, b)
    ensures a == b
  {
    RoundedIsLeast(value, multiple, a, b);
    RoundedIsLeast(value, multiple, b, a);
  }

  // ----- Free ranges

  /** Of the same memory space and owner. */
  ghost predicate Serves(segment: Segment, req: Request) {
    segment.space == req.space && segment.ownership == req.ownership
  }

  /** The request can stand at `offset` inside the free range. */
  ghost predicate StandsIn(segments: seq<Segment>, req: Request, s: nat, g: nat, offset: nat) {
    && s < |segments| && g < |segments[s].free| && Serves(segments[s], req)
    && IsMultiple(offset, req.alignment)
    && segments[s].free[g].start <= offset && offset + req.bytes <= segments[s].free[g].end
  }

  ghost predicate AnyGap(segments: seq<Segment>, req: Request) {
    exists s: nat, g: nat, offset: nat :: StandsIn(segments, req, s, g, offset)
  }

  function Length(r: Range): int {
    r.end - r.start
  }

  /** A shorter range, or one as short in an earlier segment, at a lower offset, or listed earlier. */
  ghost predicate NoWorse(segments: seq<Segment>, s: nat, g: nat, offset: nat, t: nat, h: nat, other: nat)
    requires s < |segments| && g < |segments[s].free| && t < |segments| && h < |segments[t].free|
  {
    var here, there := Length(segments[s].free[g]), Length(segments[t].free[h]);
    here < there || (here == there && (s < t || (s == t && (offset < other || (offset == other && g <= h)))))
  }

  /** The request stands in a free range of least length, as low in it as its alignment allows. */
  ghost predicate InBestGap(segments: seq<Segment>, req: Request, s: nat, g: nat, offset: nat) {
    && StandsIn(segments, req, s, g, offset)
    && (forall t: nat, h: nat, other: nat :: StandsIn(segments, req, t, h, other) ==> NoWorse(segments, s, g, offset, t, h, other))
  }

  lemma GapStands(segments: seq<Segment>, req: Request, s: nat, g: nat)
    requires s < |segments| && g < |segments[s].free| && req.alignment > 0
    ensures GapAt(segments, req, s, g).Some? ==>
      StandsIn(segments, req, s, g, GapAt(segments, req, s, g).value.offset)
    ensures forall offset: nat :: StandsIn(segments, req, s, g, offset) ==>
      GapAt(segments, req, s, g).Some? && GapAt(segments, req, s, g).value.offset <= offset
  {
    var start := segments[s].free[g].start;
    RoundUpIs(start, req.alignment);
    forall offset: nat | StandsIn(segments, req, s, g, offset)
      ensures RoundUp(start, req.alignment) <= offset
    {
      RoundedIsLeast(start, req.alignment, RoundUp(start, req.alignment), offset);
    }
  }

  lemma GapIsBest(segments: seq<Segment>, req: Request)
    requires req.alignment > 0
    ensures BestGap(segments, req).Some? <==> AnyGap(segments, req)
    ensures BestGap(segments, req).Some? ==>
      var gap := BestGap(segments, req).value; InBestGap(segments, req, gap.segment, gap.range, gap.offset)
  {
    BestGapIsLeast(segments, req);
    var best := BestGap(segments, req);
    if best.Some? {
      GapStands(segments, req, best.value.segment, best.value.range);
    }
    forall t: nat, h: nat, other: nat | StandsIn(segments, req, t, h, other)
      ensures best.Some?
      ensures NoWorse(segments, best.value.segment, best.value.range, best.value.offset, t, h, other)
    {
      GapStands(segments, req, t, h);
    }
  }

  // ----- Tails

  /** The request would stand at `offset` behind everything used, and the segment would grow from `used` to `capacity`. */
  ghost predicate StandsBehind(segments: seq<Segment>, req: Request, s: nat, offset: nat, used: nat, capacity: nat) {
    && s < |segments| && Serves(segments[s], req)
    && IsRoundedUp(segments[s].usedEnd, req.alignment, offset)
    && IsRoundedUp(segments[s].usedEnd, segments[s].granularity, used)
    && IsRoundedUp(offset + req.bytes, segments[s].granularity, capacity) && capacity <= segments[s].maxBytes
  }

  ghost predicate AnyTail(segments: seq<Segment>, req: Request) {
    exists s: nat, offset: nat, used: nat, capacity: nat :: StandsBehind(segments, req, s, offset, used, capacity)
  }

  /** No segment would grow less, and no earlier one as little. */
  ghost predicate GrowsLeast(segments: seq<Segment>, req: Request, s: nat, growth: int) {
    forall t: nat, offset: nat, used: nat, capacity: nat :: StandsBehind(segments, req, t, offset, used, capacity) ==>
      growth < capacity - used || (growth == capacity - used && s <= t)
  }

  /** The request stands behind a segment that grows least, the first such one. */
  ghost predicate BehindBestTail(segments: seq<Segment>, req: Request, s: nat, offset: nat) {
    exists used: nat, capacity: nat :: StandsBehind(segments, req, s, offset, used, capacity) && GrowsLeast(segments, req, s, capacity - used)
  }

  lemma RoundingGrows(a: nat, b: nat, multiple: nat)
    requires a <= b && multiple > 0
    ensures RoundUp(a, multiple) <= RoundUp(b, multiple)
  {
    RoundUpIs(a, multiple);
    RoundUpIs(b, multiple);
    RoundedIsLeast(a, multiple, RoundUp(a, multiple), RoundUp(b, multiple));
  }

  /** The rounded end of what is used, the offset behind it, and the rounded end after that. */
  ghost function TailRoom(segment: Segment, req: Request): (r: (nat, nat, nat))
    requires segment.granularity > 0 && req.alignment > 0
    ensures r.0 <= r.2
  {
    var offset := RoundUp(segment.usedEnd, req.alignment);
    RoundingGrows(segment.usedEnd, offset + req.bytes, segment.granularity);
    (RoundUp(segment.usedEnd, segment.granularity), offset, RoundUp(offset + req.bytes, segment.granularity))
  }

  lemma TailRoomIs(segments: seq<Segment>, req: Request, s: nat, offset: nat, used: nat, capacity: nat)
    requires s < |segments| && segments[s].granularity > 0 && req.alignment > 0
    requires StandsBehind(segments, req, s, offset, used, capacity)
    ensures (used, offset, capacity) == TailRoom(segments[s], req)
  {
    var segment := segments[s];
    RoundUpIs(segment.usedEnd, req.alignment);
    RoundUpIs(segment.usedEnd, segment.granularity);
    RoundUpIs(offset + req.bytes, segment.granularity);
    RoundedOnce(segment.usedEnd, req.alignment, offset, RoundUp(segment.usedEnd, req.alignment));
    RoundedOnce(segment.usedEnd, segment.granularity, used, RoundUp(segment.usedEnd, segment.granularity));
    RoundedOnce(offset + req.bytes, segment.granularity, capacity, RoundUp(offset + req.bytes, segment.granularity));
  }

  lemma TailStands(segments: seq<Segment>, req: Request, s: nat)
    requires s < |segments| && segments[s].granularity > 0 && req.alignment > 0
    ensures TailAt(segments, req, s).Some? ==>
      var (used, offset, capacity) := TailRoom(segments[s], req);
      StandsBehind(segments, req, s, offset, used, capacity) && TailAt(segments, req, s).value == Tail(capacity - used, s, offset)
    ensures forall offset: nat, used: nat, capacity: nat :: StandsBehind(segments, req, s, offset, used, capacity) ==>
      used <= capacity && TailAt(segments, req, s) == Some(Tail(capacity - used, s, offset))
  {
    var segment := segments[s];
    var (_, at, _) := TailRoom(segment, req);
    RoundUpIs(segment.usedEnd, req.alignment);
    RoundUpIs(segment.usedEnd, segment.granularity);
    RoundUpIs(at + req.bytes, segment.granularity);
    forall offset: nat, used: nat, capacity: nat | StandsBehind(segments, req, s, offset, used, capacity)
      ensures (used, offset, capacity) == TailRoom(segment, req)
    {
      TailRoomIs(segments, req, s, offset, used, capacity);
    }
  }

  lemma TailIsBest(segments: seq<Segment>, req: Request)
    requires PositiveGranularity(segments) && req.alignment > 0
    ensures BestTail(segments, req).Some? <==> AnyTail(segments, req)
    ensures BestTail(segments, req).Some? ==>
      var tail := BestTail(segments, req).value; BehindBestTail(segments, req, tail.segment, tail.offset)
  {
    BestTailIsLeast(segments, req, |segments|);
    var best := BestTail(segments, req);
    if best.Some? {
      TailStands(segments, req, best.value.segment);
    }
    forall t: nat, offset: nat, used: nat, capacity: nat | StandsBehind(segments, req, t, offset, used, capacity)
      ensures best.Some? && (best.value.growth < capacity - used || (best.value.growth == capacity - used && best.value.segment <= t))
    {
      TailStands(segments, req, t);
    }
  }

  // ----- One request

  /** Free ranges come before tails, and tails before a new segment; each choice is the best of its kind. */
  ghost predicate ChoosesPlace(segments: seq<Segment>, req: Request, s: nat, offset: nat) {
    if AnyGap(segments, req) then exists g: nat :: InBestGap(segments, req, s, g, offset)
    else if AnyTail(segments, req) then BehindBestTail(segments, req, s, offset)
    else s == |segments| && offset == 0
  }

  lemma PlacedIsChosen(segments: seq<Segment>, space: SpaceConfig, req: Request)
    requires PositiveGranularity(segments) && req.alignment > 0
    ensures var (after, s, offset) := Placed(segments, space, req); ChoosesPlace(segments, req, s, offset)
  {
    GapIsBest(segments, req);
    TailIsBest(segments, req);
  }

  /** One packing step places its request at the chosen place among the segments with everything expired retired. */
  lemma PackOneChooses(config: seq<SpaceConfig>, st: PackState, req: Request)
    requires ValidConfig(config) && PositiveGranularity(st.segments) && req.alignment > 0
    requires PackOne(config, st, req).Success?
    ensures var (assignments, n) := (PackOne(config, st, req).value.assignments, |st.assignments|);
            && |assignments| == n + 1 && assignments[..n] == st.assignments
            && assignments[n].value == req.value && assignments[n].bytes == req.bytes && assignments[n].interval == req.interval
            && ChoosesPlace(RetireAll(st.segments, req.interval.start), req, assignments[n].segment, assignments[n].offset)
  {
    PlacedIsChosen(RetireAll(st.segments, req.interval.start), CheckRequest(config, req).value, req);
  }

  /** So does every step of a run. */
  lemma EveryStepChooses(config: seq<SpaceConfig>, reqs: seq<Request>, k: nat, before: PackState, after: PackState)
    requires ValidConfig(config) && WellFormedRequests(reqs) && k < |reqs|
    requires WellFormedRequests(reqs[..k]) && WellFormedRequests(reqs[..k + 1])
    requires PackAll(config, reqs[..k]) == Success(before) && PackAll(config, reqs[..k + 1]) == Success(after)
    ensures |after.assignments| == |before.assignments| + 1 && before.assignments <= after.assignments
    ensures var a := after.assignments[|before.assignments|];
            ChoosesPlace(RetireAll(before.segments, reqs[k].interval.start), reqs[k], a.segment, a.offset)
  {
    PackAllOneMore(config, reqs, k, before);
    PackOneChooses(config, before, reqs[k]);
  }
}
