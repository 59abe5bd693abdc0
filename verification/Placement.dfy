/** Choosing a place for each planned value, and what a whole packing run keeps. */
module Placement {
  import opened Sequences
  import opened Wrappers
  import opened Lowered
  import opened Liveness
  import opened Packing
  import opened Arithmetic

  /** Limits of one memory space. */
  datatype SpaceConfig = SpaceConfig(space: MemorySpace, maxSegmentBytes: nat, segmentAlignment: nat, segmentGranularity: nat)

  /** A planned value as the packer sees it. */
  datatype Request = Request(
    value: nat, bytes: nat, alignment: nat, space: MemorySpace, ownership: SegmentOwnership, interval: LiveInterval)

  datatype Assignment = Assignment(value: nat, segment: nat, offset: nat, bytes: nat, interval: LiveInterval) {
    function Bytes(): Range {
      Range(offset, offset + bytes)
    }
  }

  datatype PackState = PackState(segments: seq<Segment>, assignments: seq<Assignment>)

  predicate ValidConfig(config: seq<SpaceConfig>) {
    && (forall i :: 0 <= i < |config| ==>
          config[i].maxSegmentBytes > 0 && config[i].segmentGranularity > 0 && IsPowerOfTwo(config[i].segmentAlignment))
    && (forall i, j :: 0 <= i < j < |config| ==> config[i].space != config[j].space)
  }

  /** The requests the packer is given: positive alignments, non-empty intervals, in order of interval start. */
  ghost predicate WellFormedRequests(reqs: seq<Request>) {
    && (forall i :: 0 <= i < |reqs| ==>
          IsPowerOfTwo(reqs[i].alignment) && reqs[i].interval.start < reqs[i].interval.end && reqs[i].interval.value == reqs[i].value)
    && (forall i, j :: 0 <= i < j < |reqs| ==> reqs[i].interval.start <= reqs[j].interval.start)
  }

  // ----- Arithmetic

  function RoundUp(value: nat, multiple: nat): (r: nat)
    requires multiple > 0
    ensures value <= r < value + multiple && r % multiple == 0
  {
    var remainder := value % multiple;
    if remainder == 0 then value else
      RoundingUp(value, multiple);
      value + (multiple - remainder)
  }

  lemma RoundingUp(value: nat, multiple: nat)
    requires multiple > 0
    ensures (value + (multiple - value % multiple)) % multiple == 0
  {
    var q := value / multiple;
    assert value + (multiple - value % multiple) == multiple * (q + 1);
    MultipleOf(multiple, q + 1);
  }

  // ----- The best free range

  /** A free range a request fits in; `waste` is what the range has beyond the request. */
  datatype Gap = Gap(waste: nat, segment: nat, offset: nat, range: nat) {
    predicate Less(other: Gap) {
      waste < other.waste || (waste == other.waste &&
      (segment < other.segment || (segment == other.segment &&
      (offset < other.offset || (offset == other.offset && range < other.range)))))
    }
  }

  predicate Compatible(segment: Segment, req: Request) {
    segment.space == req.space && segment.ownership == req.ownership
  }

  function GapAt(segments: seq<Segment>, req: Request, s: nat, g: nat): Option<Gap>
    requires s < |segments| && g < |segments[s].free| && req.alignment > 0
  {
    var range := segments[s].free[g];
    var offset := RoundUp(range.start, req.alignment);
    if Compatible(segments[s], req) && offset + req.bytes <= range.end
    then Some(Gap(range.end - range.start - req.bytes, s, offset, g))
    else None
  }

  function BetterGap(best: Option<Gap>, candidate: Option<Gap>): Option<Gap> {
    if candidate.Some? && (best == None || candidate.value.Less(best.value)) then candidate else best
  }

  /** The best gap among the segments below `s` and the first `g` free ranges of segment `s`. */
  function BestGapUpTo(segments: seq<Segment>, req: Request, s: nat, g: nat): Option<Gap>
    requires s <= |segments| && (g > 0 ==> s < |segments| && g <= |segments[s].free|) && req.alignment > 0
    decreases s, g
  {
    if g > 0 then BetterGap(BestGapUpTo(segments, req, s, g - 1), GapAt(segments, req, s, g - 1))
    else if s > 0 then BestGapUpTo(segments, req, s - 1, |segments[s - 1].free|)
    else None
  }

  function BestGap(segments: seq<Segment>, req: Request): Option<Gap>
    requires req.alignment > 0
  {
    BestGapUpTo(segments, req, |segments|, 0)
  }

  lemma {:induction false} BestGapUpToIsLeast(segments: seq<Segment>, req: Request, s: nat, g: nat)
    requires s <= |segments| && (g > 0 ==> s < |segments| && g <= |segments[s].free|) && req.alignment > 0
    ensures var best := BestGapUpTo(segments, req, s, g);
            && (best.Some? ==>
                  var b := best.value;
                  && b.segment < |segments| && b.range < |segments[b.segment].free|
                  && GapAt(segments, req, b.segment, b.range) == best)
            && (forall t: nat, h: nat :: t < |segments| && h < |segments[t].free| && (t < s || (t == s && h < g)) ==>
                  var candidate := GapAt(segments, req, t, h);
                  candidate.Some? ==> best.Some? && !candidate.value.Less(best.value))
    decreases s, g
  {
    if g > 0 {
      BestGapUpToIsLeast(segments, req, s, g - 1);
    } else if s > 0 {
      BestGapUpToIsLeast(segments, req, s - 1, |segments[s - 1].free|);
    }
  }

  /** Best fit: the chosen range fits, no fitting range is better, and none is chosen only when none fits. */
  lemma BestGapIsLeast(segments: seq<Segment>, req: Request)
    requires req.alignment > 0
    ensures var best := BestGap(segments, req);
            && (best.Some? ==>
                  var b := best.value;
                  && b.segment < |segments| && b.range < |segments[b.segment].free|
                  && GapAt(segments, req, b.segment, b.range) == best)
            && (forall t: nat, h: nat :: t < |segments| && h < |segments[t].free| ==>
                  var candidate := GapAt(segments, req, t, h);
                  candidate.Some? ==> best.Some? && !candidate.value.Less(best.value))
  {
    BestGapUpToIsLeast(segments, req, |segments|, 0);
  }

  // ----- The cheapest tail

  datatype Tail = Tail(growth: nat, segment: nat, offset: nat) {
    predicate Less(other: Tail) {
      growth < other.growth || (growth == other.growth &&
      (segment < other.segment || (segment == other.segment && offset < other.offset)))
    }
  }

  function TailAt(segments: seq<Segment>, req: Request, s: nat): Option<Tail>
    requires s < |segments| && segments[s].granularity > 0 && req.alignment > 0
  {
    var segment := segments[s];
    var offset := RoundUp(segment.usedEnd, req.alignment);
    var capacity := RoundUp(offset + req.bytes, segment.granularity);
    var used := RoundUp(segment.usedEnd, segment.granularity);
    if Compatible(segment, req) && capacity <= segment.maxBytes
    then Some(Tail(if capacity > used then capacity - used else 0, s, offset))
    else None
  }

  function BetterTail(best: Option<Tail>, candidate: Option<Tail>): Option<Tail> {
    if candidate.Some? && (best == None || candidate.value.Less(best.value)) then candidate else best
  }

  ghost predicate PositiveGranularity(segments: seq<Segment>) {
    forall s :: 0 <= s < |segments| ==> segments[s].granularity > 0
  }

  function BestTailUpTo(segments: seq<Segment>, req: Request, s: nat): Option<Tail>
    requires s <= |segments| && PositiveGranularity(segments) && req.alignment > 0
  {
    if s == 0 then None
    else BetterTail(BestTailUpTo(segments, req, s - 1), TailAt(segments, req, s - 1))
  }

  function BestTail(segments: seq<Segment>, req: Request): Option<Tail>
    requires PositiveGranularity(segments) && req.alignment > 0
  {
    BestTailUpTo(segments, req, |segments|)
  }

  lemma {:induction false} BestTailIsLeast(segments: seq<Segment>, req: Request, s: nat)
    requires s <= |segments| && PositiveGranularity(segments) && req.alignment > 0
    ensures var best := BestTailUpTo(segments, req, s);
            && (best.Some? ==> best.value.segment < s && TailAt(segments, req, best.value.segment) == best)
            && (forall t: nat :: t < s && TailAt(segments, req, t).Some? ==>
                  best.Some? && !TailAt(segments, req, t).value.Less(best.value))
  {
    if s > 0 {
      BestTailIsLeast(segments, req, s - 1);
    }
  }

  // ----- One request

  function RetireAll(segments: seq<Segment>, before: nat): (r: seq<Segment>)
    ensures |r| == |segments|
  {
    seq(|segments|, i requires 0 <= i < |segments| => Retired(segments[i], before))
  }

  function NewSegment(space: SpaceConfig, req: Request): Segment {
    Segment(req.space, req.ownership, space.maxSegmentBytes, space.segmentGranularity,
            Max(space.segmentAlignment, req.alignment), req.bytes, [], [])
  }

  /** Reuse the best free range, else grow the cheapest tail, else open a segment. */
  function Placed(segments: seq<Segment>, space: SpaceConfig, req: Request): (r: (seq<Segment>, nat, nat))
    requires PositiveGranularity(segments) && req.alignment > 0
    ensures space.segmentGranularity > 0 ==> PositiveGranularity(r.0)
  {
    var end := req.interval.end;
    BestGapIsLeast(segments, req);
    BestTailIsLeast(segments, req, |segments|);
    match (BestGap(segments, req), BestTail(segments, req))
    case (Some(gap), _) =>
      var s := gap.segment;
      (segments[s := Activated(Consumed(segments[s], gap.range, gap.offset, req.bytes), req.alignment,
                               ActiveAllocation(end, gap.offset, req.bytes))], s, gap.offset)
    case (None, Some(tail)) =>
      var s := tail.segment;
      (segments[s := Activated(Grown(segments[s], tail.offset, req.bytes), req.alignment,
                               ActiveAllocation(end, tail.offset, req.bytes))], s, tail.offset)
    case (None, None) =>
      (segments + [Activated(NewSegment(space, req), req.alignment, ActiveAllocation(end, 0, req.bytes))], |segments|, 0)
  }

  function FindConfig(config: seq<SpaceConfig>, space: MemorySpace): Option<SpaceConfig> {
    if config == [] then None
    else if config[0].space == space then Some(config[0])
    else FindConfig(config[1..], space)
  }

  lemma {:induction false} FindConfigFinds(config: seq<SpaceConfig>, space: MemorySpace)
    ensures FindConfig(config, space).Some? ==> FindConfig(config, space).value in config && FindConfig(config, space).value.space == space
    ensures FindConfig(config, space) == None <==> forall c :: c in config ==> c.space != space
  {
    if config != [] {
      FindConfigFinds(config[1..], space);
      assert forall c :: c in config <==> c == config[0] || c in config[1..];
    }
  }

  /** The request names a configured space and fits one of its segments. */
  function CheckRequest(config: seq<SpaceConfig>, req: Request): Result<SpaceConfig, PlannerError>
    requires ValidConfig(config)
  {
    FindConfigFinds(config, req.space);
    match FindConfig(config, req.space)
    case None => Failure(MissingMemorySpaceConfig(req.value))
    case Some(space) =>
      var rounded := RoundUp(req.bytes, space.segmentGranularity);
      if req.bytes > space.maxSegmentBytes || rounded > space.maxSegmentBytes
      then Failure(ValueTooLarge(req.value, req.bytes, rounded, space.maxSegmentBytes))
      else Success(space)
  }

  function PackOne(config: seq<SpaceConfig>, st: PackState, req: Request): (r: Result<PackState, PlannerError>)
    requires ValidConfig(config) && PositiveGranularity(st.segments) && req.alignment > 0
    ensures r.Success? ==> PositiveGranularity(r.value.segments)
  {
    FindConfigFinds(config, req.space);
    match CheckRequest(config, req)
    case Failure(e) => Failure(e)
    case Success(space) =>
      var (segments, s, offset) := Placed(RetireAll(st.segments, req.interval.start), space, req);
      Success(PackState(segments, st.assignments + [Assignment(req.value, s, offset, req.bytes, req.interval)]))
  }

  // ----- What every step keeps

  ghost predicate GoodSegment(s: Segment) {
    Tiled(s) && s.granularity > 0 && RoundUp(s.usedEnd, s.granularity) <= s.maxBytes && IsPowerOfTwo(s.alignment)
  }

  /** The assignment realises the request inside its segment. */
  ghost predicate GoodAssignment(segments: seq<Segment>, a: Assignment, req: Request) {
    && a.value == req.value && a.bytes == req.bytes && a.interval == req.interval
    && req.alignment > 0
    && a.segment < |segments|
    && Compatible(segments[a.segment], req)
    && a.offset % req.alignment == 0
    && req.alignment <= segments[a.segment].alignment
    && a.offset + a.bytes <= segments[a.segment].usedEnd
  }

  /** An assignment that is still live is recorded among its segment's active allocations. */
  ghost predicate Tracked(segments: seq<Segment>, a: Assignment, now: nat) {
    a.segment < |segments| &&
    (a.interval.end > now ==> ActiveAllocation(a.interval.end, a.offset, a.bytes) in segments[a.segment].active)
  }

  /** Values live at the same time never share a byte. */
  ghost predicate Safe(assignments: seq<Assignment>) {
    forall i, j :: 0 <= i < j < |assignments| && assignments[i].segment == assignments[j].segment
                   && assignments[i].interval.Overlaps(assignments[j].interval) ==>
      Disjoint(assignments[i].Bytes(), assignments[j].Bytes())
  }

  ghost predicate PackInvariant(st: PackState, reqs: seq<Request>, now: nat) {
    && |st.assignments| == |reqs|
    && (forall s :: 0 <= s < |st.segments| ==> GoodSegment(st.segments[s]))
    && (forall i :: 0 <= i < |reqs| ==> GoodAssignment(st.segments, st.assignments[i], reqs[i]))
    && (forall i :: 0 <= i < |reqs| ==> Tracked(st.segments, st.assignments[i], now))
    && Safe(st.assignments)
  }

  lemma MaxIsPowerOfTwo(a: nat, b: nat)
    requires IsPowerOfTwo(a) && IsPowerOfTwo(b)
    ensures IsPowerOfTwo(Max(a, b))
  {
  }

  /** Retiring moves the clock of the invariant forward. */
  lemma RetireAllKeeps(st: PackState, reqs: seq<Request>, now: nat, before: nat)
    requires PackInvariant(st, reqs, now) && now <= before
    ensures PackInvariant(PackState(RetireAll(st.segments, before), st.assignments), reqs, before)
  {
    var retired := RetireAll(st.segments, before);
    forall s | 0 <= s < |retired|
      ensures GoodSegment(retired[s])
    {
      assert GoodSegment(st.segments[s]);
      RetiredTiled(st.segments[s], before);
    }
    forall i | 0 <= i < |reqs|
      ensures GoodAssignment(retired, st.assignments[i], reqs[i]) && Tracked(retired, st.assignments[i], before)
    {
      var a := st.assignments[i];
      assert GoodAssignment(st.segments, a, reqs[i]) && Tracked(st.segments, a, now);
      assert GoodSegment(st.segments[a.segment]);
      RetiredTiled(st.segments[a.segment], before);
    }
  }

  /** What a placement does to the segments: one segment gains one allocation at its end, the others are untouched. */
  ghost predicate Places(before: seq<Segment>, after: seq<Segment>, s: nat, offset: nat, req: Request) {
    && req.alignment > 0
    && s < |after| && s <= |before| && |after| == (if s == |before| then |before| + 1 else |before|)
    && (forall t :: 0 <= t < |before| && t != s ==> after[t] == before[t])
    && GoodSegment(after[s])
    && Compatible(after[s], req)
    && offset % req.alignment == 0
    && req.alignment <= after[s].alignment
    && offset + req.bytes <= after[s].usedEnd
    && var old_active := if s < |before| then before[s].active else [];
    && after[s].active == old_active + [ActiveAllocation(req.interval.end, offset, req.bytes)]
    && (s < |before| ==>
          && after[s].space == before[s].space && after[s].ownership == before[s].ownership
          && before[s].usedEnd <= after[s].usedEnd && before[s].alignment <= after[s].alignment)
  }

  lemma PlacedPlaces(segments: seq<Segment>, config: seq<SpaceConfig>, space: SpaceConfig, req: Request)
    requires ValidConfig(config) && CheckRequest(config, req) == Success(space)
    requires IsPowerOfTwo(req.alignment) && req.alignment > 0
    requires PositiveGranularity(segments) && forall s :: 0 <= s < |segments| ==> GoodSegment(segments[s])
    ensures var (after, s, offset) := Placed(segments, space, req); Places(segments, after, s, offset, req)
  {
    BestGapIsLeast(segments, req);
    BestTailIsLeast(segments, req, |segments|);
    match (BestGap(segments, req), BestTail(segments, req))
    case (Some(gap), _) =>
      var segment := segments[gap.segment];
      assert GoodSegment(segment);
      ConsumedTiled(segment, gap.range, req.alignment, ActiveAllocation(req.interval.end, gap.offset, req.bytes));
      GapIsBelowUsedEnd(segment, gap.range);
      MaxIsPowerOfTwo(segment.alignment, req.alignment);
    case (None, Some(tail)) =>
      var segment := segments[tail.segment];
      assert GoodSegment(segment);
      GrownTiled(segment, req.alignment, ActiveAllocation(req.interval.end, tail.offset, req.bytes));
      MaxIsPowerOfTwo(segment.alignment, req.alignment);
    case (None, None) =>
      FindConfigFinds(config, req.space);
      MaxIsPowerOfTwo(space.segmentAlignment, req.alignment);
      FirstTiled(Activated(NewSegment(space, req), req.alignment, ActiveAllocation(req.interval.end, 0, req.bytes)),
                 ActiveAllocation(req.interval.end, 0, req.bytes));
  }

  lemma GapIsBelowUsedEnd(s: Segment, g: nat)
    requires Tiled(s) && g < |s.free|
    ensures s.free[g].end <= s.usedEnd
  {
    assert s.free[g].Has(s.free[g].end - 1);
    assert Covers(s.free, s.free[g].end - 1);
  }

  /** A new allocation is byte-disjoint from every assignment that is still live when it is made. */
  lemma NewIsSafe(st: PackState, reqs: seq<Request>, req: Request, after: seq<Segment>, s: nat, offset: nat, i: nat)
    requires PackInvariant(st, reqs, req.interval.start) && Places(st.segments, after, s, offset, req)
    requires i < |reqs| && st.assignments[i].segment == s && st.assignments[i].interval.Overlaps(req.interval)
    ensures Disjoint(st.assignments[i].Bytes(), Range(offset, offset + req.bytes))
  {
    var a := st.assignments[i];
    assert GoodAssignment(st.segments, a, reqs[i]) && Tracked(st.segments, a, req.interval.start);
    var k :| 0 <= k < |st.segments[s].active| && st.segments[s].active[k] == ActiveAllocation(a.interval.end, a.offset, a.bytes);
    assert after[s].active[k] == st.segments[s].active[k];
    assert Disjoint(after[s].active[k].Bytes(), after[s].active[|st.segments[s].active|].Bytes());
  }

  /** Placing a request keeps the invariant. */
  lemma PlacesKeeps(st: PackState, reqs: seq<Request>, req: Request, after: seq<Segment>, s: nat, offset: nat)
    requires PackInvariant(st, reqs, req.interval.start) && Places(st.segments, after, s, offset, req)
    ensures PackInvariant(PackState(after, st.assignments + [Assignment(req.value, s, offset, req.bytes, req.interval)]),
                          reqs + [req], req.interval.start)
  {
    var start := req.interval.start;
    var added := Assignment(req.value, s, offset, req.bytes, req.interval);
    forall i | 0 <= i < |reqs|
      ensures GoodAssignment(after, st.assignments[i], reqs[i]) && Tracked(after, st.assignments[i], start)
    {
      assert GoodAssignment(st.segments, st.assignments[i], reqs[i]) && Tracked(st.segments, st.assignments[i], start);
    }
    assert GoodAssignment(after, added, req) && Tracked(after, added, start);
    forall t | 0 <= t < |after|
      ensures GoodSegment(after[t])
    {
      if t != s { assert after[t] == st.segments[t]; }
    }
    PlacesKeepsSafe(st, reqs, req, after, s, offset);
  }

  lemma PlacesKeepsSafe(st: PackState, reqs: seq<Request>, req: Request, after: seq<Segment>, s: nat, offset: nat)
    requires PackInvariant(st, reqs, req.interval.start) && Places(st.segments, after, s, offset, req)
    ensures Safe(st.assignments + [Assignment(req.value, s, offset, req.bytes, req.interval)])
  {
    var added := Assignment(req.value, s, offset, req.bytes, req.interval);
    var all := st.assignments + [added];
    forall i, j | 0 <= i < j < |all| && all[i].segment == all[j].segment && all[i].interval.Overlaps(all[j].interval)
      ensures Disjoint(all[i].Bytes(), all[j].Bytes())
    {
      if j == |reqs| {
        NewIsSafe(st, reqs, req, after, s, offset, i);
      }
    }
  }

  /** One packing step keeps the invariant. */
  lemma PackOneKeeps(config: seq<SpaceConfig>, st: PackState, reqs: seq<Request>, now: nat, req: Request)
    requires ValidConfig(config) && PositiveGranularity(st.segments) && PackInvariant(st, reqs, now)
    requires now <= req.interval.start < req.interval.end
    requires IsPowerOfTwo(req.alignment) && req.alignment > 0
    requires PackOne(config, st, req).Success?
    ensures PackInvariant(PackOne(config, st, req).value, reqs + [req], req.interval.start)
  {
    var start := req.interval.start;
    RetireAllKeeps(st, reqs, now, start);
    var retired := PackState(RetireAll(st.segments, start), st.assignments);
    var space := CheckRequest(config, req).value;
    PlacedPlaces(retired.segments, config, space, req);
    var (after, s, offset) := Placed(retired.segments, space, req);
    PlacesKeeps(retired, reqs, req, after, s, offset);
  }

  // ----- The whole run

  function PackAll(config: seq<SpaceConfig>, reqs: seq<Request>): (r: Result<PackState, PlannerError>)
    requires ValidConfig(config) && WellFormedRequests(reqs)
    ensures r.Success? ==> PositiveGranularity(r.value.segments)
  {
    if reqs == [] then Success(PackState([], []))
    else
      var rest, last := reqs[..|reqs| - 1], reqs[|reqs| - 1];
      match PackAll(config, rest)
      case Failure(e) => Failure(e)
      case Success(st) =>
        PackOne(config, st, last)
  }

  lemma PackAllOneMore(config: seq<SpaceConfig>, reqs: seq<Request>, k: nat, st: PackState)
    requires ValidConfig(config) && WellFormedRequests(reqs) && k < |reqs|
    requires WellFormedRequests(reqs[..k]) && WellFormedRequests(reqs[..k + 1])
    requires PackAll(config, reqs[..k]) == Success(st)
    ensures reqs[k].alignment > 0 && PositiveGranularity(st.segments)
    ensures PackAll(config, reqs[..k + 1]) == PackOne(config, st, reqs[k])
  {
    assert reqs[..k + 1][..k] == reqs[..k] && reqs[..k + 1][k] == reqs[k];
  }

  function LastStart(reqs: seq<Request>): nat {
    if reqs == [] then 0 else reqs[|reqs| - 1].interval.start
  }

  lemma LastStartsLater(reqs: seq<Request>)
    requires WellFormedRequests(reqs) && reqs != []
    ensures var last := reqs[|reqs| - 1];
            LastStart(reqs[..|reqs| - 1]) <= last.interval.start < last.interval.end && IsPowerOfTwo(last.alignment) && last.alignment > 0
  {
  }

  /** Every state a packing run reaches satisfies the invariant. */
  lemma {:induction false} PackAllKeeps(config: seq<SpaceConfig>, reqs: seq<Request>)
    requires ValidConfig(config) && WellFormedRequests(reqs)
    requires PackAll(config, reqs).Success?
    ensures PackInvariant(PackAll(config, reqs).value, reqs, LastStart(reqs))
  {
    if reqs != [] {
      var rest, last := reqs[..|reqs| - 1], reqs[|reqs| - 1];
      PackAllKeeps(config, rest);
      assert reqs == rest + [last];
      LastStartsLater(reqs);
      PackOneKeeps(config, PackAll(config, rest).value, rest, LastStart(rest), last);
    }
  }

  /** Packing succeeds exactly when every request names a configured space it fits in. */
  lemma {:induction false} PackAllSucceeds(config: seq<SpaceConfig>, reqs: seq<Request>)
    requires ValidConfig(config) && WellFormedRequests(reqs)
    ensures PackAll(config, reqs).Success? <==> forall i :: 0 <= i < |reqs| ==> CheckRequest(config, reqs[i]).Success?
  {
    if reqs != [] {
      var rest, last := reqs[..|reqs| - 1], reqs[|reqs| - 1];
      PackAllSucceeds(config, rest);
      assert PackAll(config, reqs).Success? <==> PackAll(config, rest).Success? && CheckRequest(config, last).Success?;
      assert forall i :: 0 <= i < |rest| ==> rest[i] == reqs[i];
    }
  }

  // ----- Segment declarations

  ghost predicate HasAligned(assignments: seq<Assignment>, reqs: seq<Request>, s: nat, alignment: nat)
    requires |assignments| == |reqs|
  {
    exists i :: 0 <= i < |reqs| && assignments[i].segment == s && reqs[i].alignment == alignment
  }

  ghost predicate HasEnd(assignments: seq<Assignment>, s: nat, end: nat) {
    exists i :: 0 <= i < |assignments| && assignments[i].segment == s && assignments[i].offset + assignments[i].bytes == end
  }

  /**
   * The segment has its space's limits, its alignment is the configured one or that of a member, and its
   * used end is the end of a member.
   */
  ghost predicate ConfiguredBy(c: SpaceConfig, segment: Segment, assignments: seq<Assignment>, reqs: seq<Request>, s: nat)
    requires |assignments| == |reqs|
  {
    && c.space == segment.space
    && segment.maxBytes == c.maxSegmentBytes && segment.granularity == c.segmentGranularity
    && c.segmentAlignment <= segment.alignment
    && (segment.alignment == c.segmentAlignment || HasAligned(assignments, reqs, s, segment.alignment))
    && HasEnd(assignments, s, segment.usedEnd)
  }

  ghost predicate AllConfigured(config: seq<SpaceConfig>, st: PackState, reqs: seq<Request>) {
    && |st.assignments| == |reqs|
    && forall s :: 0 <= s < |st.segments| ==> exists c :: c in config && ConfiguredBy(c, st.segments[s], st.assignments, reqs, s)
  }

  lemma MembersStay(assignments: seq<Assignment>, reqs: seq<Request>, a: Assignment, req: Request, s: nat)
    requires |assignments| == |reqs|
    ensures forall n :: HasAligned(assignments, reqs, s, n) || (a.segment == s && req.alignment == n) ==>
                        HasAligned(assignments + [a], reqs + [req], s, n)
    ensures forall n :: HasEnd(assignments, s, n) || (a.segment == s && a.offset + a.bytes == n) ==>
                        HasEnd(assignments + [a], s, n)
  {
    var all, allReqs := assignments + [a], reqs + [req];
    forall n | HasAligned(assignments, reqs, s, n) || (a.segment == s && req.alignment == n)
      ensures HasAligned(all, allReqs, s, n)
    {
      if HasAligned(assignments, reqs, s, n) {
        var i :| 0 <= i < |reqs| && assignments[i].segment == s && reqs[i].alignment == n;
        assert all[i].segment == s && allReqs[i].alignment == n;
      } else {
        assert all[|reqs|] == a && allReqs[|reqs|] == req;
      }
    }
    forall n | HasEnd(assignments, s, n) || (a.segment == s && a.offset + a.bytes == n)
      ensures HasEnd(all, s, n)
    {
      if HasEnd(assignments, s, n) {
        var i :| 0 <= i < |assignments| && assignments[i].segment == s && assignments[i].offset + assignments[i].bytes == n;
        assert all[i] == assignments[i];
      } else {
        assert all[|reqs|] == a;
      }
    }
  }

  lemma PackOneConfigured(config: seq<SpaceConfig>, st: PackState, reqs: seq<Request>, req: Request)
    requires ValidConfig(config) && PositiveGranularity(st.segments) && req.alignment > 0
    requires AllConfigured(config, st, reqs) && PackOne(config, st, req).Success?
    ensures AllConfigured(config, PackOne(config, st, req).value, reqs + [req])
  {
    var space := CheckRequest(config, req).value;
    FindConfigFinds(config, req.space);
    var retired := RetireAll(st.segments, req.interval.start);
    var (after, s, offset) := Placed(retired, space, req);
    var a := Assignment(req.value, s, offset, req.bytes, req.interval);
    BestGapIsLeast(retired, req);
    BestTailIsLeast(retired, req, |retired|);
    forall t | 0 <= t < |after|
      ensures exists c :: c in config && ConfiguredBy(c, after[t], st.assignments + [a], reqs + [req], t)
    {
      MembersStay(st.assignments, reqs, a, req, t);
      if t < |st.segments| {
        var c :| c in config && ConfiguredBy(c, st.segments[t], st.assignments, reqs, t);
        assert ConfiguredBy(c, after[t], st.assignments + [a], reqs + [req], t);
      } else {
        assert ConfiguredBy(space, after[t], st.assignments + [a], reqs + [req], t);
      }
    }
  }

  /** Every segment is sized and aligned by its space's configuration and its members. */
  lemma {:induction false} PackAllConfigured(config: seq<SpaceConfig>, reqs: seq<Request>)
    requires ValidConfig(config) && WellFormedRequests(reqs)
    requires PackAll(config, reqs).Success?
    ensures AllConfigured(config, PackAll(config, reqs).value, reqs)
  {
    if reqs != [] {
      var rest, last := reqs[..|reqs| - 1], reqs[|reqs| - 1];
      PackAllConfigured(config, rest);
      LastSplits(reqs);
      PackOneConfigured(config, PackAll(config, rest).value, rest, last);
    }
  }
}
