/** Planning memory for a lowered program: order, pack, collect reuse edges, report. */
module Planner {
  import opened Wrappers
  import opened Lowered
  import opened Aliases
  import opened Liveness
  import opened Sorting
  import opened Packing
  import opened Placement
  import opened WorkingSegments
  import opened Layout
  import opened ReuseEdges

  datatype Location =
    | FixedLocation(storageClass: StorageClass)
    | SegmentLocation(segment: nat, offset: nat, bytes: nat)
    | AliasLocation(root: nat, byteOffset: nat)

  datatype OutputSlot = OutputSlot(value: nat, location: nat)

  datatype MemoryPlan = MemoryPlan(
    segments: seq<SegmentDecl>,
    locations: seq<Location>,
    outputs: seq<OutputSlot>,
    reuseEdges: seq<ReuseEdge>,
    peakLiveBytes: nat,
    packingOverheadBytes: nat)

  // ----- Allocation order

  function StartOf(l: LivenessTables, v: nat): nat {
    if v < |l.intervals| && l.intervals[v].Some? then l.intervals[v].value.start else 0
  }

  /** The order of the sort key `(interval start, value id)`. */
  function AllocationLeq(l: LivenessTables): (nat, nat) -> bool {
    (a: nat, b: nat) => StartOf(l, a) < StartOf(l, b) || (StartOf(l, a) == StartOf(l, b) && a <= b)
  }

  function PlannedValues(p: Program, n: nat): seq<nat>
    requires n <= |p.values|
  {
    if n == 0 then []
    else if p.values[n - 1].storage.Planned? then PlannedValues(p, n - 1) + [n - 1]
    else PlannedValues(p, n - 1)
  }

  function AllocationOrder(p: Program, l: LivenessTables): seq<nat> {
    Sort(AllocationLeq(l), PlannedValues(p, |p.values|))
  }

  lemma {:induction false} PlannedValuesAre(p: Program, n: nat)
    requires n <= |p.values|
    ensures forall v: nat :: v in PlannedValues(p, n) <==> v < n && p.values[v].storage.Planned?
    ensures forall i, j :: 0 <= i < j < |PlannedValues(p, n)| ==> PlannedValues(p, n)[i] < PlannedValues(p, n)[j]
  {
    if n > 0 {
      PlannedValuesAre(p, n - 1);
      var earlier := PlannedValues(p, n - 1);
      assert forall k :: 0 <= k < |earlier| ==> earlier[k] in earlier;
    }
  }

  /** The allocation order lists each planned value once, by interval start and then by id. */
  lemma AllocationOrderIs(p: Program, l: LivenessTables)
    ensures var order := AllocationOrder(p, l);
            && (forall v: nat :: v in order <==> v < |p.values| && p.values[v].storage.Planned?)
            && (forall i, j :: 0 <= i < j < |order| ==> order[i] != order[j] && AllocationLeq(l)(order[i], order[j]))
  {
    PlannedValuesAre(p, |p.values|);
    SortKeeps(AllocationLeq(l), PlannedValues(p, |p.values|));
    SortDistinct(AllocationLeq(l), PlannedValues(p, |p.values|));
  }

  /** The starts of two allocations are in order, and at the same start their ids. */
  ghost predicate StartsFirst(l: LivenessTables, a: nat, b: nat)
    requires a < |l.intervals| && b < |l.intervals|
  {
    && l.intervals[a].Some? && l.intervals[b].Some?
    && var s, t := l.intervals[a].value.start, l.intervals[b].value.start;
       s < t || (s == t && a < b)
  }

  function RequestOf(p: Program, l: LivenessTables, v: nat): Request
    requires v < |p.values| == |l.intervals| && p.values[v].storage.Planned? && l.intervals[v].Some?
  {
    var decl := p.values[v];
    Request(decl.id, decl.bytes, decl.storage.alignment, decl.storage.space, decl.storage.ownership, l.intervals[v].value)
  }

  function RequestsFor(p: Program, l: LivenessTables, order: seq<nat>): (r: seq<Request>)
    requires |p.values| == |l.intervals|
    requires forall k :: 0 <= k < |order| ==>
               order[k] < |p.values| && p.values[order[k]].storage.Planned? && l.intervals[order[k]].Some?
    ensures |r| == |order|
  {
    seq(|order|, k requires 0 <= k < |order| => RequestOf(p, l, order[k]))
  }

  lemma LivenessOfPlanned(p: Program, l: LivenessTables)
    requires CorrectLiveness(p, l)
    ensures PlannedIntervals(p, l)
    ensures forall v :: 0 <= v < |p.values| && p.values[v].storage.Planned? ==>
              l.intervals[v].value.value == v == p.values[v].id && IsPowerOfTwo(p.values[v].storage.alignment)
  {
    forall v | 0 <= v < |p.values| && p.values[v].storage.Planned?
      ensures l.intervals[v].Some? && l.intervals[v].value.start < l.intervals[v].value.end <= |p.instructions|
      ensures l.intervals[v].value.value == v == p.values[v].id && IsPowerOfTwo(p.values[v].storage.alignment)
    {
      assert CorrectInterval(p, l.aliases, v, l.intervals[v]) && DefinedBeforeRead(p, l.aliases, v);
      assert At(Writing, p, l.aliases, l.intervals[v].value.start, v);
      WriteIsTouch(p, l.aliases, l.intervals[v].value.start, v);
    }
  }

  lemma WriteIsTouch(p: Program, aliases: seq<NormalizedAlias>, i: nat, root: nat)
    requires At(Writing, p, aliases, i, root)
    ensures At(Touching, p, aliases, i, root)
  {
    TouchIsReadOrWrite(p, aliases, root);
  }

  /** The allocation order can be turned into requests, and the requests are what the packer expects. */
  lemma RequestsWellFormed(p: Program, l: LivenessTables)
    requires CorrectLiveness(p, l)
    ensures forall k :: 0 <= k < |AllocationOrder(p, l)| ==>
              var v := AllocationOrder(p, l)[k]; v < |p.values| && p.values[v].storage.Planned? && l.intervals[v].Some?
    ensures WellFormedRequests(RequestsFor(p, l, AllocationOrder(p, l)))
  {
    LivenessOfPlanned(p, l);
    AllocationOrderIs(p, l);
    var order := AllocationOrder(p, l);
    forall k | 0 <= k < |order|
      ensures order[k] < |p.values| && p.values[order[k]].storage.Planned? && l.intervals[order[k]].Some?
    {
      assert order[k] in order;
    }
    var reqs := RequestsFor(p, l, order);
    forall i, j | 0 <= i < j < |reqs|
      ensures reqs[i].interval.start <= reqs[j].interval.start
    {
      assert AllocationLeq(l)(order[i], order[j]);
    }
  }

  /** Allocation goes by start, and by id among values that start together. */
  lemma AllocationsInOrder(p: Program, l: LivenessTables)
    requires CorrectLiveness(p, l)
    ensures var order := AllocationOrder(p, l);
            && (forall v: nat :: v in order <==> v < |p.values| && p.values[v].storage.Planned?)
            && (forall k :: 0 <= k < |order| ==> order[k] < |l.intervals|)
            && (forall i, j :: 0 <= i < j < |order| ==> StartsFirst(l, order[i], order[j]))
  {
    RequestsWellFormed(p, l);
    AllocationOrderIs(p, l);
    var order := AllocationOrder(p, l);
    forall i, j | 0 <= i < j < |order|
      ensures order[i] < |l.intervals| && order[j] < |l.intervals| && StartsFirst(l, order[i], order[j])
    {
      assert AllocationLeq(l)(order[i], order[j]) && order[i] != order[j];
    }
  }

  /** The requests, in allocation order. */
  ghost function Requests(p: Program, l: LivenessTables): (r: seq<Request>)
    requires CorrectLiveness(p, l)
    ensures WellFormedRequests(r)
  {
    RequestsWellFormed(p, l);
    RequestsFor(p, l, AllocationOrder(p, l))
  }

  // ----- Configuration

  method ValidateConfig(config: seq<SpaceConfig>) returns (r: Option<PlannerError>)
    ensures r == None <==> ValidConfig(config)
    ensures r.Some? ==> match r.value
                        case InvalidMemorySpaceConfig(i) =>
                          i < |config| && (config[i].maxSegmentBytes == 0 || config[i].segmentGranularity == 0
                                           || !IsPowerOfTwo(config[i].segmentAlignment))
                        case DuplicateMemorySpaceConfig(first, second) =>
                          first < second < |config| && config[first].space == config[second].space
                        case _ => false
  {
    for i := 0 to |config|
      invariant ValidConfig(config[..i])
    {
      var space := config[i];
      if space.maxSegmentBytes == 0 || space.segmentAlignment == 0
         || !IsPowerOfTwo(space.segmentAlignment) || space.segmentGranularity == 0 {
        return Some(InvalidMemorySpaceConfig(i));
      }
      for previous := 0 to i
        invariant forall q :: 0 <= q < previous ==> config[q].space != space.space
      {
        if config[previous].space == space.space {
          return Some(DuplicateMemorySpaceConfig(previous, i));
        }
      }
    }
    assert config[..|config|] == config;
    return None;
  }

  /** The value's space is configured and its rounded size fits a segment of that space. */
  ghost predicate FitsConfig(config: seq<SpaceConfig>, decl: ValueDecl)
    requires ValidConfig(config) && decl.storage.Planned?
  {
    exists c :: c in config && c.space == decl.storage.space && RoundUp(decl.bytes, c.segmentGranularity) <= c.maxSegmentBytes
  }

  lemma CheckIsFit(p: Program, l: LivenessTables, config: seq<SpaceConfig>, v: nat)
    requires CorrectLiveness(p, l) && ValidConfig(config)
    requires v < |p.values| && p.values[v].storage.Planned? && l.intervals[v].Some?
    ensures CheckRequest(config, RequestOf(p, l, v)).Success? <==> FitsConfig(config, p.values[v])
  {
    FindConfigFinds(config, p.values[v].storage.space);
    var found := FindConfig(config, p.values[v].storage.space);
    if FitsConfig(config, p.values[v]) {
      var c :| c in config && c.space == p.values[v].storage.space && RoundUp(p.values[v].bytes, c.segmentGranularity) <= c.maxSegmentBytes;
      assert found.Some? && found.value == c;
    }
  }

  lemma RequestsFit(p: Program, l: LivenessTables, config: seq<SpaceConfig>)
    requires CorrectLiveness(p, l) && ValidConfig(config)
    ensures PackAll(config, Requests(p, l)).Success? <==>
            forall v :: 0 <= v < |p.values| && p.values[v].storage.Planned? ==> FitsConfig(config, p.values[v])
  {
    LivenessOfPlanned(p, l);
    AllocationOrderIs(p, l);
    var order, reqs := AllocationOrder(p, l), Requests(p, l);
    PackAllSucceeds(config, reqs);
    forall k | 0 <= k < |order|
      ensures CheckRequest(config, reqs[k]).Success? <==> FitsConfig(config, p.values[order[k]])
    {
      assert order[k] in order;
      CheckIsFit(p, l, config, order[k]);
    }
    if forall k :: 0 <= k < |order| ==> CheckRequest(config, reqs[k]).Success? {
      forall v | 0 <= v < |p.values| && p.values[v].storage.Planned?
        ensures FitsConfig(config, p.values[v])
      {
        assert v in order;
        var k :| 0 <= k < |order| && order[k] == v;
        assert CheckRequest(config, reqs[k]).Success?;
      }
    } else {
      var k :| 0 <= k < |order| && !CheckRequest(config, reqs[k]).Success?;
      assert order[k] in order;
    }
  }

  // ----- The finished plan

  function SegmentsOf(segments: seq<Segment>): (r: seq<SegmentDecl>)
    requires PositiveGranularity(segments)
    ensures |r| == |segments|
  {
    seq(|segments|, s requires 0 <= s < |segments| =>
      SegmentDecl(RoundUp(segments[s].usedEnd, segments[s].granularity), segments[s].alignment,
                  segments[s].space, segments[s].ownership))
  }

  /** Each planned value's assignment, by value. */
  ghost predicate PlacedBy(p: Program, order: seq<nat>, assignments: seq<Assignment>, placed: seq<Option<Assignment>>) {
    && |placed| == |p.values| && |assignments| == |order|
    && (forall k :: 0 <= k < |order| ==> order[k] < |placed| && placed[order[k]] == Some(assignments[k]))
    && (forall v :: 0 <= v < |placed| && v !in order ==> placed[v] == None)
  }

  ghost predicate LocationsMatch(p: Program, l: LivenessTables, placed: seq<Option<Assignment>>, locations: seq<Location>)
    requires |placed| == |p.values| == |l.aliases|
  {
    && |locations| == |p.values|
    && forall v :: 0 <= v < |p.values| ==> LocationMatches(p, l, placed, v, locations[v])
  }

  ghost predicate LocationMatches(p: Program, l: LivenessTables, placed: seq<Option<Assignment>>, v: nat, location: Location)
    requires v < |placed| == |p.values| == |l.aliases|
  {
    match p.values[v].storage
    case Fixed(storageClass) => location == FixedLocation(storageClass)
    case Planned(_, _, _, _) =>
      placed[v].Some? && location == SegmentLocation(placed[v].value.segment, placed[v].value.offset, placed[v].value.bytes)
    case Alias(_, _) => location == AliasLocation(l.aliases[v].root, l.aliases[v].byteOffset)
  }

  /** Everything a plan is determined by: the packing run over the requests, and the tables read off it. */
  ghost predicate IsPlan(p: Program, config: seq<SpaceConfig>, l: LivenessTables, placed: seq<Option<Assignment>>, plan: MemoryPlan) {
    && CorrectLiveness(p, l) && ValidConfig(config)
    && var packed := PackAll(config, Requests(p, l));
    && packed.Success?
    && var assignments := packed.value.assignments;
    && InStartOrder(assignments)
    && !Conflict(assignments)
    && plan.segments == SegmentsOf(packed.value.segments)
    && PlacedBy(p, AllocationOrder(p, l), assignments, placed)
    && LocationsMatch(p, l, placed, plan.locations)
    && StrictlyOrdered(plan.reuseEdges)
    && (forall e :: e in plan.reuseEdges <==> IsReuse(assignments, e))
    && |plan.outputs| == |p.outputs|
    && (forall k :: 0 <= k < |p.outputs| ==> plan.outputs[k] == OutputSlot(p.outputs[k], p.outputs[k]))
    && IsPeak(p, l, plan.peakLiveBytes, |p.instructions|)
    && plan.peakLiveBytes + plan.packingOverheadBytes == SegmentBytes(plan.segments)
  }

  // ----- What a packing run over the requests means for the values

  lemma AssignmentsInStartOrder(p: Program, l: LivenessTables, config: seq<SpaceConfig>)
    requires CorrectLiveness(p, l) && ValidConfig(config) && PackAll(config, Requests(p, l)).Success?
    ensures InStartOrder(PackAll(config, Requests(p, l)).value.assignments)
  {
    var reqs := Requests(p, l);
    PackAllKeeps(config, reqs);
    var st := PackAll(config, reqs).value;
    assert forall i :: 0 <= i < |reqs| ==> GoodAssignment(st.segments, st.assignments[i], reqs[i]);
  }

  /** A packing state over the requests for `order`, with the assignments looked up by value. */
  ghost predicate PackedFor(p: Program, l: LivenessTables, order: seq<nat>, st: PackState, placed: seq<Option<Assignment>>) {
    && |p.values| == |l.intervals|
    && (forall v: nat :: v in order <==> v < |p.values| && p.values[v].storage.Planned?)
    && (forall k :: 0 <= k < |order| ==> order[k] < |p.values| && p.values[order[k]].storage.Planned?)
    && (forall k :: 0 <= k < |order| ==> l.intervals[order[k]].Some? && p.values[order[k]].id == order[k])
    && PlacedBy(p, order, st.assignments, placed)
    && (forall s :: 0 <= s < |st.segments| ==> GoodSegment(st.segments[s]))
    && (forall k :: 0 <= k < |order| ==> GoodAssignment(st.segments, st.assignments[k], RequestOf(p, l, order[k])))
    && Safe(st.assignments)
  }

  lemma PlacedInSegment(p: Program, l: LivenessTables, order: seq<nat>, st: PackState, placed: seq<Option<Assignment>>, v: nat)
    requires PackedFor(p, l, order, st, placed) && PositiveGranularity(st.segments) && v in order
    ensures placed[v].Some? && InItsSegment(p, l, SegmentsOf(st.segments), v, placed[v].value)
  {
    var k :| 0 <= k < |order| && order[k] == v;
    assert GoodAssignment(st.segments, st.assignments[k], RequestOf(p, l, order[k]));
  }

  lemma PlacedApart(p: Program, l: LivenessTables, order: seq<nat>, st: PackState, placed: seq<Option<Assignment>>, v: nat, w: nat)
    requires PackedFor(p, l, order, st, placed) && v in order && w in order && v != w
    ensures placed[v].Some? && placed[w].Some? && Apart(placed[v].value, placed[w].value)
  {
    var i :| 0 <= i < |order| && order[i] == v;
    var j :| 0 <= j < |order| && order[j] == w;
    if i < j {
      assert Apart(st.assignments[i], st.assignments[j]);
    } else {
      assert Apart(st.assignments[j], st.assignments[i]);
    }
  }

  /** The assignments, looked up by value, form a sound layout. */
  lemma PackedLayoutIsSound(p: Program, l: LivenessTables, config: seq<SpaceConfig>, placed: seq<Option<Assignment>>)
    requires CorrectLiveness(p, l) && ValidConfig(config) && PackAll(config, Requests(p, l)).Success?
    requires PlacedBy(p, AllocationOrder(p, l), PackAll(config, Requests(p, l)).value.assignments, placed)
    ensures SoundLayout(p, l, SegmentsOf(PackAll(config, Requests(p, l)).value.segments), placed)
  {
    var order, reqs := AllocationOrder(p, l), Requests(p, l);
    var st := PackAll(config, reqs).value;
    PackAllKeeps(config, reqs);
    LivenessOfPlanned(p, l);
    AllocationOrderIs(p, l);
    RequestsWellFormed(p, l);
    assert PackedFor(p, l, order, st, placed);
    forall v | v in order
      ensures placed[v].Some? && InItsSegment(p, l, SegmentsOf(st.segments), v, placed[v].value)
    {
      PlacedInSegment(p, l, order, st, placed, v);
    }
    forall v, w | v in order && w in order && v != w
      ensures Apart(placed[v].value, placed[w].value)
    {
      PlacedApart(p, l, order, st, placed, v, w);
    }
  }

  /** A conflict names a value without bytes. */
  ghost predicate ConflictIsEmptyValue(p: Program, e: PlannerError) {
    && e.PackingConflict?
    && e.first < |p.values| && e.second < |p.values|
    && p.values[e.first].storage.Planned? && p.values[e.second].storage.Planned?
    && (p.values[e.first].bytes == 0 || p.values[e.second].bytes == 0)
  }

  lemma ConflictNamesEmptyValue(p: Program, l: LivenessTables, config: seq<SpaceConfig>, i: int, j: int)
    requires CorrectLiveness(p, l) && ValidConfig(config) && PackAll(config, Requests(p, l)).Success?
    requires ConflictAt(PackAll(config, Requests(p, l)).value.assignments, i, j)
    ensures var assignments := PackAll(config, Requests(p, l)).value.assignments;
            ConflictIsEmptyValue(p, PackingConflict(assignments[i].value, assignments[j].value))
  {
    var order, reqs := AllocationOrder(p, l), Requests(p, l);
    var st := PackAll(config, reqs).value;
    PackAllKeeps(config, reqs);
    LivenessOfPlanned(p, l);
    RequestsWellFormed(p, l);
    ConflictNeedsEmptyValue(st.assignments, i, j);
    assert GoodAssignment(st.segments, st.assignments[i], reqs[i]);
    assert GoodAssignment(st.segments, st.assignments[j], reqs[j]);
  }

  /** In the packing of the program a live value surrounds one without bytes. */
  ghost predicate PacksAroundEmptyValue(p: Program, config: seq<SpaceConfig>, l: LivenessTables)
    requires CorrectLiveness(p, l) && ValidConfig(config)
  {
    var packed := PackAll(config, Requests(p, l));
    packed.Success? && SurroundsEmptyValue(packed.value.assignments)
  }

  lemma ConflictMeansEmptyValue(p: Program, config: seq<SpaceConfig>, l: LivenessTables)
    requires CorrectLiveness(p, l) && ValidConfig(config) && PackAll(config, Requests(p, l)).Success?
    ensures Conflict(PackAll(config, Requests(p, l)).value.assignments) <==> PacksAroundEmptyValue(p, config, l)
  {
    PackAllKeeps(config, Requests(p, l));
    ConflictIsSurrounding(PackAll(config, Requests(p, l)).value.assignments);
  }

  ghost predicate AllFit(p: Program, config: seq<SpaceConfig>)
    requires ValidConfig(config)
  {
    forall v :: 0 <= v < |p.values| && p.values[v].storage.Planned? ==> FitsConfig(config, p.values[v])
  }

  // ----- The planner

  /** The first `k` values of the order have been assigned, and no others. */
  ghost predicate PlacedPrefix(order: seq<nat>, assignments: seq<Assignment>, placed: seq<Option<Assignment>>, k: nat) {
    && |assignments| == k <= |order|
    && (forall i :: 0 <= i < k ==> order[i] < |placed| && placed[order[i]] == Some(assignments[i]))
    && (forall v :: 0 <= v < |placed| && v !in order[..k] ==> placed[v] == None)
  }

  lemma PlacedPrefixOneMore(order: seq<nat>, assignments: seq<Assignment>, placed: seq<Option<Assignment>>, k: nat, a: Assignment)
    requires PlacedPrefix(order, assignments, placed, k) && k < |order| && order[k] < |placed|
    requires forall i, j :: 0 <= i < j < |order| ==> order[i] != order[j]
    ensures PlacedPrefix(order, assignments + [a], placed[order[k] := Some(a)], k + 1)
  {
    assert order[..k + 1] == order[..k] + [order[k]];
  }

  /** The working segments and assignments are those of packing the first `k` requests. */
  ghost predicate PackedPrefix(config: seq<SpaceConfig>, reqs: seq<Request>, k: nat, working: seq<WorkingSegment>, assignments: seq<Assignment>)
    requires ValidConfig(config) && WellFormedRequests(reqs) && k <= |reqs|
    reads working
  {
    Distinct(working) && PackAll(config, reqs[..k]) == Success(PackState(AllContents(working), assignments))
  }

  /** One iteration of the allocation loop on the working segments. */
  method PackNext(config: seq<SpaceConfig>, reqs: seq<Request>, k: nat, working: seq<WorkingSegment>, assignments: seq<Assignment>)
    returns (r: Result<Assignment, PlannerError>, next: seq<WorkingSegment>)
    requires ValidConfig(config) && WellFormedRequests(reqs) && k < |reqs| && PackedPrefix(config, reqs, k, working, assignments)
    modifies working
    ensures forall i :: 0 <= i < |next| ==> next[i] in working || fresh(next[i])
    ensures r.Failure? ==> PackAll(config, reqs) == Failure(r.error)
    ensures r.Success? ==> PackedPrefix(config, reqs, k + 1, next, assignments + [r.value])
  {
    PackAllOneMore(config, reqs, k, PackState(AllContents(working), assignments));
    r, next := PackStep(config, working, assignments, reqs[k]);
    if r.Failure? {
      FailedPrefix(config, reqs, k + 1);
    }
  }

  /** Packs the requests in allocation order, updating the working segments in place; `order` names their values. */
  method PackRequests(config: seq<SpaceConfig>, reqs: seq<Request>, order: seq<nat>, count: nat)
    returns (failure: Option<PlannerError>, working: seq<WorkingSegment>, assignments: seq<Assignment>, placed: seq<Option<Assignment>>)
    requires ValidConfig(config) && WellFormedRequests(reqs) && |order| == |reqs|
    requires forall k :: 0 <= k < |order| ==> order[k] < count
    requires forall i, j :: 0 <= i < j < |order| ==> order[i] != order[j]
    ensures failure.Some? ==> PackAll(config, reqs) == Failure(failure.value)
    ensures failure == None ==>
              && PackAll(config, reqs) == Success(PackState(AllContents(working), assignments))
              && |placed| == count && PlacedPrefix(order, assignments, placed, |order|)
  {
    working, assignments := [], [];
    placed := seq(count, _ => None);
    for k := 0 to |order|
      invariant forall i :: 0 <= i < |working| ==> fresh(working[i])
      invariant PackedPrefix(config, reqs, k, working, assignments)
      invariant |placed| == count && PlacedPrefix(order, assignments, placed, k)
    {
      var assignment;
      assignment, working := PackNext(config, reqs, k, working, assignments);
      if assignment.Failure? {
        return Some(assignment.error), working, assignments, placed;
      }
      PlacedPrefixOneMore(order, assignments, placed, k, assignment.value);
      assignments, placed := assignments + [assignment.value], placed[order[k] := Some(assignment.value)];
    }
    assert reqs[..|order|] == reqs;
    return None, working, assignments, placed;
  }

  /** A packing run that fails on a prefix fails the same way on the whole list. */
  lemma {:induction false} FailedPrefix(config: seq<SpaceConfig>, reqs: seq<Request>, k: nat)
    requires ValidConfig(config) && WellFormedRequests(reqs) && k <= |reqs|
    requires PackAll(config, reqs[..k]).Failure?
    ensures PackAll(config, reqs) == PackAll(config, reqs[..k])
    decreases |reqs|
  {
    if k < |reqs| {
      var rest := reqs[..|reqs| - 1];
      assert rest[..k] == reqs[..k];
      FailedPrefix(config, rest, k);
    } else {
      assert reqs[..k] == reqs;
    }
  }

  /** Exactly what planning asks of a program, packing conflicts aside. */
  ghost predicate Acceptable(p: Program, config: seq<SpaceConfig>) {
    Analyzable(p) && ValidConfig(config) && AllFit(p, config)
  }

  method Locations(p: Program, l: LivenessTables, placed: seq<Option<Assignment>>) returns (locations: seq<Location>)
    requires |placed| == |p.values| == |l.aliases|
    requires forall v :: 0 <= v < |p.values| && p.values[v].storage.Planned? ==> placed[v].Some?
    ensures LocationsMatch(p, l, placed, locations)
  {
    locations := [];
    for v := 0 to |p.values|
      invariant |locations| == v
      invariant forall w :: 0 <= w < v ==> LocationMatches(p, l, placed, w, locations[w])
    {
      var location;
      match p.values[v].storage {
        case Fixed(storageClass) =>
          location := FixedLocation(storageClass);
        case Planned(_, _, _, _) =>
          location := SegmentLocation(placed[v].value.segment, placed[v].value.offset, placed[v].value.bytes);
        case Alias(_, _) =>
          location := AliasLocation(l.aliases[v].root, l.aliases[v].byteOffset);
      }
      locations := locations + [location];
    }
  }

  method Segments(working: seq<WorkingSegment>) returns (segments: seq<SegmentDecl>)
    requires PositiveGranularity(AllContents(working))
    ensures segments == SegmentsOf(AllContents(working))
  {
    segments := [];
    for s := 0 to |working|
      invariant |segments| == s
      invariant forall t :: 0 <= t < s ==> segments[t] == SegmentsOf(AllContents(working))[t]
    {
      var segment := working[s];
      assert AllContents(working)[s] == segment.Contents();
      segments := segments + [SegmentDecl(RoundUp(segment.usedEnd, segment.granularity), segment.alignment,
                                          segment.space, segment.ownership)];
    }
  }

  method PlanMemoryWithLiveness(p: Program, config: seq<SpaceConfig>, l: LivenessTables)
    returns (r: Result<MemoryPlan, PlannerError>, ghost placed: seq<Option<Assignment>>)
    requires CorrectLiveness(p, l)
    ensures r.Success? ==> IsPlan(p, config, l, placed, r.value)
    ensures r.Failure? ==>
              || !ValidConfig(config)
              || (exists v :: 0 <= v < |p.values| && p.values[v].storage.Planned? && !FitsConfig(config, p.values[v]))
              || (ConflictIsEmptyValue(p, r.error) && PacksAroundEmptyValue(p, config, l))
    ensures r.Success? <==> ValidConfig(config) && AllFit(p, config) && !PacksAroundEmptyValue(p, config, l)
  {
    placed := [];
    var invalid := ValidateConfig(config);
    if invalid.Some? {
      return Failure(invalid.value), placed;
    }
    RequestsFit(p, l, config);
    RequestsWellFormed(p, l);
    AllocationOrderIs(p, l);
    var order := AllocationOrder(p, l);
    var failure, working, assignments, byValue := PackRequests(config, RequestsFor(p, l, order), order, |p.values|);
    if failure.Some? {
      return Failure(failure.value), placed;
    }
    placed := byValue;
    assert order[..|order|] == order;
    AssignmentsInStartOrder(p, l, config);
    PackedLayoutIsSound(p, l, config, placed);
    LivenessOfPlanned(p, l);
    ConflictMeansEmptyValue(p, config, l);
    var segments := Segments(working);
    var edges := CollectReuseEdges(assignments);
    if edges.Failure? {
      ghost var i, j :| ConflictAt(assignments, i, j) && edges.error == PackingConflict(assignments[i].value, assignments[j].value);
      ConflictNamesEmptyValue(p, l, config, i, j);
      return Failure(edges.error), placed;
    }
    var locations := Locations(p, l, byValue);
    var outputs := seq(|p.outputs|, k requires 0 <= k < |p.outputs| => OutputSlot(p.outputs[k], p.outputs[k]));
    var peak, overhead := BuildReport(p, l, segments, placed);
    var plan := MemoryPlan(segments, locations, outputs, edges.value, peak, overhead);
    PlanValidates(p, config, l, placed, plan);
    if !Validates(plan) {
      return Failure(InvalidMemoryPlan), placed;
    }
    return Success(plan), placed;
  }

  /** The runtime's structural checks: power-of-two alignments, slices inside their segments, known output locations. */
  predicate Validates(plan: MemoryPlan) {
    && (forall s :: 0 <= s < |plan.segments| ==> IsPowerOfTwo(plan.segments[s].alignment))
    && (forall v :: 0 <= v < |plan.locations| && plan.locations[v].SegmentLocation? ==>
          && plan.locations[v].segment < |plan.segments|
          && plan.locations[v].offset + plan.locations[v].bytes <= plan.segments[plan.locations[v].segment].bytes)
    && (forall k :: 0 <= k < |plan.outputs| ==> plan.outputs[k].location < |plan.locations|)
  }

  /** The runtime's validation accepts every plan the planner builds. */
  lemma PlanValidates(p: Program, config: seq<SpaceConfig>, l: LivenessTables, placed: seq<Option<Assignment>>, plan: MemoryPlan)
    requires IsPlan(p, config, l, placed, plan)
    ensures Validates(plan)
  {
    PackAllKeeps(config, Requests(p, l));
    PackedLayoutIsSound(p, l, config, placed);
    forall v | 0 <= v < |plan.locations| && plan.locations[v].SegmentLocation?
      ensures plan.locations[v].segment < |plan.segments|
      ensures plan.locations[v].offset + plan.locations[v].bytes <= plan.segments[plan.locations[v].segment].bytes
    {
      assert LocationMatches(p, l, placed, v, plan.locations[v]);
      assert InItsSegment(p, l, plan.segments, v, placed[v].value);
    }
  }

  ghost predicate PositiveSizes(p: Program) {
    forall v :: 0 <= v < |p.values| && p.values[v].storage.Planned? ==> p.values[v].bytes > 0
  }

  /** Packing this program lays a live value around one without bytes, which the conflict test takes for an overlap. */
  ghost predicate TripsConflictTest(p: Program, config: seq<SpaceConfig>)
    requires ValidConfig(config)
  {
    exists l :: CorrectLiveness(p, l) && PacksAroundEmptyValue(p, config, l)
  }

  /** Without empty values the conflict test is never tripped. */
  lemma PositiveSizesPack(p: Program, config: seq<SpaceConfig>)
    requires ValidConfig(config) && PositiveSizes(p)
    ensures !TripsConflictTest(p, config)
  {
    if l :| CorrectLiveness(p, l) && PacksAroundEmptyValue(p, config, l) {
      ConflictMeansEmptyValue(p, config, l);
      var assignments := PackAll(config, Requests(p, l)).value.assignments;
      var i, j :| ConflictAt(assignments, i, j);
      ConflictNamesEmptyValue(p, l, config, i, j);
    }
  }

  /**
   * Planning succeeds exactly on acceptable programs whose packing lays no live value around one without bytes; with
   * positive sizes the conflict exit is never taken.
   */
  method PlanMemory(p: Program, config: seq<SpaceConfig>)
    returns (r: Result<MemoryPlan, PlannerError>, ghost l: LivenessTables, ghost placed: seq<Option<Assignment>>)
    ensures r.Success? <==> Acceptable(p, config) && !TripsConflictTest(p, config)
    ensures r.Success? ==> IsPlan(p, config, l, placed, r.value)
    ensures r.Failure? && Acceptable(p, config) ==> ConflictIsEmptyValue(p, r.error)
    ensures PositiveSizes(p) ==> (r.Success? <==> Acceptable(p, config))
  {
    placed := [];
    l := LivenessTables([], []);
    var liveness := AnalyzeLiveness(p);
    if liveness.Failure? {
      return Failure(liveness.error), l, placed;
    }
    l := liveness.value;
    r, placed := PlanMemoryWithLiveness(p, config, liveness.value);
    if ValidConfig(config) {
      TripsWithItsLiveness(p, config, liveness.value);
      if PositiveSizes(p) {
        PositiveSizesPack(p, config);
      }
    }
  }

  /** The liveness tables of a program are unique, so any of them decides. */
  lemma TripsWithItsLiveness(p: Program, config: seq<SpaceConfig>, l: LivenessTables)
    requires CorrectLiveness(p, l) && ValidConfig(config)
    ensures TripsConflictTest(p, config) <==> PacksAroundEmptyValue(p, config, l)
  {
    if other :| CorrectLiveness(p, other) && PacksAroundEmptyValue(p, config, other) {
      LivenessOnce(p, l, other);
    }
  }

  // ----- What a plan promises

  lemma LivenessOnce(p: Program, a: LivenessTables, b: LivenessTables)
    requires CorrectLiveness(p, a) && CorrectLiveness(p, b)
    ensures a == b
  {
    FlatteningOnce(p.values, a.aliases, b.aliases);
    forall v | 0 <= v < |p.values|
      ensures a.intervals[v] == b.intervals[v]
    {
      assert CorrectInterval(p, a.aliases, v, a.intervals[v]) && CorrectInterval(p, b.aliases, v, b.intervals[v]);
      if a.intervals[v].Some? && b.intervals[v].Some? {
        EndOnce(p, a.aliases, v, a.intervals[v].value.end, b.intervals[v].value.end);
      }
    }
  }

  lemma EndOnce(p: Program, aliases: seq<NormalizedAlias>, root: nat, a: nat, b: nat)
    requires IsEnd(p, aliases, root, a) && IsEnd(p, aliases, root, b)
    ensures a == b
  {
  }

  /** Identical inputs have one plan: every table and every tie is settled by the specification. */
  lemma PlanOnce(p: Program, config: seq<SpaceConfig>, l1: LivenessTables, placed1: seq<Option<Assignment>>, plan1: MemoryPlan,
                 l2: LivenessTables, placed2: seq<Option<Assignment>>, plan2: MemoryPlan)
    requires IsPlan(p, config, l1, placed1, plan1) && IsPlan(p, config, l2, placed2, plan2)
    ensures plan1 == plan2 && placed1 == placed2
  {
    LivenessOnce(p, l1, l2);
    var order := AllocationOrder(p, l1);
    forall v | 0 <= v < |placed1|
      ensures placed1[v] == placed2[v]
    {
      if v in order {
        var k :| 0 <= k < |order| && order[k] == v;
        assert placed1[order[k]] == placed2[order[k]];
      }
    }
    StrictlyOrderedOnce(plan1.reuseEdges, plan2.reuseEdges);
    forall v | 0 <= v < |p.values|
      ensures plan1.locations[v] == plan2.locations[v]
    {
      assert LocationMatches(p, l1, placed1, v, plan1.locations[v]) && LocationMatches(p, l1, placed2, v, plan2.locations[v]);
    }
    assert plan1.locations == plan2.locations;
    assert plan1.outputs == plan2.outputs;
  }

  /** `e` hands the storage of `a` on to `b`: the last use of `a` comes before the first write of `b`. */
  ghost predicate HandsOver(e: ReuseEdge, a: Assignment, b: Assignment) {
    && e.previous == a.value && e.next == b.value
    && e.after + 1 == a.interval.end && e.before == b.interval.start && e.after < e.before
  }

  lemma PlacedNames(p: Program, config: seq<SpaceConfig>, l: LivenessTables, placed: seq<Option<Assignment>>, plan: MemoryPlan, v: nat)
    requires IsPlan(p, config, l, placed, plan)
    requires v < |p.values| && p.values[v].storage.Planned?
    ensures placed[v].Some? && placed[v].value.value == v && Some(placed[v].value.interval) == l.intervals[v]
    ensures v in AllocationOrder(p, l)
  {
    PackedLayoutIsSound(p, l, config, placed);
    AllocationOrderIs(p, l);
    assert InItsSegment(p, l, plan.segments, v, placed[v].value);
  }

  /** Two planned values whose slices meet are ordered by a reuse edge, one retired before the other is written. */
  lemma SharedStorageIsOrdered(p: Program, config: seq<SpaceConfig>, l: LivenessTables, placed: seq<Option<Assignment>>,
                               plan: MemoryPlan, v: nat, w: nat)
    requires IsPlan(p, config, l, placed, plan)
    requires v < |p.values| && w < |p.values| && v != w && p.values[v].storage.Planned? && p.values[w].storage.Planned?
    requires placed[v].Some? && placed[w].Some? && SharesAddress(placed[v].value, placed[w].value)
    ensures placed[v].value.value == v && Some(placed[v].value.interval) == l.intervals[v]
    ensures placed[w].value.value == w && Some(placed[w].value.interval) == l.intervals[w]
    ensures exists e :: e in plan.reuseEdges
                        && (HandsOver(e, placed[v].value, placed[w].value) || HandsOver(e, placed[w].value, placed[v].value))
  {
    PlacedNames(p, config, l, placed, plan, v);
    PlacedNames(p, config, l, placed, plan, w);
    var e := EdgeOfPair(p, AllocationOrder(p, l), PackAll(config, Requests(p, l)).value.assignments, placed, v, w);
    assert e in plan.reuseEdges;
  }

  lemma EdgeOfPair(p: Program, order: seq<nat>, assignments: seq<Assignment>, placed: seq<Option<Assignment>>, v: nat, w: nat)
    returns (e: ReuseEdge)
    requires PlacedBy(p, order, assignments, placed) && InStartOrder(assignments) && !Conflict(assignments)
    requires v in order && w in order && v != w
    requires placed[v].value.value == v && placed[w].value.value == w
    requires SharesAddress(placed[v].value, placed[w].value)
    ensures IsReuse(assignments, e)
    ensures HandsOver(e, placed[v].value, placed[w].value) || HandsOver(e, placed[w].value, placed[v].value)
  {
    var i :| 0 <= i < |order| && order[i] == v;
    var j :| 0 <= j < |order| && order[j] == w;
    e := if i < j then EdgeFor(assignments[i], assignments[j]) else EdgeFor(assignments[j], assignments[i]);
    ReuseIsOrdered(assignments, e);
  }

  /** Every edge of a plan is such an ordered reuse. */
  /** Values with a byte in common are joined by an edge from the one that ends first. */
  lemma SharedBytesAreOrdered(p: Program, config: seq<SpaceConfig>, l: LivenessTables, placed: seq<Option<Assignment>>,
                              plan: MemoryPlan, v: nat, w: nat, byte: nat)
    requires IsPlan(p, config, l, placed, plan)
    requires v < |p.values| && w < |p.values| && v != w && p.values[v].storage.Planned? && p.values[w].storage.Planned?
    requires placed[v].Some? && placed[w].Some? && placed[v].value.segment == placed[w].value.segment
    requires placed[v].value.offset <= byte < placed[v].value.offset + placed[v].value.bytes
    requires placed[w].value.offset <= byte < placed[w].value.offset + placed[w].value.bytes
    ensures exists e :: e in plan.reuseEdges
                        && (HandsOver(e, placed[v].value, placed[w].value) || HandsOver(e, placed[w].value, placed[v].value))
  {
    SharingMeans(placed[v].value, placed[w].value);
    SharedStorageIsOrdered(p, config, l, placed, plan, v, w);
  }

  lemma EdgesAreOrdered(p: Program, config: seq<SpaceConfig>, l: LivenessTables, placed: seq<Option<Assignment>>, plan: MemoryPlan, e: ReuseEdge)
    requires IsPlan(p, config, l, placed, plan) && e in plan.reuseEdges
    ensures e.after < e.before
  {
    ReuseIsOrdered(PackAll(config, Requests(p, l)).value.assignments, e);
  }

  /** A segment's size and alignment come from its space's configuration and the values placed in it. */
  ghost predicate SegmentIsConfigured(p: Program, c: SpaceConfig, plan: MemoryPlan, placed: seq<Option<Assignment>>, s: nat)
    requires s < |plan.segments| && |placed| == |p.values|
  {
    var segment := plan.segments[s];
    && c.space == segment.space && c.segmentGranularity > 0
    && segment.bytes % c.segmentGranularity == 0 && segment.bytes <= c.maxSegmentBytes
    && c.segmentAlignment <= segment.alignment
    && (segment.alignment == c.segmentAlignment
        || exists v :: 0 <= v < |placed| && placed[v].Some? && placed[v].value.segment == s
                       && p.values[v].storage.Planned? && p.values[v].storage.alignment == segment.alignment)
    && (exists v :: 0 <= v < |placed| && placed[v].Some? && placed[v].value.segment == s
                    && segment.bytes < placed[v].value.offset + placed[v].value.bytes + c.segmentGranularity)
  }

  /** The assignments with their requests, looked up by value. */
  ghost predicate MembersByValue(p: Program, order: seq<nat>, assignments: seq<Assignment>, reqs: seq<Request>, placed: seq<Option<Assignment>>) {
    && PlacedBy(p, order, assignments, placed) && |reqs| == |order|
    && forall k :: 0 <= k < |order| ==>
         p.values[order[k]].storage.Planned? && p.values[order[k]].storage.alignment == reqs[k].alignment
  }

  lemma SegmentIsConfiguredBy(p: Program, c: SpaceConfig, st: PackState, order: seq<nat>, reqs: seq<Request>,
                              plan: MemoryPlan, placed: seq<Option<Assignment>>, s: nat)
    requires MembersByValue(p, order, st.assignments, reqs, placed)
    requires s < |st.segments| && PositiveGranularity(st.segments) && plan.segments == SegmentsOf(st.segments)
    requires RoundUp(st.segments[s].usedEnd, st.segments[s].granularity) <= st.segments[s].maxBytes
    requires ConfiguredBy(c, st.segments[s], st.assignments, reqs, s)
    ensures SegmentIsConfigured(p, c, plan, placed, s)
  {
    var i :| 0 <= i < |st.assignments| && st.assignments[i].segment == s
             && st.assignments[i].offset + st.assignments[i].bytes == st.segments[s].usedEnd;
    assert placed[order[i]] == Some(st.assignments[i]);
    if st.segments[s].alignment != c.segmentAlignment {
      var k :| 0 <= k < |reqs| && st.assignments[k].segment == s && reqs[k].alignment == st.segments[s].alignment;
      assert placed[order[k]] == Some(st.assignments[k]);
    }
  }

  lemma MembersHold(p: Program, config: seq<SpaceConfig>, l: LivenessTables, placed: seq<Option<Assignment>>, plan: MemoryPlan)
    requires IsPlan(p, config, l, placed, plan)
    ensures MembersByValue(p, AllocationOrder(p, l), PackAll(config, Requests(p, l)).value.assignments, Requests(p, l), placed)
  {
    RequestsWellFormed(p, l);
  }

  /** Segments are right-sized: within the maximum, rounded to the granularity, less than one granule of slack. */
  lemma SegmentsAreConfigured(p: Program, config: seq<SpaceConfig>, l: LivenessTables, placed: seq<Option<Assignment>>, plan: MemoryPlan, s: nat)
    requires IsPlan(p, config, l, placed, plan) && s < |plan.segments|
    ensures exists c :: c in config && SegmentIsConfigured(p, c, plan, placed, s)
  {
    var order, reqs := AllocationOrder(p, l), Requests(p, l);
    var st := PackAll(config, reqs).value;
    PackAllConfigured(config, reqs);
    PackAllKeeps(config, reqs);
    assert GoodSegment(st.segments[s]);
    var c :| c in config && ConfiguredBy(c, st.segments[s], st.assignments, reqs, s);
    MembersHold(p, config, l, placed, plan);
    SegmentIsConfiguredBy(p, c, st, order, reqs, plan, placed, s);
  }
}
