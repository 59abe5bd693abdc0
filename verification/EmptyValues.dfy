/**
 * A packing run that ends in a conflict. All four values are legal and fit, but the third has no bytes: the free
 * range it was placed in stays whole, and a later value is laid across it while it is still live.
 */
module EmptyValues {
  import opened Wrappers
  import opened Lowered
  import opened Liveness
  import opened Sorting
  import opened Packing
  import opened Placement
  import opened ReuseEdges

  const CONFIG := [SpaceConfig(0, 64, 16, 16)]

  function Ask(value: nat, bytes: nat, start: nat, end: nat): Request {
    Request(value, bytes, 16, 0, WorkspaceOwned, LiveInterval(value, start, end))
  }

  function Sketch(usedEnd: nat, free: seq<Range>, active: seq<ActiveAllocation>): Segment {
    Segment(0, WorkspaceOwned, 64, 16, 16, usedEnd, free, active)
  }

  const FIRST := Ask(0, 16, 0, 3)
  const SECOND := Ask(1, 16, 0, 1)
  const EMPTY := Ask(2, 0, 2, 5)
  const WIDE := Ask(3, 32, 4, 5)

  const AFTER_FIRST := Sketch(16, [], [ActiveAllocation(3, 0, 16)])
  const AFTER_SECOND := Sketch(32, [], [ActiveAllocation(3, 0, 16), ActiveAllocation(1, 16, 16)])
  const AFTER_EMPTY := Sketch(32, [Range(16, 32)], [ActiveAllocation(3, 0, 16), ActiveAllocation(5, 16, 0)])
  const AFTER_WIDE := Sketch(32, [], [ActiveAllocation(5, 16, 0), ActiveAllocation(5, 0, 32)])

  lemma Checks(req: Request)
    requires req.space == 0 && req.bytes in {0, 16, 32}
    ensures ValidConfig(CONFIG) && CheckRequest(CONFIG, req) == Success(CONFIG[0])
  {
    assert IsPowerOfTwo(16) by { assert IsPowerOfTwo(8) by { assert IsPowerOfTwo(4) by { assert IsPowerOfTwo(2); } } }
    assert RoundUp(0, 16) == 0 && RoundUp(16, 16) == 16 && RoundUp(32, 16) == 32;
  }

  lemma CoalescedOne(a: Range)
    ensures Coalesced([]) == [] && Coalesced([a]) == [a]
  {
    assert Sort(RangeLeq, [a]) == [a];
    assert Absorb([], a) == [a] && AbsorbAll([a], []) == [a];
    assert [a][1..] == [];
  }

  lemma CoalescedTouching(a: Range, b: Range)
    requires b.start < a.start <= b.end <= a.end
    ensures Coalesced([a, b]) == [Range(b.start, a.end)]
  {
    assert [a, b][1..] == [b] && [b][1..] == [];
    assert Sort(RangeLeq, [b]) == [b];
    assert Sort(RangeLeq, [a, b]) == Insert(RangeLeq, [b], a) == [b, a];
    assert [b, a][1..] == [a] && [a][1..] == [];
    var merged := [Range(b.start, a.end)];
    assert Absorb([], b) == [b] && Absorb([b], a) == merged;
    assert AbsorbAll(merged, []) == merged && AbsorbAll([b], [a]) == merged && AbsorbAll([], [b, a]) == merged;
  }

  lemma StepFirst()
    ensures ValidConfig(CONFIG)
    ensures PackOne(CONFIG, PackState([], []), FIRST) == Success(PackState([AFTER_FIRST], [Assignment(0, 0, 0, 16, FIRST.interval)]))
  {
    Checks(FIRST);
    assert RetireAll([], 0) == [];
    assert BestGap([], FIRST) == None && BestTail([], FIRST) == None;
    var first := Activated(NewSegment(CONFIG[0], FIRST), 16, ActiveAllocation(3, 0, 16));
    assert [] + [ActiveAllocation(3, 0, 16)] == AFTER_FIRST.active;
    assert first == AFTER_FIRST;
    var a := Assignment(0, 0, 0, 16, FIRST.interval);
    assert PackState([], []).assignments + [a] == [a];
    assert Placed([], CONFIG[0], FIRST).0 == [] + [first] == [AFTER_FIRST];
  }

  lemma StepSecond(assignments: seq<Assignment>)
    ensures ValidConfig(CONFIG)
    ensures PackOne(CONFIG, PackState([AFTER_FIRST], assignments), SECOND)
            == Success(PackState([AFTER_SECOND], assignments + [Assignment(1, 0, 16, 16, SECOND.interval)]))
  {
    Checks(SECOND);
    CoalescedOne(Range(0, 0));
    var active := AFTER_FIRST.active;
    assert active[1..] == [];
    assert StillActive(active, 0) == active && RetiredRanges(active, 0) == [];
    var retired := RetireAll([AFTER_FIRST], 0);
    assert retired == [AFTER_FIRST];
    assert BestGapUpTo(retired, SECOND, 0, 0) == None;
    assert BestGap(retired, SECOND) == None;
    assert TailAt(retired, SECOND, 0) == Some(Tail(16, 0, 16));
    assert BestTailUpTo(retired, SECOND, 0) == None;
    assert BestTail(retired, SECOND) == Some(Tail(16, 0, 16));
    assert active + [ActiveAllocation(1, 16, 16)] == AFTER_SECOND.active;
    assert Activated(Grown(AFTER_FIRST, 16, 16), 16, ActiveAllocation(1, 16, 16)) == AFTER_SECOND;
    assert Placed(retired, CONFIG[0], SECOND).0 == retired[0 := AFTER_SECOND] == [AFTER_SECOND];
  }

  lemma StepEmpty(assignments: seq<Assignment>)
    ensures ValidConfig(CONFIG)
    ensures PackOne(CONFIG, PackState([AFTER_SECOND], assignments), EMPTY)
            == Success(PackState([AFTER_EMPTY], assignments + [Assignment(2, 0, 16, 0, EMPTY.interval)]))
  {
    Checks(EMPTY);
    CoalescedOne(Range(16, 32));
    var active := AFTER_SECOND.active;
    assert active[1..] == [ActiveAllocation(1, 16, 16)] && active[1..][1..] == [];
    assert StillActive(active[1..], 2) == [] && RetiredRanges(active[1..], 2) == [Range(16, 32)];
    assert StillActive(active, 2) == [ActiveAllocation(3, 0, 16)] && RetiredRanges(active, 2) == [Range(16, 32)];
    var middle := Sketch(32, [Range(16, 32)], [ActiveAllocation(3, 0, 16)]);
    var retired := RetireAll([AFTER_SECOND], 2);
    assert AFTER_SECOND.free + [Range(16, 32)] == [Range(16, 32)];
    assert retired == [middle];
    assert GapAt(retired, EMPTY, 0, 0) == Some(Gap(16, 0, 16, 0));
    assert BestGapUpTo(retired, EMPTY, 0, 0) == None;
    assert BestGapUpTo(retired, EMPTY, 0, 1) == Some(Gap(16, 0, 16, 0));
    assert BestGap(retired, EMPTY) == Some(Gap(16, 0, 16, 0));
    assert middle.free[..0] + middle.free[1..] + NonEmpty(Range(16, 16)) + NonEmpty(Range(16, 32)) == [Range(16, 32)];
    assert Consumed(middle, 0, 16, 0) == middle;
    assert middle.active + [ActiveAllocation(5, 16, 0)] == AFTER_EMPTY.active;
    assert Activated(middle, 16, ActiveAllocation(5, 16, 0)) == AFTER_EMPTY;
    assert Placed(retired, CONFIG[0], EMPTY).0 == retired[0 := AFTER_EMPTY] == [AFTER_EMPTY];
  }

  lemma StepWide(assignments: seq<Assignment>)
    ensures ValidConfig(CONFIG)
    ensures PackOne(CONFIG, PackState([AFTER_EMPTY], assignments), WIDE)
            == Success(PackState([AFTER_WIDE], assignments + [Assignment(3, 0, 0, 32, WIDE.interval)]))
  {
    Checks(WIDE);
    CoalescedTouching(Range(16, 32), Range(0, 16));
    var active := AFTER_EMPTY.active;
    assert active[1..] == [ActiveAllocation(5, 16, 0)] && active[1..][1..] == [];
    assert StillActive(active[1..], 4) == active[1..] && RetiredRanges(active[1..], 4) == [];
    assert StillActive(active, 4) == [ActiveAllocation(5, 16, 0)] && RetiredRanges(active, 4) == [Range(0, 16)];
    var middle := Sketch(32, [Range(0, 32)], [ActiveAllocation(5, 16, 0)]);
    var retired := RetireAll([AFTER_EMPTY], 4);
    assert AFTER_EMPTY.free + [Range(0, 16)] == [Range(16, 32), Range(0, 16)];
    assert retired == [middle];
    assert GapAt(retired, WIDE, 0, 0) == Some(Gap(0, 0, 0, 0));
    assert BestGapUpTo(retired, WIDE, 0, 0) == None;
    assert BestGapUpTo(retired, WIDE, 0, 1) == Some(Gap(0, 0, 0, 0));
    assert BestGap(retired, WIDE) == Some(Gap(0, 0, 0, 0));
    assert middle.free[..0] + middle.free[1..] + NonEmpty(Range(0, 0)) + NonEmpty(Range(32, 32)) == [];
    assert Consumed(middle, 0, 0, 32) == middle.(free := []);
    assert middle.active + [ActiveAllocation(5, 0, 32)] == AFTER_WIDE.active;
    assert Activated(middle.(free := []), 16, ActiveAllocation(5, 0, 32)) == AFTER_WIDE;
    assert Placed(retired, CONFIG[0], WIDE).0 == retired[0 := AFTER_WIDE] == [AFTER_WIDE];
  }

  lemma RequestsAreWellFormed()
    ensures ValidConfig(CONFIG) && WellFormedRequests([FIRST, SECOND, EMPTY, WIDE])
    ensures forall k :: 0 <= k <= 4 ==> WellFormedRequests([FIRST, SECOND, EMPTY, WIDE][..k])
  {
    Checks(FIRST);
    assert IsPowerOfTwo(16) by { assert IsPowerOfTwo(8) by { assert IsPowerOfTwo(4) by { assert IsPowerOfTwo(2); } } }
  }

  lemma FourSteps(config: seq<SpaceConfig>, reqs: seq<Request>, a: PackState, b: PackState, c: PackState, d: PackState)
    requires ValidConfig(config) && |reqs| == 4 && forall k :: 0 <= k <= 4 ==> WellFormedRequests(reqs[..k])
    requires forall k :: 0 <= k < 4 ==> reqs[k].alignment > 0
    requires PackOne(config, PackState([], []), reqs[0]) == Success(a)
    requires PackOne(config, a, reqs[1]) == Success(b)
    requires PackOne(config, b, reqs[2]) == Success(c)
    requires PackOne(config, c, reqs[3]) == Success(d)
    ensures WellFormedRequests(reqs) && PackAll(config, reqs) == Success(d)
  {
    assert reqs[..4] == reqs && reqs[..0] == [];
    PackAllOneMore(config, reqs, 0, PackState([], []));
    PackAllOneMore(config, reqs, 1, a);
    PackAllOneMore(config, reqs, 2, b);
    PackAllOneMore(config, reqs, 3, c);
  }

  ghost function Requests(): seq<Request> {
    [FIRST, SECOND, EMPTY, WIDE]
  }

  ghost function Assignments(): seq<Assignment> {
    [Assignment(0, 0, 0, 16, FIRST.interval)] + [Assignment(1, 0, 16, 16, SECOND.interval)]
    + [Assignment(2, 0, 16, 0, EMPTY.interval)] + [Assignment(3, 0, 0, 32, WIDE.interval)]
  }

  lemma FourPlaced()
    ensures ValidConfig(CONFIG) && WellFormedRequests(Requests())
    ensures PackAll(CONFIG, Requests()) == Success(PackState([AFTER_WIDE], Assignments()))
  {
    RequestsAreWellFormed();
    var a0, a1, a2, a3 := Assignment(0, 0, 0, 16, FIRST.interval), Assignment(1, 0, 16, 16, SECOND.interval),
                          Assignment(2, 0, 16, 0, EMPTY.interval), Assignment(3, 0, 0, 32, WIDE.interval);
    StepFirst();
    StepSecond([a0]);
    StepEmpty([a0] + [a1]);
    StepWide([a0] + [a1] + [a2]);
    FourSteps(CONFIG, Requests(), PackState([AFTER_FIRST], [a0]), PackState([AFTER_SECOND], [a0] + [a1]),
              PackState([AFTER_EMPTY], [a0] + [a1] + [a2]), PackState([AFTER_WIDE], [a0] + [a1] + [a2] + [a3]));
  }

  /** The empty value stands strictly inside the wide one while both are live. */
  lemma EmptyInsideWide()
    ensures ConflictAt(Assignments(), 2, 3)
  {
  }

  /** The run succeeds, keeps live values byte-disjoint, and still trips the conflict test. */
  lemma EmptyValueConflicts()
    ensures ValidConfig(CONFIG) && WellFormedRequests(Requests())
    ensures PackAll(CONFIG, Requests()).Success?
    ensures Safe(PackAll(CONFIG, Requests()).value.assignments)
    ensures Conflict(PackAll(CONFIG, Requests()).value.assignments)
  {
    FourPlaced();
    PackAllKeeps(CONFIG, Requests());
    EmptyInsideWide();
  }
}
