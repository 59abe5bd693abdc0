/** What a finished layout promises, value by value, and how much of the segments is ever live. */
module Layout {
  import opened Wrappers
  import opened Lowered
  import opened Liveness
  import opened Packing
  import opened Placement

  datatype SegmentDecl = SegmentDecl(bytes: nat, alignment: nat, space: MemorySpace, ownership: SegmentOwnership)

  /** The place of planned value `v` inside its segment. */
  ghost predicate InItsSegment(p: Program, l: LivenessTables, segments: seq<SegmentDecl>, v: nat, a: Assignment)
    requires v < |p.values| && p.values[v].storage.Planned? && v < |l.intervals|
  {
    var decl := p.values[v];
    && a.value == v && a.bytes == decl.bytes && Some(a.interval) == l.intervals[v]
    && a.segment < |segments|
    && segments[a.segment].space == decl.storage.space
    && segments[a.segment].ownership == decl.storage.ownership
    && decl.storage.alignment > 0
    && a.offset % decl.storage.alignment == 0
    && segments[a.segment].alignment >= decl.storage.alignment
    && a.offset + a.bytes <= segments[a.segment].bytes
  }

  /** Two values that are live at a common instruction share no byte. */
  ghost predicate Apart(a: Assignment, b: Assignment) {
    a.segment == b.segment && a.interval.Overlaps(b.interval) ==> Disjoint(a.Bytes(), b.Bytes())
  }

  ghost predicate SoundLayout(p: Program, l: LivenessTables, segments: seq<SegmentDecl>, placed: seq<Option<Assignment>>) {
    && |placed| == |p.values| == |l.intervals|
    && (forall v :: 0 <= v < |p.values| ==>
          if p.values[v].storage.Planned?
          then placed[v].Some? && InItsSegment(p, l, segments, v, placed[v].value)
          else placed[v] == None)
    && (forall v, w :: 0 <= v < |p.values| && 0 <= w < |p.values| && v != w
                       && p.values[v].storage.Planned? && p.values[w].storage.Planned? ==>
          Apart(placed[v].value, placed[w].value))
  }

  // ----- Live bytes

  /** Bytes of value `v` that are live at instruction `i`. */
  function LiveAt(p: Program, l: LivenessTables, v: nat, i: nat): nat
    requires v < |p.values| == |l.intervals|
  {
    if p.values[v].storage.Planned? && l.intervals[v].Some? && l.intervals[v].value.Contains(i)
    then p.values[v].bytes else 0
  }

  /** Total live planned bytes at instruction `i`, over the first `n` values. */
  function LiveBytesUpTo(p: Program, l: LivenessTables, i: nat, n: nat): nat
    requires n <= |p.values| == |l.intervals|
  {
    if n == 0 then 0 else LiveBytesUpTo(p, l, i, n - 1) + LiveAt(p, l, n - 1, i)
  }

  function LiveBytes(p: Program, l: LivenessTables, i: nat): nat
    requires |p.values| == |l.intervals|
  {
    LiveBytesUpTo(p, l, i, |p.values|)
  }

  function SegmentBytes(segments: seq<SegmentDecl>): nat {
    if segments == [] then 0 else SegmentBytes(segments[..|segments| - 1]) + segments[|segments| - 1].bytes
  }

  // A byte address: segment and offset.
  type Cell = (nat, int)

  ghost function RangeCells(segment: nat, r: Range): set<Cell> {
    set b | r.start <= b < r.end :: (segment, b)
  }

  lemma {:induction false} RangeCellsCount(segment: nat, r: Range)
    requires r.start <= r.end
    ensures |RangeCells(segment, r)| == r.end - r.start
    decreases r.end - r.start
  {
    if r.start == r.end {
      assert RangeCells(segment, r) == {};
    } else {
      var shorter := Range(r.start, r.end - 1);
      RangeCellsCount(segment, shorter);
      assert RangeCells(segment, r) == RangeCells(segment, shorter) + {(segment, r.end - 1)};
    }
  }

  ghost function AllCells(segments: seq<SegmentDecl>): set<Cell> {
    set s: nat, b: int | s < |segments| && 0 <= b < segments[s].bytes :: (s, b)
  }

  lemma {:induction false} AllCellsCount(segments: seq<SegmentDecl>)
    ensures |AllCells(segments)| == SegmentBytes(segments)
  {
    if segments == [] {
      assert AllCells(segments) == {};
    } else {
      var n := |segments| - 1;
      var rest := segments[..n];
      var last := RangeCells(n, Range(0, segments[n].bytes));
      AllCellsCount(rest);
      RangeCellsCount(n, Range(0, segments[n].bytes));
      forall c: Cell
        ensures c in AllCells(segments) <==> c in AllCells(rest) + last
      {
        var (s, b) := c;
        if c in AllCells(segments) { assert s < n || s == n; }
      }
      assert AllCells(segments) == AllCells(rest) + last;
      assert AllCells(rest) !! last;
    }
  }

  /** The cells of the values among the first `n` that are live at `i`. */
  ghost function LiveCells(p: Program, l: LivenessTables, placed: seq<Option<Assignment>>, i: nat, n: nat): set<Cell>
    requires n <= |p.values| == |l.intervals| == |placed|
  {
    if n == 0 then {}
    else
      LiveCells(p, l, placed, i, n - 1) +
      if LiveAt(p, l, n - 1, i) > 0 && placed[n - 1].Some?
      then RangeCells(placed[n - 1].value.segment, placed[n - 1].value.Bytes()) else {}
  }

  lemma {:induction false} LiveCellsAre(p: Program, l: LivenessTables, placed: seq<Option<Assignment>>, i: nat, n: nat, c: Cell)
    requires n <= |p.values| == |l.intervals| == |placed|
    ensures c in LiveCells(p, l, placed, i, n) ==>
              exists v :: 0 <= v < n && LiveAt(p, l, v, i) > 0 && placed[v].Some?
                          && c in RangeCells(placed[v].value.segment, placed[v].value.Bytes())
  {
    if n > 0 && c in LiveCells(p, l, placed, i, n) {
      LiveCellsAre(p, l, placed, i, n - 1, c);
    }
  }

  lemma {:induction false} LiveCellsCount(p: Program, l: LivenessTables, segments: seq<SegmentDecl>, placed: seq<Option<Assignment>>, i: nat, n: nat)
    requires SoundLayout(p, l, segments, placed) && n <= |p.values|
    ensures |LiveCells(p, l, placed, i, n)| == LiveBytesUpTo(p, l, i, n)
    ensures LiveCells(p, l, placed, i, n) <= AllCells(segments)
  {
    if n > 0 {
      var v := n - 1;
      LiveCellsCount(p, l, segments, placed, i, v);
      if LiveAt(p, l, v, i) > 0 {
        var a := placed[v].value;
        var own := RangeCells(a.segment, a.Bytes());
        assert InItsSegment(p, l, segments, v, a);
        RangeCellsCount(a.segment, a.Bytes());
        forall c | c in own
          ensures c !in LiveCells(p, l, placed, i, v)
        {
          if c in LiveCells(p, l, placed, i, v) {
            LiveCellsAre(p, l, placed, i, v, c);
            var w :| 0 <= w < v && LiveAt(p, l, w, i) > 0 && placed[w].Some?
                     && c in RangeCells(placed[w].value.segment, placed[w].value.Bytes());
            LiveTogetherApart(p, l, segments, placed, v, w, i, c);
          }
        }
        assert LiveCells(p, l, placed, i, v) !! own;
      }
    }
  }

  lemma LiveTogetherApart(p: Program, l: LivenessTables, segments: seq<SegmentDecl>, placed: seq<Option<Assignment>>, v: nat, w: nat, i: nat, c: Cell)
    requires SoundLayout(p, l, segments, placed) && v < |p.values| && w < |p.values| && v != w
    requires LiveAt(p, l, v, i) > 0 && LiveAt(p, l, w, i) > 0
    ensures !(c in RangeCells(placed[v].value.segment, placed[v].value.Bytes())
              && c in RangeCells(placed[w].value.segment, placed[w].value.Bytes()))
  {
    var a, b := placed[v].value, placed[w].value;
    assert InItsSegment(p, l, segments, v, a) && InItsSegment(p, l, segments, w, b);
    assert Apart(a, b);
    assert a.interval.Overlaps(b.interval);
    assert c in RangeCells(a.segment, a.Bytes()) ==> a.Bytes().Has(c.1);
    assert c in RangeCells(b.segment, b.Bytes()) ==> b.Bytes().Has(c.1);
  }

  /** The live bytes of any instruction fit in the segments together. */
  lemma LiveBytesFit(p: Program, l: LivenessTables, segments: seq<SegmentDecl>, placed: seq<Option<Assignment>>, i: nat)
    requires SoundLayout(p, l, segments, placed)
    ensures LiveBytes(p, l, i) <= SegmentBytes(segments)
  {
    LiveCellsCount(p, l, segments, placed, i, |p.values|);
    AllCellsCount(segments);
    SubsetCount(LiveCells(p, l, placed, i, |p.values|), AllCells(segments));
  }

  lemma SubsetCount<T>(a: set<T>, b: set<T>)
    requires a <= b
    ensures |a| <= |b|
  {
    assert b == a + (b - a);
    assert |b| == |a| + |b - a|;
  }

  // ----- The report's sweep

  /** Bytes of planned values whose interval starts (or ends) at `i`, over the first `n` values. */
  function EdgeBytes(p: Program, l: LivenessTables, starts: bool, i: nat, n: nat): nat
    requires n <= |p.values| == |l.intervals|
  {
    if n == 0 then 0
    else
      var v := n - 1;
      EdgeBytes(p, l, starts, i, v) +
      if p.values[v].storage.Planned? && l.intervals[v].Some?
         && i == (if starts then l.intervals[v].value.start else l.intervals[v].value.end)
      then p.values[v].bytes else 0
  }

  /** Planned values have non-empty intervals inside the program. */
  ghost predicate PlannedIntervals(p: Program, l: LivenessTables) {
    && |p.values| == |l.intervals|
    && forall v :: 0 <= v < |p.values| && p.values[v].storage.Planned? ==>
         l.intervals[v].Some? && l.intervals[v].value.start < l.intervals[v].value.end <= |p.instructions|
  }

  /** Crossing into instruction `i` drops what ended there and adds what starts there. */
  lemma {:induction false} SweepStep(p: Program, l: LivenessTables, i: nat, n: nat)
    requires PlannedIntervals(p, l) && n <= |p.values|
    ensures i == 0 ==> LiveBytesUpTo(p, l, 0, n) == EdgeBytes(p, l, true, 0, n) && EdgeBytes(p, l, false, 0, n) == 0
    ensures i > 0 ==> LiveBytesUpTo(p, l, i, n) + EdgeBytes(p, l, false, i, n)
                      == LiveBytesUpTo(p, l, i - 1, n) + EdgeBytes(p, l, true, i, n)
    ensures i > 0 ==> EdgeBytes(p, l, false, i, n) <= LiveBytesUpTo(p, l, i - 1, n)
  {
    if n > 0 {
      SweepStep(p, l, i, n - 1);
    }
  }

  /** `peak` is the maximum, over the instructions below `n`, of the live planned bytes. */
  ghost predicate IsPeak(p: Program, l: LivenessTables, peak: nat, n: nat)
    requires |p.values| == |l.intervals|
  {
    && (forall i: nat :: i < n ==> LiveBytes(p, l, i) <= peak)
    && (peak == 0 || exists i: nat :: i < n && LiveBytes(p, l, i) == peak)
  }

  /** The sweep over interval starts and ends; its `checked_sub` never fails. */
  method PeakLiveBytes(p: Program, l: LivenessTables) returns (peak: nat)
    requires PlannedIntervals(p, l)
    ensures IsPeak(p, l, peak, |p.instructions|)
  {
    var n := |p.instructions|;
    var starts, ends := new nat[n + 1](_ => 0), new nat[n + 1](_ => 0);
    for v := 0 to |p.values|
      invariant forall i :: 0 <= i <= n ==> starts[i] == EdgeBytes(p, l, true, i, v)
      invariant forall i :: 0 <= i <= n ==> ends[i] == EdgeBytes(p, l, false, i, v)
    {
      var value := p.values[v];
      if value.storage.Planned? {
        var interval := l.intervals[v].value;
        starts[interval.start] := starts[interval.start] + value.bytes;
        ends[interval.end] := ends[interval.end] + value.bytes;
      }
    }
    var live: nat := 0;
    peak := 0;
    for i := 0 to n
      invariant forall j :: 0 <= j <= n ==> starts[j] == EdgeBytes(p, l, true, j, |p.values|)
      invariant forall j :: 0 <= j <= n ==> ends[j] == EdgeBytes(p, l, false, j, |p.values|)
      invariant live == if i == 0 then 0 else LiveBytes(p, l, i - 1)
      invariant IsPeak(p, l, peak, i)
    {
      SweepStep(p, l, i, |p.values|);
      live := live - ends[i];
      live := live + starts[i];
      peak := Max(peak, live);
    }
  }

  /** A peak is at most the total size of the segments. */
  lemma PeakFits(p: Program, l: LivenessTables, segments: seq<SegmentDecl>, placed: seq<Option<Assignment>>, peak: nat)
    requires SoundLayout(p, l, segments, placed) && IsPeak(p, l, peak, |p.instructions|)
    ensures peak <= SegmentBytes(segments)
  {
    if peak > 0 {
      var i: nat :| i < |p.instructions| && LiveBytes(p, l, i) == peak;
      LiveBytesFit(p, l, segments, placed, i);
    }
  }

  /** The peak and what the segments hold beyond it; that difference never underflows. */
  method BuildReport(p: Program, l: LivenessTables, segments: seq<SegmentDecl>, ghost placed: seq<Option<Assignment>>)
    returns (peak: nat, overhead: nat)
    requires PlannedIntervals(p, l) && SoundLayout(p, l, segments, placed)
    ensures IsPeak(p, l, peak, |p.instructions|)
    ensures peak + overhead == SegmentBytes(segments)
  {
    peak := PeakLiveBytes(p, l);
    var total: nat := 0;
    for s := 0 to |segments|
      invariant total == SegmentBytes(segments[..s])
    {
      assert segments[..s + 1][..s] == segments[..s];
      total := total + segments[s].bytes;
    }
    assert segments[..|segments|] == segments;
    PeakFits(p, l, segments, placed, peak);
    overhead := total - peak;
  }
}
