/**
 * Expert projection by groups: rows are packed by expert, each group is multiplied with its expert's weights, and the
 * results are scattered back. It computes exactly what the row-by-row projection computes.
 */
module GroupedExperts {
  import opened Sequences
  import opened Wrappers
  import opened ExpertLinear

  // ----- Groups

  /** The first `count` rows routed to an expert, in increasing order. */
  ghost function RowsOf(routes: seq<nat>, expert: nat, count: nat): seq<nat>
    requires count <= |routes|
  {
    if count == 0 then []
    else RowsOf(routes, expert, count - 1) + if routes[count - 1] == expert then [count - 1] else []
  }

  /** One group per expert that has rows, listing them in order. */
  ghost predicate Grouped(routes: seq<nat>, count: nat, groups: map<nat, seq<nat>>)
    requires count <= |routes|
  {
    forall expert: nat :: IsGroup(routes, expert, count, groups)
  }

  ghost predicate IsGroup(routes: seq<nat>, expert: nat, count: nat, groups: map<nat, seq<nat>>)
    requires count <= |routes|
  {
    GroupOf(groups, expert) == RowsOf(routes, expert, count) && (expert in groups ==> groups[expert] != [])
  }

  function GroupOf(groups: map<nat, seq<nat>>, expert: nat): seq<nat> {
    if expert in groups then groups[expert] else []
  }

  /** The rows of the first experts, group after group: the packed order. */
  function PackedRows(groups: map<nat, seq<nat>>, experts: nat): seq<nat> {
    if experts == 0 then []
    else PackedRows(groups, experts - 1) + GroupOf(groups, experts - 1)
  }

  lemma {:induction false} RowsOfHas(routes: seq<nat>, expert: nat, count: nat, row: nat)
    requires count <= |routes|
    ensures row in RowsOf(routes, expert, count) <==> row < count && routes[row] == expert
  {
    if count > 0 {
      RowsOfHas(routes, expert, count - 1, row);
    }
  }

  ghost predicate Distinct(rows: seq<nat>) {
    forall i, j :: 0 <= i < j < |rows| ==> rows[i] != rows[j]
  }

  lemma {:induction false} RowsOfDistinct(routes: seq<nat>, expert: nat, count: nat)
    requires count <= |routes|
    ensures Distinct(RowsOf(routes, expert, count))
  {
    if count > 0 {
      RowsOfDistinct(routes, expert, count - 1);
      var front := RowsOf(routes, expert, count - 1);
      forall i | 0 <= i < |front|
        ensures front[i] < count - 1
      {
        RowsOfHas(routes, expert, count - 1, front[i]);
      }
    }
  }

  /** The packed order told from the routes alone. */
  ghost function ByExpert(routes: seq<nat>, experts: nat): seq<nat> {
    if experts == 0 then [] else ByExpert(routes, experts - 1) + RowsOf(routes, experts - 1, |routes|)
  }

  lemma {:induction false} PackedIsByExpert(routes: seq<nat>, groups: map<nat, seq<nat>>, experts: nat)
    requires Grouped(routes, |routes|, groups)
    ensures PackedRows(groups, experts) == ByExpert(routes, experts)
  {
    if experts > 0 {
      PackedIsByExpert(routes, groups, experts - 1);
      var expert: nat := experts - 1;
      assert IsGroup(routes, expert, |routes|, groups);
    }
  }

  /** What stands in the packed order is a row with an expert so far. */
  lemma {:induction false} ByExpertIsRouted(routes: seq<nat>, experts: nat, p: nat)
    requires p < |ByExpert(routes, experts)|
    ensures ByExpert(routes, experts)[p] < |routes| && routes[ByExpert(routes, experts)[p]] < experts
  {
    var front := ByExpert(routes, experts - 1);
    if p < |front| {
      ByExpertIsRouted(routes, experts - 1, p);
    } else {
      RowsOfHas(routes, experts - 1, |routes|, RowsOf(routes, experts - 1, |routes|)[p - |front|]);
    }
  }

  /** Every such row stands somewhere in it. */
  lemma {:induction false} RoutedIsByExpert(routes: seq<nat>, experts: nat, row: nat) returns (p: nat)
    requires row < |routes| && routes[row] < experts
    ensures p < |ByExpert(routes, experts)| && ByExpert(routes, experts)[p] == row
  {
    var front, group := ByExpert(routes, experts - 1), RowsOf(routes, experts - 1, |routes|);
    if routes[row] < experts - 1 {
      p := RoutedIsByExpert(routes, experts - 1, row);
    } else {
      RowsOfHas(routes, experts - 1, |routes|, row);
      var q :| 0 <= q < |group| && group[q] == row;
      p := |front| + q;
    }
  }

  lemma DistinctConcatenation(a: seq<nat>, b: seq<nat>)
    requires Distinct(a) && Distinct(b) && forall i, j :: 0 <= i < |a| && 0 <= j < |b| ==> a[i] != b[j]
    ensures Distinct(a + b)
  {
  }

  lemma {:induction false} ByExpertDistinct(routes: seq<nat>, experts: nat)
    ensures Distinct(ByExpert(routes, experts))
  {
    if experts > 0 {
      var front, group := ByExpert(routes, experts - 1), RowsOf(routes, experts - 1, |routes|);
      ByExpertDistinct(routes, experts - 1);
      RowsOfDistinct(routes, experts - 1, |routes|);
      forall i, j | 0 <= i < |front| && 0 <= j < |group|
        ensures front[i] != group[j]
      {
        ByExpertIsRouted(routes, experts - 1, i);
        RowsOfHas(routes, experts - 1, |routes|, group[j]);
      }
      DistinctConcatenation(front, group);
    }
  }

  /** Every place of the packed order holds a row, and every row has exactly one place: packing is a permutation. */
  ghost predicate Permutes(packed: seq<nat>, rows: nat) {
    && |packed| == rows
    && (forall p :: 0 <= p < |packed| ==> packed[p] < rows)
    && Distinct(packed)
    && (forall row: nat :: row < rows ==> row in packed)
  }

  ghost function UpTo(n: nat): (s: set<nat>)
    ensures forall i: nat :: i in s <==> i < n
    ensures |s| == n
  {
    if n == 0 then {} else UpTo(n - 1) + {n - 1}
  }

  ghost function Elements(s: seq<nat>): (r: set<nat>)
    ensures forall x: nat :: x in r <==> x in s
    ensures |r| <= |s|
  {
    if s == [] then {}
    else
      assert s == s[..|s| - 1] + [s[|s| - 1]];
      Elements(s[..|s| - 1]) + {s[|s| - 1]}
  }

  lemma {:induction false} DistinctSize(s: seq<nat>)
    requires Distinct(s)
    ensures |Elements(s)| == |s|
  {
    if s != [] {
      DistinctSize(s[..|s| - 1]);
    }
  }

  lemma PackingPermutes(routes: seq<nat>, groups: map<nat, seq<nat>>, experts: nat)
    requires Grouped(routes, |routes|, groups) && forall row :: 0 <= row < |routes| ==> routes[row] < experts
    ensures Permutes(PackedRows(groups, experts), |routes|)
  {
    var packed := PackedRows(groups, experts);
    PackedIsByExpert(routes, groups, experts);
    forall p | 0 <= p < |packed|
      ensures packed[p] < |routes|
    {
      ByExpertIsRouted(routes, experts, p);
    }
    forall row: nat | row < |routes|
      ensures row in packed
    {
      var p := RoutedIsByExpert(routes, experts, row);
    }
    ByExpertDistinct(routes, experts);
    DistinctSize(packed);
    assert Elements(packed) == UpTo(|routes|);
  }

  /** Adds a row to the group of its expert. */
  method AddRow(ghost routes: seq<nat>, groups: map<nat, seq<nat>>, row: nat, expert: nat) returns (more: map<nat, seq<nat>>)
    requires row < |routes| && routes[row] == expert && Grouped(routes, row, groups)
    ensures Grouped(routes, row + 1, more)
  {
    more := groups[expert := GroupOf(groups, expert) + [row]];
    var next := row + 1;
    forall other: nat
      ensures IsGroup(routes, other, next, more)
    {
      assert IsGroup(routes, other, row, groups);
    }
  }

  // ----- Gather, multiply, scatter

  /** Copies one row of activations behind what has been gathered already. */
  method GatherRow<T>(x: View<T>, row: nat, out: array<T>, base: nat, ghost before: seq<T>, ghost result: seq<T>)
    requires Fits(x) && |x.shape| == 2 && row < x.shape[0] && result == RowOf(x, row)
    requires Writing(out, before, result, 0) && |before| == base
    modifies out
    ensures Writing(out, before, result, |result|)
  {
    for i := 0 to x.shape[1]
      invariant Writing(out, before, result, i)
    {
      WriteElement(out, base + i, x.storage[At2(x, row, i)], before, result, i);
    }
  }

  /** The activations of the given rows, in that order. */
  ghost function RowsAt<T>(x: View<T>, rows: seq<nat>): (r: seq<seq<T>>)
    requires Fits(x) && |x.shape| == 2 && forall p :: 0 <= p < |rows| ==> rows[p] < x.shape[0]
    ensures |r| == |rows| && HaveLength(r, x.shape[1])
    ensures forall p :: 0 <= p < |rows| ==> r[p] == RowOf(x, rows[p])
  {
    seq(|rows|, p requires 0 <= p < |rows| => RowOf(x, rows[p]))
  }

  /** Packs the activations in the given order. */
  method Gather<T>(x: View<T>, packed: seq<nat>, out: array<T>)
    requires Fits(x) && |x.shape| == 2 && forall p :: 0 <= p < |packed| ==> packed[p] < x.shape[0]
    requires out.Length == Steps(|packed|, x.shape[1])
    modifies out
    ensures RowsWritten(out, RowsAt(x, packed), |packed|, x.shape[1])
  {
    ghost var result := RowsAt(x, packed);
    for p := 0 to |packed|
      invariant RowsWritten(out, result, p, x.shape[1])
    {
      ghost var before := out[..Steps(p, x.shape[1])];
      NextRow(out, result, p, x.shape[1]);
      GatherRow(x, packed[p], out, Steps(p, x.shape[1]), before, result[p]);
      RowDone(out, result, p, x.shape[1], before);
    }
  }

  /** The transposed view of one expert's weights: [inner, columns]. */
  function ExpertView<T>(weight: View<T>, expert: nat): View<T>
    requires |weight.shape| == |weight.strides| == 3
  {
    View(weight.storage, weight.offset + Steps(expert, weight.strides[0]),
         [weight.strides[2], weight.strides[1]], [weight.shape[2], weight.shape[1]])
  }

  ghost function ColumnOf<T>(b: View<T>, column: nat): (ws: seq<T>)
    requires Fits(b) && |b.shape| == 2 && column < b.shape[1]
    ensures |ws| == b.shape[0]
  {
    seq(b.shape[0], i requires 0 <= i < b.shape[0] => b.storage[At2(b, i, column)])
  }

  /** The columns of the transposed view are the expert's rows of weights. */
  lemma ExpertViewColumns<T>(weight: View<T>, expert: nat)
    requires Fits(weight) && |weight.shape| == 3 && expert < weight.shape[0]
    ensures Fits(ExpertView(weight, expert))
    ensures forall column: nat :: column < weight.shape[1] ==>
      ColumnOf(ExpertView(weight, expert), column) == WeightsOf(weight, expert, column)
  {
    var b := ExpertView(weight, expert);
    forall i: nat, j: nat | i < b.shape[0] && j < b.shape[1]
      ensures At2(b, i, j) == At3(weight, expert, j, i) < |b.storage|
    {
    }
    forall column: nat | column < weight.shape[1]
      ensures ColumnOf(b, column) == WeightsOf(weight, expert, column)
    {
    }
  }

  /** One row times a matrix. */
  ghost function RowTimes<T>(dot: (seq<T>, seq<T>) -> T, xs: seq<T>, b: View<T>): (r: seq<T>)
    requires Fits(b) && |b.shape| == 2
    ensures |r| == b.shape[1]
  {
    seq(b.shape[1], column requires 0 <= column < b.shape[1] => dot(xs, ColumnOf(b, column)))
  }

  /** One row of a group times the expert's matrix; the element product is the matrix kernel's. */
  method MultiplyRow<T>(dot: (seq<T>, seq<T>) -> T, xs: seq<T>, b: View<T>, out: array<T>, base: nat,
                        ghost before: seq<T>, ghost result: seq<T>)
    requires Fits(b) && |b.shape| == 2 && result == RowTimes(dot, xs, b)
    requires Writing(out, before, result, 0) && |before| == base
    modifies out
    ensures Writing(out, before, result, |result|)
  {
    for column := 0 to b.shape[1]
      invariant Writing(out, before, result, column)
    {
      var ws := Column(b, column);
      WriteElement(out, base + column, dot(xs, ws), before, result, column);
    }
  }

  method Column<T>(b: View<T>, column: nat) returns (ws: seq<T>)
    requires Fits(b) && |b.shape| == 2 && column < b.shape[1]
    ensures ws == ColumnOf(b, column)
  {
    ghost var result := ColumnOf(b, column);
    ws := [];
    for i := 0 to b.shape[0]
      invariant ws == result[..i]
    {
      PrefixSnoc(result, i);
      ws := ws + [b.storage[At2(b, i, column)]];
    }
    WholePrefix(result);
  }

  /** The rows of the packed result that a group's matrix product has to deliver. */
  ghost predicate GroupRows<T>(dot: (seq<T>, seq<T>) -> T, inputs: seq<seq<T>>, b: View<T>, products: seq<seq<T>>, start: nat, count: nat)
    requires Fits(b) && |b.shape| == 2
  {
    && start + count <= |inputs| == |products|
    && forall p :: start <= p < start + count ==> products[p] == RowTimes(dot, inputs[p], b)
  }

  /** The matrix product of one group: packed rows `start` to `start + count` into the same rows of the result. */
  method MultiplyGroup<T>(dot: (seq<T>, seq<T>) -> T, packedX: array<T>, inner: nat, b: View<T>, packedY: array<T>,
                          start: nat, count: nat, ghost inputs: seq<seq<T>>, ghost products: seq<seq<T>>)
    requires packedX != packedY && Fits(b) && |b.shape| == 2
    requires RowsWritten(packedX, inputs, |inputs|, inner) && RowsWritten(packedY, products, start, b.shape[1])
    requires GroupRows(dot, inputs, b, products, start, count)
    modifies packedY
    ensures RowsWritten(packedY, products, start + count, b.shape[1])
  {
    for r := 0 to count
      invariant RowsWritten(packedY, products, start + r, b.shape[1])
    {
      var p := start + r;
      RowsAreBlocks(packedX, inputs, inner, p);
      var xs := packedX[Steps(p, inner)..Steps(p, inner) + inner];
      ghost var before := packedY[..Steps(p, b.shape[1])];
      NextRow(packedY, products, p, b.shape[1]);
      MultiplyRow(dot, xs, b, packedY, Steps(p, b.shape[1]), before, products[p]);
      RowDone(packedY, products, p, b.shape[1], before);
    }
  }

  lemma {:induction false} BlockOfFlat<T>(rows: seq<seq<T>>, columns: nat, r: nat)
    requires HaveLength(rows, columns) && r < |rows|
    ensures |Flat(rows)| == Steps(|rows|, columns) && Steps(r, columns) + columns <= |Flat(rows)|
    ensures Block(Flat(rows), r, columns) == rows[r]
    decreases |rows|
  {
    var last, front := |rows| - 1, rows[..|rows| - 1];
    FlatLength(rows, columns);
    FlatLength(front, columns);
    if r < last {
      BlockOfFlat(front, columns, r);
      StepsMonotone(r + 1, last, columns);
      assert Flat(rows) == Flat(front) + rows[last];
      assert Block(Flat(rows), r, columns) == Block(Flat(front), r, columns);
    }
  }

  lemma RowsAreBlocks<T>(out: array<T>, rows: seq<seq<T>>, columns: nat, r: nat)
    requires RowsWritten(out, rows, |rows|, columns) && r < |rows|
    ensures Steps(r, columns) + columns <= out.Length
    ensures out[Steps(r, columns)..Steps(r, columns) + columns] == rows[r]
  {
    WholePrefix(rows);
    WholePrefix(out[..]);
    BlockOfFlat(rows, columns, r);
    assert out[..] == Flat(rows);
    assert Block(out[..], r, columns) == rows[r];
  }

  // ----- All groups

  /** What every packed row has to become: its activations through the expert of its row. */
  ghost function Products<T>(dot: (seq<T>, seq<T>) -> T, x: View<T>, weight: View<T>, routes: seq<nat>, packed: seq<nat>)
    : (r: seq<seq<T>>)
    requires Fits(x) && |x.shape| == 2 && Fits(weight) && |weight.shape| == 3 && |routes| == x.shape[0]
    requires forall row :: 0 <= row < |routes| ==> routes[row] < weight.shape[0]
    requires forall p :: 0 <= p < |packed| ==> packed[p] < x.shape[0]
    ensures |r| == |packed| && HaveLength(r, weight.shape[1])
    ensures forall p :: 0 <= p < |packed| ==> r[p] == Projected(dot, RowOf(x, packed[p]), weight, routes[packed[p]])
  {
    seq(|packed|, p requires 0 <= p < |packed| => Projected(dot, RowOf(x, packed[p]), weight, routes[packed[p]]))
  }

  lemma {:induction false} PackedPrefix(groups: map<nat, seq<nat>>, expert: nat, experts: nat)
    requires expert <= experts
    ensures PackedRows(groups, expert) <= PackedRows(groups, experts)
    decreases experts
  {
    if expert < experts {
      PackedPrefix(groups, expert, experts - 1);
    }
  }

  /** The packed rows from `start` up to `end` all go to one expert. */
  ghost predicate SameExpert(routes: seq<nat>, packed: seq<nat>, expert: nat, start: nat, end: nat) {
    && end <= |packed|
    && forall p :: start <= p < end ==> packed[p] < |routes| && routes[packed[p]] == expert
  }

  /** The rows of one group stand together in the packed order and share their expert. */
  lemma GroupStands(routes: seq<nat>, groups: map<nat, seq<nat>>, expert: nat, packed: seq<nat>)
    requires Grouped(routes, |routes|, groups) && expert in groups && PackedRows(groups, expert + 1) <= packed
    ensures |PackedRows(groups, expert + 1)| == |PackedRows(groups, expert)| + |groups[expert]|
    ensures SameExpert(routes, packed, expert, |PackedRows(groups, expert)|, |PackedRows(groups, expert + 1)|)
  {
    var before, group := PackedRows(groups, expert), groups[expert];
    assert IsGroup(routes, expert, |routes|, groups);
    assert PackedRows(groups, expert + 1) == before + group;
    forall p | |before| <= p < |before| + |group|
      ensures packed[p] < |routes| && routes[packed[p]] == expert
    {
      assert packed[p] == (before + group)[p] == group[p - |before|];
      RowsOfHas(routes, expert, |routes|, group[p - |before|]);
    }
  }

  /** A group's rows times its expert's matrix are the products the packed result has to hold. */
  lemma GroupProducts<T>(dot: (seq<T>, seq<T>) -> T, x: View<T>, weight: View<T>, routes: seq<nat>, packed: seq<nat>,
                         expert: nat, start: nat, count: nat)
    requires Fits(x) && |x.shape| == 2 && Fits(weight) && |weight.shape| == 3 && |routes| == x.shape[0]
    requires forall row :: 0 <= row < |routes| ==> routes[row] < weight.shape[0]
    requires forall p :: 0 <= p < |packed| ==> packed[p] < x.shape[0]
    requires expert < weight.shape[0] && Fits(ExpertView(weight, expert))
    requires SameExpert(routes, packed, expert, start, start + count)
    ensures GroupRows(dot, RowsAt(x, packed), ExpertView(weight, expert), Products(dot, x, weight, routes, packed), start, count)
  {
    var b, products := ExpertView(weight, expert), Products(dot, x, weight, routes, packed);
    ExpertViewColumns(weight, expert);
    forall p | start <= p < start + count
      ensures products[p] == RowTimes(dot, RowsAt(x, packed)[p], b)
    {
      assert routes[packed[p]] == expert;
      SameColumns(dot, RowOf(x, packed[p]), weight, expert);
    }
  }

  lemma SameColumns<T>(dot: (seq<T>, seq<T>) -> T, xs: seq<T>, weight: View<T>, expert: nat)
    requires Fits(weight) && |weight.shape| == 3 && expert < weight.shape[0] && Fits(ExpertView(weight, expert))
    ensures RowTimes(dot, xs, ExpertView(weight, expert)) == Projected(dot, xs, weight, expert)
  {
    ExpertViewColumns(weight, expert);
  }

  /** What the multiplication of the groups works on: grouped routes, and the packed order they give. */
  ghost predicate Packing<T>(x: View<T>, weight: View<T>, routes: seq<nat>, groups: map<nat, seq<nat>>, packed: seq<nat>) {
    && Fits(x) && |x.shape| == 2 && Fits(weight) && |weight.shape| == 3
    && |routes| == x.shape[0] && (forall row :: 0 <= row < |routes| ==> routes[row] < weight.shape[0])
    && Grouped(routes, |routes|, groups)
    && packed == PackedRows(groups, weight.shape[0]) && Permutes(packed, |routes|)
  }

  /** One expert's group takes the next packed rows, and their products are a matrix product with its weights. */
  ghost predicate Ready<T>(dot: (seq<T>, seq<T>) -> T, weight: View<T>, groups: map<nat, seq<nat>>, expert: nat,
                           inputs: seq<seq<T>>, products: seq<seq<T>>)
    requires |weight.shape| == |weight.strides| == 3
  {
    expert in groups ==>
      var start := |PackedRows(groups, expert)|;
      && start + |groups[expert]| == |PackedRows(groups, expert + 1)|
      && Fits(ExpertView(weight, expert))
      && GroupRows(dot, inputs, ExpertView(weight, expert), products, start, |groups[expert]|)
  }

  lemma GroupsAreReady<T>(dot: (seq<T>, seq<T>) -> T, x: View<T>, weight: View<T>, routes: seq<nat>,
                          groups: map<nat, seq<nat>>, packed: seq<nat>, expert: nat)
    requires Packing(x, weight, routes, groups, packed) && expert < weight.shape[0]
    ensures Ready(dot, weight, groups, expert, RowsAt(x, packed), Products(dot, x, weight, routes, packed))
  {
    if expert in groups {
      PackedPrefix(groups, expert + 1, weight.shape[0]);
      GroupStands(routes, groups, expert, packed);
      ExpertViewColumns(weight, expert);
      GroupProducts(dot, x, weight, routes, packed, expert, |PackedRows(groups, expert)|, |groups[expert]|);
    }
  }

  /** The products of all groups, in increasing order of expert. */
  method MultiplyGroups<T>(dot: (seq<T>, seq<T>) -> T, inner: nat, weight: View<T>, groups: map<nat, seq<nat>>,
                           packedX: array<T>, packedY: array<T>, ghost inputs: seq<seq<T>>, ghost products: seq<seq<T>>)
    requires |weight.shape| == |weight.strides| == 3
    requires forall expert: nat :: expert < weight.shape[0] ==> Ready(dot, weight, groups, expert, inputs, products)
    requires packedX != packedY && RowsWritten(packedX, inputs, |inputs|, inner)
    requires RowsWritten(packedY, products, 0, weight.shape[1])
    modifies packedY
    ensures RowsWritten(packedY, products, |PackedRows(groups, weight.shape[0])|, weight.shape[1])
  {
    var start := 0;
    for expert := 0 to weight.shape[0]
      invariant start == |PackedRows(groups, expert)|
      invariant RowsWritten(packedX, inputs, |inputs|, inner) && RowsWritten(packedY, products, start, weight.shape[1])
    {
      if expert in groups {
        assert Ready(dot, weight, groups, expert, inputs, products);
        MultiplyGroup(dot, packedX, inner, ExpertView(weight, expert), packedY, start, |groups[expert]|, inputs, products);
        start := start + |groups[expert]|;
      }
    }
  }

  // ----- Scatter

  /** Copies one packed result row to its place; nothing else changes. */
  method CopyRow<T>(values: array<T>, from: nat, out: array<T>, to: nat, columns: nat)
    requires values != out && from + columns <= values.Length && to + columns <= out.Length
    modifies out
    ensures out[to..to + columns] == values[from..from + columns]
    ensures out[..to] == old(out[..to]) && out[to + columns..] == old(out[to + columns..])
  {
    for i := 0 to columns
      invariant out[to..to + i] == values[from..from + i]
      invariant out[..to] == old(out[..to]) && out[to + i..] == old(out[to + i..])
    {
      ghost var done := out[to..to + i];
      out[to + i] := values[from + i];
      assert out[to..to + i + 1] == done + [values[from + i]];
      assert values[from..from + i + 1] == values[from..from + i] + [values[from + i]];
    }
  }

  /** Rows other than the one copied keep their contents. */
  lemma OtherBlocks<T>(before: seq<T>, after: seq<T>, row: nat, other: nat, rows: nat, columns: nat)
    requires |before| == |after| == Steps(rows, columns) && row < rows && other < rows && other != row
    requires Steps(row, columns) + columns <= |before|
    requires after[..Steps(row, columns)] == before[..Steps(row, columns)]
    requires after[Steps(row, columns) + columns..] == before[Steps(row, columns) + columns..]
    ensures Steps(other, columns) + columns <= |before|
    ensures Block(after, other, columns) == Block(before, other, columns)
  {
    StepsMonotone(other + 1, rows, columns);
    if other < row {
      StepsMonotone(other + 1, row, columns);
    } else {
      StepsMonotone(row + 1, other, columns);
    }
    KeptSlice(before, after, Steps(row, columns), Steps(row, columns) + columns,
              Steps(other, columns), Steps(other, columns) + columns);
  }

  lemma KeptSlice<T>(before: seq<T>, after: seq<T>, at: nat, end: nat, lo: nat, hi: nat)
    requires |before| == |after| && at <= end <= |before| && lo <= hi <= |before| && (hi <= at || end <= lo)
    requires after[..at] == before[..at] && after[end..] == before[end..]
    ensures after[lo..hi] == before[lo..hi]
  {
    if hi <= at {
      assert after[lo..hi] == after[..at][lo..hi];
      assert before[lo..hi] == before[..at][lo..hi];
    } else {
      forall i | lo <= i < hi
        ensures after[i] == before[i]
      {
        assert after[i] == after[end..][i - end] && before[i] == before[end..][i - end];
      }
    }
  }

  /** The rows named by the first `count` packed places hold their results. */
  ghost predicate Scattered<T>(out: seq<T>, packed: seq<nat>, products: seq<seq<T>>, count: nat, columns: nat) {
    && count <= |packed| == |products| && |out| == Steps(|packed|, columns)
    && forall q :: 0 <= q < count ==>
         packed[q] < |packed| && Steps(packed[q], columns) + columns <= |out| && Block(out, packed[q], columns) == products[q]
  }

  lemma ScatteredOneMore<T>(before: seq<T>, after: seq<T>, packed: seq<nat>, products: seq<seq<T>>, count: nat, columns: nat)
    requires Scattered(before, packed, products, count, columns) && count < |packed| && Permutes(packed, |packed|)
    requires |after| == |before| && Steps(packed[count], columns) + columns <= |after|
    requires Block(after, packed[count], columns) == products[count]
    requires after[..Steps(packed[count], columns)] == before[..Steps(packed[count], columns)]
    requires after[Steps(packed[count], columns) + columns..] == before[Steps(packed[count], columns) + columns..]
    ensures Scattered(after, packed, products, count + 1, columns)
  {
    forall q | 0 <= q < count
      ensures Steps(packed[q], columns) + columns <= |after| && Block(after, packed[q], columns) == products[q]
    {
      OtherBlocks(before, after, packed[count], packed[q], |packed|, columns);
    }
  }

  /** Copies every packed row to the row it came from. */
  method Scatter<T>(packed: seq<nat>, values: array<T>, out: array<T>, columns: nat, ghost products: seq<seq<T>>)
    requires values != out && Permutes(packed, |packed|) && |products| == |packed|
    requires RowsWritten(values, products, |products|, columns) && out.Length == Steps(|packed|, columns)
    modifies out
    ensures Scattered(out[..], packed, products, |packed|, columns)
  {
    for p := 0 to |packed|
      invariant Scattered(out[..], packed, products, p, columns)
    {
      RowsAreBlocks(values, products, columns, p);
      StepsMonotone(packed[p] + 1, |packed|, columns);
      ghost var before := out[..];
      CopyRow(values, Steps(p, columns), out, Steps(packed[p], columns), columns);
      CopiedBlock(before, out, Steps(packed[p], columns), columns);
      ScatteredOneMore(before, out[..], packed, products, p, columns);
    }
  }

  lemma CopiedBlock<T>(before: seq<T>, out: array<T>, to: nat, columns: nat)
    requires |before| == out.Length && to + columns <= out.Length
    requires out[..to] == before[..to] && out[to + columns..] == before[to + columns..]
    ensures out[..][..to] == before[..to] && out[..][to + columns..] == before[to + columns..]
    ensures out[..][to..to + columns] == out[to..to + columns]
  {
  }

  /** The scatter inverts the packing: the scattered products are the routed result, row by row. */
  lemma ScatterInvertsPacking<T>(dot: (seq<T>, seq<T>) -> T, x: View<T>, weight: View<T>, indexes: View<nat>, routes: seq<nat>,
                                 groups: map<nat, seq<nat>>, packed: seq<nat>, out: seq<T>)
    requires Usable(x, weight, indexes) && RoutesInRange(indexes, weight.shape[0])
    requires Packing(x, weight, routes, groups, packed)
    requires forall row: nat :: row < |routes| ==> routes[row] == Route(indexes, row)
    requires Scattered(out, packed, Products(dot, x, weight, routes, packed), |packed|, weight.shape[1])
    ensures out == Flat(Routed(dot, x, weight, indexes))
  {
    var columns, result := weight.shape[1], Routed(dot, x, weight, indexes);
    forall row: nat | row < |result|
      ensures Steps(row, columns) + columns <= |out| && Block(out, row, columns) == result[row]
    {
      assert row in packed;
      var q :| 0 <= q < |packed| && packed[q] == row;
      assert Products(dot, x, weight, routes, packed)[q] == result[row];
    }
    FlatOfBlocks(out, result, columns);
  }

  // ----- The whole operation

  /** Shapes and strides recorded when the operation was planned. */
  datatype Plan = Plan(shapes: seq<seq<nat>>, strides: seq<seq<nat>>)

  method NewPlan<T>(x: View<T>, weight: View<T>, indexes: View<nat>) returns (r: Result<Plan, ExpertError>)
    ensures r.Success? <==> Shaped(x, weight, indexes)
    ensures r.Success? ==> Planned(r.value, x, weight, indexes)
  {
    if !Shaped(x, weight, indexes) {
      return Failure(InvalidShapes);
    }
    return Success(Plan([x.shape, weight.shape, indexes.shape], [x.strides, weight.strides, indexes.strides]));
  }

  /** The inputs are those the plan was made for, up to storage and offset. */
  predicate Planned<T>(plan: Plan, x: View<T>, weight: View<T>, indexes: View<nat>) {
    && plan.shapes == [x.shape, weight.shape, indexes.shape]
    && plan.strides == [x.strides, weight.strides, indexes.strides]
  }

  ghost function RoutesOf(indexes: View<nat>): (routes: seq<nat>)
    requires Fits(indexes) && |indexes.shape| == 1
    ensures |routes| == indexes.shape[0] && forall row: nat :: row < |routes| ==> routes[row] == Route(indexes, row)
  {
    seq(indexes.shape[0], row requires 0 <= row < indexes.shape[0] => Route(indexes, row))
  }

  /** Groups the rows by expert, checking every route before anything is written. */
  method GroupRoutes(indexes: View<nat>, experts: nat, ghost routes: seq<nat>) returns (r: Result<map<nat, seq<nat>>, ExpertError>)
    requires Fits(indexes) && |indexes.shape| == 1 && |routes| == indexes.shape[0]
    requires forall row: nat :: row < |routes| ==> routes[row] == Route(indexes, row)
    ensures r.Success? <==> forall row: nat :: row < |routes| ==> routes[row] < experts
    ensures r.Success? ==> Grouped(routes, |routes|, r.value)
    ensures r.Failure? ==> r.error.RouteOutOfRange?
  {
    var groups: map<nat, seq<nat>> := map[];
    assert forall expert: nat :: IsGroup(routes, expert, 0, groups);
    for row := 0 to indexes.shape[0]
      invariant Grouped(routes, row, groups)
      invariant forall earlier: nat :: earlier < row ==> routes[earlier] < experts
    {
      var expert := Route(indexes, row);
      if expert >= experts {
        assert routes[row] >= experts;
        return Failure(RouteOutOfRange(row));
      }
      groups := AddRow(routes, groups, row, expert);
    }
    return Success(groups);
  }

  /** Packs, multiplies and scatters; the destination's shape is looked at when it is about to be written. */
  method GroupedInto<T>(dot: (seq<T>, seq<T>) -> T, x: View<T>, weight: View<T>, ghost indexes: View<nat>,
                        groups: map<nat, seq<nat>>, packedX: array<T>, packedY: array<T>,
                        output: array<T>, outputShape: (nat, nat), ghost routes: seq<nat>)
    returns (r: Result<(), ExpertError>)
    requires Usable(x, weight, indexes) && RoutesInRange(indexes, weight.shape[0])
    requires |routes| == x.shape[0] && forall row: nat :: row < |routes| ==> routes[row] == Route(indexes, row)
    requires Grouped(routes, |routes|, groups)
    requires packedX != packedY && packedX != output && packedY != output
    requires packedX.Length == Steps(x.shape[0], x.shape[1]) && packedY.Length == Steps(x.shape[0], weight.shape[1])
    requires output.Length == Steps(outputShape.0, outputShape.1)
    modifies packedX, packedY, output
    ensures r.Success? <==> outputShape == (x.shape[0], weight.shape[1])
    ensures r.Failure? ==> output[..] == old(output[..])
    ensures r.Success? ==> output[..] == Flat(Routed(dot, x, weight, indexes))
  {
    var packed := PackedRows(groups, weight.shape[0]);
    PackingPermutes(routes, groups, weight.shape[0]);
    ghost var inputs, products := RowsAt(x, packed), Products(dot, x, weight, routes, packed);
    forall expert: nat | expert < weight.shape[0]
      ensures Ready(dot, weight, groups, expert, inputs, products)
    {
      GroupsAreReady(dot, x, weight, routes, groups, packed, expert);
    }
    Gather(x, packed, packedX);
    MultiplyGroups(dot, x.shape[1], weight, groups, packedX, packedY, inputs, products);
    if outputShape != (x.shape[0], weight.shape[1]) {
      return Failure(DestinationShape);
    }
    Scatter(packed, packedY, output, weight.shape[1], products);
    ScatterInvertsPacking(dot, x, weight, indexes, routes, groups, packed, output[..]);
    return Success(());
  }

  /**
   * The grouped projection: the rows of the result, each through its own expert, exactly as the row-by-row form has
   * them. A route out of range is reported before the destination is written.
   */
  method ExecuteInto<T>(plan: Plan, dot: (seq<T>, seq<T>) -> T, x: View<T>, weight: View<T>, indexes: View<nat>,
                        packedX: array<T>, packedXShape: (nat, nat), packedY: array<T>, packedYShape: (nat, nat),
                        output: array<T>, outputShape: (nat, nat))
    returns (r: Result<(), ExpertError>)
    requires |plan.shapes| == 3 && (Planned(plan, x, weight, indexes) ==> Usable(x, weight, indexes))
    requires packedX != packedY && packedX != output && packedY != output
    requires packedX.Length == Steps(packedXShape.0, packedXShape.1)
    requires packedY.Length == Steps(packedYShape.0, packedYShape.1)
    requires output.Length == Steps(outputShape.0, outputShape.1)
    modifies packedX, packedY, output
    ensures r.Failure? ==> output[..] == old(output[..])
    ensures r.Success? <==>
      && Planned(plan, x, weight, indexes)
      && packedXShape == (x.shape[0], x.shape[1])
      && packedYShape == outputShape == (x.shape[0], weight.shape[1])
      && RoutesInRange(indexes, weight.shape[0])
    ensures r.Success? ==> output[..] == Flat(Routed(dot, x, weight, indexes))
  {
    if !Planned(plan, x, weight, indexes) {
      return Failure(MetadataDiffers);
    }
    if packedXShape != (x.shape[0], x.shape[1]) || packedYShape != (x.shape[0], weight.shape[1]) {
      return Failure(ScratchDiffers);
    }
    ghost var routes := RoutesOf(indexes);
    var groups := GroupRoutes(indexes, weight.shape[0], routes);
    if groups.Failure? {
      return Failure(groups.error);
    }
    r := GroupedInto(dot, x, weight, indexes, groups.value, packedX, packedY, output, outputShape, routes);
  }
}
