/** Flattening alias chains to their storage-owning roots. */
module Aliases {
  import opened Wrappers
  import opened Lowered

  /** `root` owns the storage; `byteOffset` is the sum of all hop offsets. */
  datatype NormalizedAlias = NormalizedAlias(root: nat, byteOffset: usize)

  // ----- What the tables mean

  ghost predicate DenseValues(values: seq<ValueDecl>) {
    forall i :: 0 <= i < |values| ==> values[i].id == i
  }

  /** The value's own hop names an existing source and stays inside it. */
  ghost predicate HopInBounds(values: seq<ValueDecl>, v: nat)
    requires v < |values|
  {
    match values[v].storage
    case Alias(source, byteOffset) =>
      source < |values| && byteOffset + values[v].bytes <= values[source].bytes
    case _ => true
  }

  /** The value reached from `v` after exactly `n` alias hops, if there is one. */
  ghost function Hops(values: seq<ValueDecl>, v: nat, n: nat): Option<nat>
    decreases n
  {
    if v >= |values| then None
    else if n == 0 then Some(v)
    else if values[v].storage.Alias? then Hops(values, values[v].storage.source, n - 1)
    else None
  }

  ghost predicate OnCycle(values: seq<ValueDecl>, v: nat) {
    exists n: nat :: n > 0 && Hops(values, v, n) == Some(v)
  }

  /** The chain from `v` ends after `n` hops at `a.root`, the hop offsets adding up to `a.byteOffset`. */
  ghost predicate Resolves(values: seq<ValueDecl>, v: nat, n: nat, a: NormalizedAlias)
    decreases n
  {
    v < |values| &&
    match values[v].storage
    case Alias(source, byteOffset) =>
      n > 0 && byteOffset <= a.byteOffset
      && Resolves(values, source, n - 1, NormalizedAlias(a.root, a.byteOffset - byteOffset))
    case _ => n == 0 && a == NormalizedAlias(v, 0)
  }

  /** `a` is the flattened form of `v`, and the view it describes fits inside the root. */
  ghost predicate Flattened(values: seq<ValueDecl>, v: nat, a: NormalizedAlias) {
    && v < |values|
    && (exists n: nat :: Resolves(values, v, n, a))
    && a.root < |values|
    && !values[a.root].storage.Alias?
    && a.byteOffset + values[v].bytes <= values[a.root].bytes
  }

  ghost predicate SoundAliases(values: seq<ValueDecl>) {
    forall v :: 0 <= v < |values| ==> HopInBounds(values, v) && !OnCycle(values, v)
  }

  // ----- Facts about chains

  lemma {:induction false} ResolvesOnce(values: seq<ValueDecl>, v: nat, m: nat, a: NormalizedAlias, n: nat, b: NormalizedAlias)
    requires Resolves(values, v, m, a) && Resolves(values, v, n, b)
    ensures m == n && a == b
    decreases m
  {
    match values[v].storage
    case Alias(source, byteOffset) =>
      ResolvesOnce(values, source, m - 1, NormalizedAlias(a.root, a.byteOffset - byteOffset),
                   n - 1, NormalizedAlias(b.root, b.byteOffset - byteOffset));
    case _ =>
  }

  lemma {:induction false} ResolvesAlong(values: seq<ValueDecl>, v: nat, m: nat, a: NormalizedAlias, n: nat, w: nat)
    returns (b: NormalizedAlias)
    requires Resolves(values, v, m, a) && Hops(values, v, n) == Some(w)
    ensures n <= m && Resolves(values, w, m - n, b)
    decreases n
  {
    if n == 0 {
      b := a;
    } else {
      var source, byteOffset := values[v].storage.source, values[v].storage.byteOffset;
      b := ResolvesAlong(values, source, m - 1, NormalizedAlias(a.root, a.byteOffset - byteOffset), n - 1, w);
    }
  }

  /** A chain that ends at a root never returns to its start. */
  lemma ResolvingIsAcyclic(values: seq<ValueDecl>, v: nat, a: NormalizedAlias)
    requires exists m: nat :: Resolves(values, v, m, a)
    ensures !OnCycle(values, v)
  {
    var m: nat :| Resolves(values, v, m, a);
    forall n: nat | n > 0
      ensures Hops(values, v, n) != Some(v)
    {
      if Hops(values, v, n) == Some(v) {
        var b := ResolvesAlong(values, v, m, a, n, v);
        ResolvesOnce(values, v, m, a, m - n, b);
      }
    }
  }

  /** Flattening is a function of the table: no value has two flattened forms. */
  lemma FlattenedOnce(values: seq<ValueDecl>, v: nat, a: NormalizedAlias, b: NormalizedAlias)
    requires Flattened(values, v, a) && Flattened(values, v, b)
    ensures a == b
  {
    var m: nat :| Resolves(values, v, m, a);
    var n: nat :| Resolves(values, v, n, b);
    ResolvesOnce(values, v, m, a, n, b);
  }

  // ----- The walk

  datatype Mark = Unseen | OnPath | Done

  /** The values on the current path, in order: each one's source is the next, and `cursor` follows the last. */
  ghost predicate IsPath(values: seq<ValueDecl>, marks: seq<Mark>, path: seq<nat>, cursor: nat)
    requires |marks| == |values|
  {
    && (forall i :: 0 <= i < |path| ==> path[i] < |values| && values[path[i]].storage.Alias? && HopInBounds(values, path[i]))
    && (forall j :: 0 < j <= |path| ==> values[path[j - 1]].storage.source == (path + [cursor])[j])
    && (forall i, j :: 0 <= i < j < |path| ==> path[i] != path[j])
    && (forall v :: 0 <= v < |values| ==> (marks[v] == OnPath <==> v in path))
  }

  ghost predicate DoneAreFlattened(values: seq<ValueDecl>, marks: seq<Mark>, normalized: seq<Option<NormalizedAlias>>)
    requires |marks| == |normalized| == |values|
  {
    forall v :: 0 <= v < |values| && marks[v] == Done ==>
      && normalized[v].Some?
      && Flattened(values, v, normalized[v].value)
      && HopInBounds(values, v)
  }

  /** A later element of the path is reached from an earlier one by hopping. */
  lemma {:induction false} PathHops(values: seq<ValueDecl>, marks: seq<Mark>, path: seq<nat>, cursor: nat, i: nat, n: nat)
    requires |marks| == |values| && IsPath(values, marks, path, cursor)
    requires i + n <= |path| && i < |path|
    requires cursor < |values|
    ensures Hops(values, path[i], n) == Some((path + [cursor])[i + n])
    decreases n
  {
    if n > 0 {
      var next := (path + [cursor])[i + 1];
      assert values[path[i + 1 - 1]].storage.source == next;
      if i + 1 < |path| {
        PathHops(values, marks, path, cursor, i + 1, n - 1);
      } else {
        assert Hops(values, cursor, 0) == Some(cursor);
      }
    }
  }

  lemma CycleFound(values: seq<ValueDecl>, marks: seq<Mark>, path: seq<nat>, cursor: nat)
    requires |marks| == |values| && IsPath(values, marks, path, cursor)
    requires cursor < |values| && marks[cursor] == OnPath
    ensures OnCycle(values, cursor)
  {
    var i: nat :| i < |path| && path[i] == cursor;
    PathHops(values, marks, path, cursor, i, |path| - i);
  }

  /** An alias one hop above a flattened value is flattened, and its offset sum cannot overflow. */
  lemma FlattenOneMore(values: seq<ValueDecl>, v: nat, parent: NormalizedAlias)
    requires v < |values| && values[v].storage.Alias? && HopInBounds(values, v)
    requires Flattened(values, values[v].storage.source, parent)
    ensures parent.byteOffset + values[v].storage.byteOffset <= USIZE_MAX
    ensures Flattened(values, v, NormalizedAlias(parent.root, parent.byteOffset + values[v].storage.byteOffset))
  {
    var source, byteOffset := values[v].storage.source, values[v].storage.byteOffset;
    var n: nat :| Resolves(values, source, n, parent);
    var a := NormalizedAlias(parent.root, parent.byteOffset + byteOffset);
    assert NormalizedAlias(a.root, a.byteOffset - byteOffset) == parent;
    assert Resolves(values, v, n + 1, a);
  }

  method ValidateDenseValues(values: seq<ValueDecl>) returns (r: Option<PlannerError>)
    ensures r == None <==> DenseValues(values)
    ensures r.Some? ==> exists i :: 0 <= i < |values| && values[i].id != i && r.value == ValueIdMismatch(i, values[i].id)
                                    && DenseValues(values[..i])
  {
    for index := 0 to |values|
      invariant DenseValues(values[..index])
    {
      if values[index].id != index {
        return Some(ValueIdMismatch(index, values[index].id));
      }
    }
    return None;
  }

  /** What a reported alias error says about the table. */
  ghost predicate AliasErrorIsReal(values: seq<ValueDecl>, e: PlannerError) {
    match e
    case ValueIdMismatch(index, actual) => index < |values| && values[index].id == actual != index
    case AliasCycle(v) => v < |values| && OnCycle(values, v)
    case UnknownValue(instruction, source) =>
      && instruction == None
      && source >= |values|
      && exists v :: 0 <= v < |values| && values[v].storage.Alias? && values[v].storage.source == source
    case ByteSizeOverflow(value) =>
      && value.Some? && value.value < |values|
      && var decl := values[value.value];
      && decl.storage.Alias?
      && decl.storage.byteOffset + decl.bytes > USIZE_MAX
    case AliasOutOfBounds(v, source, end, capacity) =>
      && v < |values| && values[v].storage.Alias?
      && values[v].storage.source == source < |values|
      && end == values[v].storage.byteOffset + values[v].bytes
      && capacity == values[source].bytes < end
    case _ => false
  }

  /** The state between two steps of one walk from `start`. */
  ghost predicate Walking(values: seq<ValueDecl>, start: nat, marks: seq<Mark>,
                          normalized: seq<Option<NormalizedAlias>>, path: seq<nat>, cursor: nat) {
    && |marks| == |normalized| == |values|
    && start < |values| && cursor < |values|
    && (if path == [] then cursor == start else path[0] == start)
    && IsPath(values, marks, path, cursor)
    && (forall v :: 0 <= v < start ==> marks[v] == Done)
    && DoneAreFlattened(values, marks, normalized)
  }

  lemma PushKeepsWalking(values: seq<ValueDecl>, start: nat, marks: seq<Mark>,
                         normalized: seq<Option<NormalizedAlias>>, path: seq<nat>, cursor: nat)
    requires Walking(values, start, marks, normalized, path, cursor)
    requires marks[cursor] == Unseen && values[cursor].storage.Alias? && HopInBounds(values, cursor)
    ensures Walking(values, start, marks[cursor := OnPath], normalized, path + [cursor], values[cursor].storage.source)
  {
    var longer, next := path + [cursor], values[cursor].storage.source;
    forall j | 0 < j <= |longer|
      ensures values[longer[j - 1]].storage.source == (longer + [next])[j]
    {
      if j < |longer| {
        assert longer[j - 1] == path[j - 1] && (longer + [next])[j] == (path + [cursor])[j];
      }
    }
  }

  lemma RootKeepsWalking(values: seq<ValueDecl>, start: nat, marks: seq<Mark>,
                         normalized: seq<Option<NormalizedAlias>>, path: seq<nat>, cursor: nat)
    requires Walking(values, start, marks, normalized, path, cursor)
    requires marks[cursor] == Unseen && !values[cursor].storage.Alias?
    ensures Walking(values, start, marks[cursor := Done], normalized[cursor := Some(NormalizedAlias(cursor, 0))], path, cursor)
  {
    assert Resolves(values, cursor, 0, NormalizedAlias(cursor, 0));
  }

  lemma PopKeepsWalking(values: seq<ValueDecl>, start: nat, marks: seq<Mark>,
                        normalized: seq<Option<NormalizedAlias>>, path: seq<nat>, cursor: nat)
    requires Walking(values, start, marks, normalized, path, cursor)
    requires path != [] && marks[cursor] == Done
    ensures var index := path[|path| - 1];
            var decl := values[index];
            && decl.storage.Alias? && decl.storage.source == cursor
            && var parent := normalized[cursor].value;
            && parent.byteOffset + decl.storage.byteOffset <= USIZE_MAX
            && Walking(values, start, marks[index := Done],
                       normalized[index := Some(NormalizedAlias(parent.root, parent.byteOffset + decl.storage.byteOffset))],
                       path[..|path| - 1], index)
  {
    var index, shorter := path[|path| - 1], path[..|path| - 1];
    assert values[path[|path| - 1]].storage.source == (path + [cursor])[|path|];
    FlattenOneMore(values, index, normalized[cursor].value);
    forall j | 0 < j <= |shorter|
      ensures values[shorter[j - 1]].storage.source == (shorter + [index])[j]
    {
      assert shorter[j - 1] == path[j - 1] && (shorter + [index])[j] == (path + [cursor])[j];
    }
    assert forall v :: 0 <= v < |values| && v != index ==> (v in path <==> v in shorter);
  }

  /** First half of a walk: follows hops from `start` until a value that is done, marking the path. */
  method Climb(values: seq<ValueDecl>, start: nat, marks0: seq<Mark>, normalized0: seq<Option<NormalizedAlias>>)
    returns (failure: Option<PlannerError>, marks: seq<Mark>, normalized: seq<Option<NormalizedAlias>>, path: seq<nat>, cursor: nat)
    requires DenseValues(values)
    requires Walking(values, start, marks0, normalized0, [], start)
    ensures failure.Some? ==> AliasErrorIsReal(values, failure.value) && !SoundAliases(values)
    ensures failure == None ==> Walking(values, start, marks, normalized, path, cursor) && marks[cursor] == Done
  {
    marks, normalized, path, cursor := marks0, normalized0, [], start;
    ghost var unseen := set v | 0 <= v < |values| && marks[v] == Unseen;
    while true
      invariant Walking(values, start, marks, normalized, path, cursor)
      invariant unseen == set v | 0 <= v < |values| && marks[v] == Unseen
      decreases unseen
    {
      if marks[cursor] == Done {
        return None, marks, normalized, path, cursor;
      }
      var value := values[cursor];
      if marks[cursor] == OnPath {
        CycleFound(values, marks, path, cursor);
        return Some(AliasCycle(value.id)), marks, normalized, path, cursor;
      }
      unseen := unseen - {cursor};
      if !value.storage.Alias? {
        RootKeepsWalking(values, start, marks, normalized, path, cursor);
        normalized := normalized[cursor := Some(NormalizedAlias(value.id, 0))];
        marks := marks[cursor := Done];
        return None, marks, normalized, path, cursor;
      }
      var source := value.storage.source;
      if source >= |values| {
        assert !HopInBounds(values, cursor);
        return Some(UnknownValue(None, source)), marks, normalized, path, cursor;
      }
      var end := CheckedAdd(value.storage.byteOffset, value.bytes);
      if end == None {
        assert !HopInBounds(values, cursor);
        return Some(ByteSizeOverflow(Some(value.id))), marks, normalized, path, cursor;
      }
      if end.value > values[source].bytes {
        assert !HopInBounds(values, cursor);
        return Some(AliasOutOfBounds(value.id, source, end.value, values[source].bytes)), marks, normalized, path, cursor;
      }
      PushKeepsWalking(values, start, marks, normalized, path, cursor);
      marks, path, cursor := marks[cursor := OnPath], path + [cursor], source;
    }
  }

  /** Second half of a walk: flattens the path from its far end back to `start`. */
  method Unwind(values: seq<ValueDecl>, start: nat, marks0: seq<Mark>, normalized0: seq<Option<NormalizedAlias>>,
                path0: seq<nat>, cursor0: nat)
    returns (marks: seq<Mark>, normalized: seq<Option<NormalizedAlias>>)
    requires DenseValues(values)
    requires Walking(values, start, marks0, normalized0, path0, cursor0) && marks0[cursor0] == Done
    ensures Walking(values, start, marks, normalized, [], start) && marks[start] == Done
  {
    var path, cursor: nat := path0, cursor0;
    marks, normalized := marks0, normalized0;
    while path != []
      invariant Walking(values, start, marks, normalized, path, cursor)
      invariant marks[cursor] == Done
    {
      PopKeepsWalking(values, start, marks, normalized, path, cursor);
      var index := path[|path| - 1];
      var parent := normalized[values[index].storage.source].value;
      // The overflow exit of this sum is never taken, so its value can be used outright.
      var sum := CheckedAdd(parent.byteOffset, values[index].storage.byteOffset).value;
      normalized := normalized[index := Some(NormalizedAlias(parent.root, sum))];
      marks, path, cursor := marks[index := Done], path[..|path| - 1], index;
    }
  }

  method NormalizeAliases(values: seq<ValueDecl>) returns (r: Result<seq<NormalizedAlias>, PlannerError>)
    ensures r.Success? <==> DenseValues(values) && SoundAliases(values)
    ensures r.Success? ==> |r.value| == |values| && forall v :: 0 <= v < |values| ==> Flattened(values, v, r.value[v])
    ensures r.Failure? ==> AliasErrorIsReal(values, r.error)
  {
    var invalid := ValidateDenseValues(values);
    if invalid.Some? {
      return Failure(invalid.value);
    }
    var n := |values|;
    var marks := seq(n, _ => Unseen);
    var normalized: seq<Option<NormalizedAlias>> := seq(n, _ => None);
    for start := 0 to n
      invariant |marks| == |normalized| == n
      invariant forall v :: 0 <= v < n ==> marks[v] != OnPath
      invariant forall v :: 0 <= v < start ==> marks[v] == Done
      invariant DoneAreFlattened(values, marks, normalized)
    {
      if marks[start] != Done {
        var failure, path, cursor;
        failure, marks, normalized, path, cursor := Climb(values, start, marks, normalized);
        if failure.Some? {
          return Failure(failure.value);
        }
        marks, normalized := Unwind(values, start, marks, normalized, path, cursor);
      }
    }
    forall v | 0 <= v < n
      ensures HopInBounds(values, v) && !OnCycle(values, v)
    {
      ResolvingIsAcyclic(values, v, normalized[v].value);
    }
    return Success(seq(n, v requires 0 <= v < n => normalized[v].value));
  }
}
