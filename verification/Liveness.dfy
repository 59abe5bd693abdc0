/** Validation of the lowered tables and the live interval of every storage-owning value. */
module Liveness {
  import opened Wrappers
  import opened Lowered
  import opened Aliases

  /** Half-open instruction range `[start, end)`. */
  datatype LiveInterval = LiveInterval(value: nat, start: nat, end: nat) {
    predicate Overlaps(other: LiveInterval) {
      start < other.end && other.start < end
    }

    predicate Contains(instruction: nat) {
      start <= instruction < end
    }
  }

  datatype LivenessTables = LivenessTables(aliases: seq<NormalizedAlias>, intervals: seq<Option<LiveInterval>>)

  predicate IsPowerOfTwo(n: nat) {
    n == 1 || (n > 0 && n % 2 == 0 && IsPowerOfTwo(n / 2))
  }

  // ----- What the tables mean

  ghost predicate KnownReferences(p: Program) {
    && (forall v :: 0 <= v < |p.values| && p.values[v].storage.Alias? ==> p.values[v].storage.source < |p.values|)
    && (forall i :: 0 <= i < |p.instructions| ==> KnownUses(p, p.instructions[i]))
    && (forall k :: 0 <= k < |p.outputs| ==> p.outputs[k] < |p.values|)
  }

  ghost predicate KnownUses(p: Program, instruction: Instruction) {
    var uses := instruction.ResourceUses();
    forall k :: 0 <= k < |uses| ==> uses[k].value < |p.values|
  }

  ghost predicate DenseInstructions(p: Program) {
    forall i :: 0 <= i < |p.instructions| ==> p.instructions[i].id == i
  }

  ghost predicate ValidProgram(p: Program) {
    DenseValues(p.values) && DenseInstructions(p) && KnownReferences(p)
  }

  ghost predicate Flattening(values: seq<ValueDecl>, aliases: seq<NormalizedAlias>) {
    |aliases| == |values| && forall v :: 0 <= v < |values| ==> Flattened(values, v, aliases[v])
  }

  datatype Kind = Reading | Writing | Touching {
    predicate Covers(access: ValueAccess) {
      match this
      case Reading => access.Reads()
      case Writing => access.Writes()
      case Touching => true
    }
  }

  /** Some use in the list accesses storage of `root` in the given way. */
  ghost predicate UsesRoot(kind: Kind, uses: seq<ValueUse>, aliases: seq<NormalizedAlias>, root: nat) {
    exists k :: 0 <= k < |uses| && kind.Covers(uses[k].access)
                && uses[k].value < |aliases| && aliases[uses[k].value].root == root
  }

  /** Instruction `i` accesses storage of `root`, directly or through a view. */
  ghost predicate At(kind: Kind, p: Program, aliases: seq<NormalizedAlias>, i: nat, root: nat) {
    i < |p.instructions| && UsesRoot(kind, p.instructions[i].ResourceUses(), aliases, root)
  }

  /** `first` is the least instruction below `n` with the given access to `root`, if there is one. */
  ghost predicate IsFirst(kind: Kind, p: Program, aliases: seq<NormalizedAlias>, root: nat, first: Option<nat>, n: nat) {
    && (first.Some? ==> first.value < n && At(kind, p, aliases, first.value, root))
    && (forall i: nat :: i < n && At(kind, p, aliases, i, root) ==> first.Some? && first.value <= i)
  }

  ghost predicate IsLastTouch(p: Program, aliases: seq<NormalizedAlias>, root: nat, last: Option<nat>, n: nat) {
    && (last.Some? ==> last.value < n && At(Touching, p, aliases, last.value, root))
    && (forall i: nat :: i < n && At(Touching, p, aliases, i, root) ==> last.Some? && i <= last.value)
  }

  ghost predicate OutputRoot(p: Program, aliases: seq<NormalizedAlias>, root: nat) {
    exists k :: 0 <= k < |p.outputs| && p.outputs[k] < |aliases| && aliases[p.outputs[k]].root == root
  }

  /** One past the last access; output roots stay live through the last instruction. */
  ghost predicate IsEnd(p: Program, aliases: seq<NormalizedAlias>, root: nat, end: nat) {
    && end <= |p.instructions|
    && (forall i: nat :: At(Touching, p, aliases, i, root) ==> i < end)
    && (OutputRoot(p, aliases, root) ==> end == |p.instructions|)
    && (!OutputRoot(p, aliases, root) ==> end > 0 && At(Touching, p, aliases, end - 1, root))
  }

  /** The interval recorded for value `v` is the one its uses call for. */
  ghost predicate CorrectInterval(p: Program, aliases: seq<NormalizedAlias>, v: nat, interval: Option<LiveInterval>)
    requires v < |p.values|
  {
    match p.values[v].storage
    case Alias(_, _) => interval == None
    case Planned(_, _, _, _) =>
      && interval.Some? && interval.value.value == v
      && IsFirst(Writing, p, aliases, v, Some(interval.value.start), |p.instructions|)
      && IsEnd(p, aliases, v, interval.value.end)
    case Fixed(_) =>
      && (interval == None <==> forall i: nat :: !At(Touching, p, aliases, i, v))
      && (interval.Some? ==>
            && interval.value.value == v
            && IsFirst(Touching, p, aliases, v, Some(interval.value.start), |p.instructions|)
            && IsEnd(p, aliases, v, interval.value.end))
  }

  /** A planned value is aligned to a power of two and written no later than it is first read. */
  ghost predicate DefinedBeforeRead(p: Program, aliases: seq<NormalizedAlias>, v: nat)
    requires v < |p.values|
  {
    p.values[v].storage.Planned? ==>
      && IsPowerOfTwo(p.values[v].storage.alignment)
      && exists first: nat :: IsFirst(Writing, p, aliases, v, Some(first), |p.instructions|)
                         && forall i: nat :: At(Reading, p, aliases, i, v) ==> first <= i
  }

  /** Exactly the programs liveness analysis accepts. */
  ghost predicate Analyzable(p: Program) {
    && ValidProgram(p)
    && SoundAliases(p.values)
    && exists aliases :: Flattening(p.values, aliases) && forall v :: 0 <= v < |p.values| ==> DefinedBeforeRead(p, aliases, v)
  }

  ghost predicate CorrectLiveness(p: Program, liveness: LivenessTables) {
    && ValidProgram(p)
    && Flattening(p.values, liveness.aliases)
    && |liveness.intervals| == |p.values|
    && forall v :: 0 <= v < |p.values| ==>
         CorrectInterval(p, liveness.aliases, v, liveness.intervals[v]) && DefinedBeforeRead(p, liveness.aliases, v)
  }

  lemma FlatteningOnce(values: seq<ValueDecl>, a: seq<NormalizedAlias>, b: seq<NormalizedAlias>)
    requires Flattening(values, a) && Flattening(values, b)
    ensures a == b
  {
    forall v | 0 <= v < |values|
      ensures a[v] == b[v]
    {
      FlattenedOnce(values, v, a[v], b[v]);
    }
  }

  /** Every access to a planned value falls inside its live interval. */
  lemma TouchesAreLive(p: Program, liveness: LivenessTables, v: nat, i: nat)
    requires CorrectLiveness(p, liveness)
    requires v < |p.values| && p.values[v].storage.Planned?
    requires At(Touching, p, liveness.aliases, i, v)
    ensures liveness.intervals[v].value.Contains(i)
  {
    var interval := liveness.intervals[v].value;
    assert CorrectInterval(p, liveness.aliases, v, liveness.intervals[v]);
    assert DefinedBeforeRead(p, liveness.aliases, v);
    var first: nat :| IsFirst(Writing, p, liveness.aliases, v, Some(first), |p.instructions|)
                 && forall j: nat :: At(Reading, p, liveness.aliases, j, v) ==> first <= j;
    assert first == interval.start;
    var uses := p.instructions[i].ResourceUses();
    var k :| 0 <= k < |uses| && uses[k].value < |liveness.aliases| && liveness.aliases[uses[k].value].root == v;
    if uses[k].access.Reads() {
      assert Reading.Covers(uses[k].access) && At(Reading, p, liveness.aliases, i, v);
    } else {
      assert Writing.Covers(uses[k].access) && At(Writing, p, liveness.aliases, i, v);
    }
  }

  // ----- The analysis

  method ValidateLoweredProgram(p: Program) returns (r: Option<PlannerError>)
    ensures r == None <==> ValidProgram(p)
  {
    r := ValidateDenseValues(p.values);
    if r.Some? {
      return;
    }
    for v := 0 to |p.values|
      invariant forall w :: 0 <= w < v && p.values[w].storage.Alias? ==> p.values[w].storage.source < |p.values|
    {
      var storage := p.values[v].storage;
      if storage.Alias? && storage.source >= |p.values| {
        return Some(UnknownValue(None, storage.source));
      }
    }
    for i := 0 to |p.instructions|
      invariant forall j :: 0 <= j < i ==> p.instructions[j].id == j && KnownUses(p, p.instructions[j])
    {
      if p.instructions[i].id != i {
        return Some(InstructionIdMismatch(i, p.instructions[i].id));
      }
      var uses := p.instructions[i].ResourceUses();
      for k := 0 to |uses|
        invariant forall l :: 0 <= l < k ==> uses[l].value < |p.values|
      {
        if uses[k].value >= |p.values| {
          assert !KnownUses(p, p.instructions[i]);
          return Some(UnknownValue(Some(i), uses[k].value));
        }
      }
    }
    for k := 0 to |p.outputs|
      invariant forall l :: 0 <= l < k ==> p.outputs[l] < |p.values|
    {
      if p.outputs[k] >= |p.values| {
        return Some(UnknownValue(None, p.outputs[k]));
      }
    }
  }

  /** First read, first write and last access per root, over the instructions recorded so far. */
  datatype Accesses = Accesses(firstRead: seq<Option<nat>>, firstWrite: seq<Option<nat>>, lastAccess: seq<Option<nat>>)

  ghost predicate AccessesUpTo(p: Program, aliases: seq<NormalizedAlias>, t: Accesses, n: nat) {
    && |t.firstRead| == |t.firstWrite| == |t.lastAccess| == |aliases|
    && forall root :: 0 <= root < |aliases| ==>
         && IsFirst(Reading, p, aliases, root, t.firstRead[root], n)
         && IsFirst(Writing, p, aliases, root, t.firstWrite[root], n)
         && IsLastTouch(p, aliases, root, t.lastAccess[root], n)
  }

  /** The later of a recorded access and access `i`. */
  function Latest(last: Option<nat>, i: nat): nat {
    if last.Some? && last.value > i then last.value else i
  }

  /** `get_or_insert` of index `i` when the instruction has the access. */
  function OrInsert(o: Option<nat>, i: nat, hit: bool): Option<nat> {
    if o == None && hit then Some(i) else o
  }

  ghost predicate Recorded(aliases: seq<NormalizedAlias>, before: Accesses, t: Accesses, i: nat, uses: seq<ValueUse>) {
    && |t.firstRead| == |t.firstWrite| == |t.lastAccess| == |aliases|
    && |before.firstRead| == |before.firstWrite| == |before.lastAccess| == |aliases|
    && forall root :: 0 <= root < |aliases| ==>
         && t.firstRead[root] == OrInsert(before.firstRead[root], i, UsesRoot(Reading, uses, aliases, root))
         && t.firstWrite[root] == OrInsert(before.firstWrite[root], i, UsesRoot(Writing, uses, aliases, root))
         && t.lastAccess[root] == (if UsesRoot(Touching, uses, aliases, root) then Some(i) else before.lastAccess[root])
         && (before.lastAccess[root].Some? ==> before.lastAccess[root].value <= i)
  }

  lemma UsesRootOneMore(kind: Kind, uses: seq<ValueUse>, aliases: seq<NormalizedAlias>, root: nat, n: nat)
    requires n < |uses|
    ensures UsesRoot(kind, uses[..n + 1], aliases, root) <==>
            UsesRoot(kind, uses[..n], aliases, root)
            || (kind.Covers(uses[n].access) && uses[n].value < |aliases| && aliases[uses[n].value].root == root)
  {
    assert forall k :: 0 <= k < n ==> uses[..n + 1][k] == uses[..n][k] == uses[k];
    assert uses[..n + 1][n] == uses[n];
    if UsesRoot(kind, uses[..n], aliases, root) {
      var k :| 0 <= k < n && kind.Covers(uses[..n][k].access) && uses[..n][k].value < |aliases| && aliases[uses[..n][k].value].root == root;
      assert kind.Covers(uses[..n + 1][k].access);
    }
  }

  ghost predicate RootsInRange(aliases: seq<NormalizedAlias>) {
    forall v :: 0 <= v < |aliases| ==> aliases[v].root < |aliases|
  }

  lemma NothingRecorded(p: Program, aliases: seq<NormalizedAlias>, before: Accesses, i: nat)
    requires AccessesUpTo(p, aliases, before, i)
    ensures Recorded(aliases, before, before, i, [])
  {
    assert forall root :: 0 <= root < |aliases| ==> IsLastTouch(p, aliases, root, before.lastAccess[root], i);
  }

  lemma RecordedOneMore(aliases: seq<NormalizedAlias>, before: Accesses, t: Accesses, i: nat, uses: seq<ValueUse>, k: nat)
    requires k < |uses| && uses[k].value < |aliases| && aliases[uses[k].value].root < |aliases|
    requires Recorded(aliases, before, t, i, uses[..k])
    ensures Recorded(aliases, before, Record(aliases, t, i, uses[k]), i, uses[..k + 1])
  {
    var after := Record(aliases, t, i, uses[k]);
    forall root | 0 <= root < |aliases|
      ensures after.firstRead[root] == OrInsert(before.firstRead[root], i, UsesRoot(Reading, uses[..k + 1], aliases, root))
      ensures after.firstWrite[root] == OrInsert(before.firstWrite[root], i, UsesRoot(Writing, uses[..k + 1], aliases, root))
      ensures after.lastAccess[root] == if UsesRoot(Touching, uses[..k + 1], aliases, root) then Some(i) else before.lastAccess[root]
    {
      UsesRootOneMore(Reading, uses, aliases, root, k);
      UsesRootOneMore(Writing, uses, aliases, root, k);
      UsesRootOneMore(Touching, uses, aliases, root, k);
    }
  }

  lemma RecordedCompletes(p: Program, aliases: seq<NormalizedAlias>, before: Accesses, t: Accesses, i: nat)
    requires i < |p.instructions|
    requires AccessesUpTo(p, aliases, before, i)
    requires Recorded(aliases, before, t, i, p.instructions[i].ResourceUses())
    ensures AccessesUpTo(p, aliases, t, i + 1)
  {
    forall root | 0 <= root < |aliases|
      ensures IsFirst(Reading, p, aliases, root, t.firstRead[root], i + 1)
      ensures IsFirst(Writing, p, aliases, root, t.firstWrite[root], i + 1)
      ensures IsLastTouch(p, aliases, root, t.lastAccess[root], i + 1)
    {
      assert IsFirst(Reading, p, aliases, root, before.firstRead[root], i);
      assert IsFirst(Writing, p, aliases, root, before.firstWrite[root], i);
      assert IsLastTouch(p, aliases, root, before.lastAccess[root], i);
    }
  }

  /** One call of the recording closure. */
  function Record(aliases: seq<NormalizedAlias>, t: Accesses, i: nat, use: ValueUse): Accesses
    requires |t.firstRead| == |t.firstWrite| == |t.lastAccess| == |aliases|
    requires use.value < |aliases| && aliases[use.value].root < |aliases|
  {
    var root := aliases[use.value].root;
    Accesses(
      if use.access.Reads() then t.firstRead[root := OrInsert(t.firstRead[root], i, true)] else t.firstRead,
      if use.access.Writes() then t.firstWrite[root := OrInsert(t.firstWrite[root], i, true)] else t.firstWrite,
      t.lastAccess[root := Some(Latest(t.lastAccess[root], i))])
  }

  method RecordInstruction(p: Program, aliases: seq<NormalizedAlias>, before: Accesses, i: nat) returns (t: Accesses)
    requires RootsInRange(aliases) && |aliases| == |p.values|
    requires i < |p.instructions| && KnownUses(p, p.instructions[i])
    requires AccessesUpTo(p, aliases, before, i)
    ensures AccessesUpTo(p, aliases, t, i + 1)
  {
    t := before;
    var uses := p.instructions[i].ResourceUses();
    NothingRecorded(p, aliases, before, i);
    for k := 0 to |uses|
      invariant Recorded(aliases, before, t, i, uses[..k])
    {
      RecordedOneMore(aliases, before, t, i, uses, k);
      t := Record(aliases, t, i, uses[k]);
    }
    assert uses[..|uses|] == uses;
    RecordedCompletes(p, aliases, before, t, i);
  }

  /** `last` after the outputs have been folded in: output roots end at the final instruction. */
  ghost predicate IsExtendedLast(p: Program, aliases: seq<NormalizedAlias>, root: nat, last: Option<nat>, outputs: seq<nat>) {
    if |p.instructions| > 0 && exists k :: 0 <= k < |outputs| && outputs[k] < |aliases| && aliases[outputs[k]].root == root
    then last == Some(|p.instructions| - 1)
    else IsLastTouch(p, aliases, root, last, |p.instructions|)
  }

  method ExtendOutputs(p: Program, aliases: seq<NormalizedAlias>, lastAccess: seq<Option<nat>>) returns (extended: seq<Option<nat>>)
    requires ValidProgram(p) && RootsInRange(aliases) && |lastAccess| == |aliases| == |p.values|
    requires forall root :: 0 <= root < |aliases| ==> IsLastTouch(p, aliases, root, lastAccess[root], |p.instructions|)
    ensures |extended| == |aliases|
    ensures forall root :: 0 <= root < |aliases| ==> IsExtendedLast(p, aliases, root, extended[root], p.outputs)
  {
    extended := lastAccess;
    for k := 0 to |p.outputs|
      invariant |extended| == |aliases|
      invariant forall root :: 0 <= root < |aliases| ==> IsExtendedLast(p, aliases, root, extended[root], p.outputs[..k])
    {
      var output := p.outputs[k];
      var target := aliases[output].root;
      ghost var before := extended;
      if |p.instructions| > 0 {
        var lastInstruction := |p.instructions| - 1;
        extended := extended[target := Some(Latest(extended[target], lastInstruction))];
      }
      forall root | 0 <= root < |aliases|
        ensures IsExtendedLast(p, aliases, root, extended[root], p.outputs[..k + 1])
      {
        assert IsExtendedLast(p, aliases, root, before[root], p.outputs[..k]);
        assert forall l :: 0 <= l < k ==> p.outputs[..k + 1][l] == p.outputs[..k][l];
        assert p.outputs[..k + 1][k] == output;
      }
    }
    assert p.outputs[..|p.outputs|] == p.outputs;
  }

  /** What a reported definition error says about planned value `v`. */
  ghost predicate DefinitionErrorIsReal(p: Program, aliases: seq<NormalizedAlias>, v: nat, e: PlannerError)
    requires v < |p.values|
  {
    match e
    case InvalidValueAlignment(w, alignment) => w == v && !IsPowerOfTwo(alignment)
    case UndefinedPlannedValue(w) => w == v && forall i: nat :: !At(Writing, p, aliases, i, v)
    case ReadBeforeDefinition(w, read, definition) =>
      && w == v && read < definition && At(Reading, p, aliases, read, v)
      && IsFirst(Writing, p, aliases, v, Some(definition), |p.instructions|)
    case _ => false
  }

  /** The start of a planned value's interval: its first write, which no read precedes. */
  method PlannedStart(p: Program, aliases: seq<NormalizedAlias>, read: Option<nat>, write: Option<nat>, v: nat)
    returns (r: Result<nat, PlannerError>)
    requires v < |p.values| && p.values[v].id == v && p.values[v].storage.Planned?
    requires IsFirst(Reading, p, aliases, v, read, |p.instructions|)
    requires IsFirst(Writing, p, aliases, v, write, |p.instructions|)
    ensures r.Success? <==> DefinedBeforeRead(p, aliases, v)
    ensures r.Success? ==> Some(r.value) == write
    ensures r.Failure? ==> DefinitionErrorIsReal(p, aliases, v, r.error)
  {
    var value := p.values[v];
    var alignment := value.storage.alignment;
    if alignment == 0 || !IsPowerOfTwo(alignment) {
      return Failure(InvalidValueAlignment(value.id, alignment));
    }
    if write == None {
      assert forall first: nat :: !IsFirst(Writing, p, aliases, v, Some(first), |p.instructions|);
      return Failure(UndefinedPlannedValue(value.id));
    }
    if read.Some? && read.value < write.value {
      return Failure(ReadBeforeDefinition(value.id, read.value, write.value));
    }
    return Success(write.value);
  }

  function FixedStart(read: Option<nat>, write: Option<nat>): Option<nat> {
    match (read, write)
    case (Some(r), Some(w)) => Some(if r <= w then r else w)
    case (Some(r), None) => Some(r)
    case (None, Some(w)) => Some(w)
    case (None, None) => None
  }

  lemma EndIsExtendedLast(p: Program, aliases: seq<NormalizedAlias>, v: nat, start: nat, last: Option<nat>)
    requires IsExtendedLast(p, aliases, v, last, p.outputs)
    requires At(Touching, p, aliases, start, v) && |aliases| == |p.values| && ValidProgram(p)
    ensures last.Some? && IsEnd(p, aliases, v, last.value + 1)
  {
    assert start < |p.instructions|;
  }

  /** The interval of one value, from the recorded accesses. */
  method IntervalOf(p: Program, aliases: seq<NormalizedAlias>, t: Accesses, lastAccess: seq<Option<nat>>, v: nat)
    returns (r: Result<Option<LiveInterval>, PlannerError>)
    requires v < |p.values| == |aliases| == |lastAccess| && ValidProgram(p)
    requires AccessesUpTo(p, aliases, t, |p.instructions|)
    requires IsExtendedLast(p, aliases, v, lastAccess[v], p.outputs)
    ensures r.Success? <==> DefinedBeforeRead(p, aliases, v)
    ensures r.Success? ==> CorrectInterval(p, aliases, v, r.value)
    ensures r.Failure? ==> DefinitionErrorIsReal(p, aliases, v, r.error)
  {
    var storage := p.values[v].storage;
    if storage.Alias? {
      return Success(None);
    }
    var read, write := t.firstRead[v], t.firstWrite[v];
    assert IsFirst(Reading, p, aliases, v, read, |p.instructions|) && IsFirst(Writing, p, aliases, v, write, |p.instructions|);
    TouchIsReadOrWrite(p, aliases, v);
    var start := FixedStart(read, write);
    if storage.Planned? {
      var definition :- PlannedStart(p, aliases, read, write, v);
      start := Some(definition);
    }
    if start == None {
      return Success(None);
    }
    EndIsExtendedLast(p, aliases, v, start.value, lastAccess[v]);
    return Success(Some(LiveInterval(p.values[v].id, start.value, lastAccess[v].value + 1)));
  }

  lemma TouchIsReadOrWrite(p: Program, aliases: seq<NormalizedAlias>, root: nat)
    ensures forall i: nat :: At(Touching, p, aliases, i, root) <==> At(Reading, p, aliases, i, root) || At(Writing, p, aliases, i, root)
  {
    forall i: nat
      ensures At(Touching, p, aliases, i, root) <==> At(Reading, p, aliases, i, root) || At(Writing, p, aliases, i, root)
    {
      if i < |p.instructions| {
        var uses := p.instructions[i].ResourceUses();
        assert forall k :: 0 <= k < |uses| ==> Touching.Covers(uses[k].access)
                                               && (Reading.Covers(uses[k].access) || Writing.Covers(uses[k].access));
      }
    }
  }

  method AnalyzeLiveness(p: Program) returns (r: Result<LivenessTables, PlannerError>)
    ensures r.Success? <==> Analyzable(p)
    ensures r.Success? ==> CorrectLiveness(p, r.value)
  {
    var invalid := ValidateLoweredProgram(p);
    if invalid.Some? {
      return Failure(invalid.value);
    }
    var aliases :- NormalizeAliases(p.values);
    assert RootsInRange(aliases) by {
      assert forall v :: 0 <= v < |aliases| ==> Flattened(p.values, v, aliases[v]);
    }
    var none: seq<Option<nat>> := seq(|p.values|, _ => None);
    var t := Accesses(none, none, none);
    for i := 0 to |p.instructions|
      invariant AccessesUpTo(p, aliases, t, i)
    {
      t := RecordInstruction(p, aliases, t, i);
    }
    var lastAccess := ExtendOutputs(p, aliases, t.lastAccess);
    var intervals: seq<Option<LiveInterval>> := [];
    for v := 0 to |p.values|
      invariant |intervals| == v
      invariant forall w :: 0 <= w < v ==>
        CorrectInterval(p, aliases, w, intervals[w]) && DefinedBeforeRead(p, aliases, w)
    {
      var interval := IntervalOf(p, aliases, t, lastAccess, v);
      if interval.Failure? {
        if Analyzable(p) {
          var other :| Flattening(p.values, other) && forall w :: 0 <= w < |p.values| ==> DefinedBeforeRead(p, other, w);
          FlatteningOnce(p.values, aliases, other);
        }
        return Failure(interval.error);
      }
      intervals := intervals + [interval.value];
    }
    assert Flattening(p.values, aliases);
    return Success(LivenessTables(aliases, intervals));
  }
}
