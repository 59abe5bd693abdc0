/**
 * A program that planning refuses although it is acceptable. Its requests are those of the packing run with a value
 * of no bytes, so the conflict test fails whatever plan is asked for.
 */
module EmptyValuePlan {
  import opened Wrappers
  import opened Lowered
  import opened Aliases
  import opened Liveness
  import opened Sorting
  import opened Packing
  import opened Placement
  import opened ReuseEdges
  import opened Planner
  import opened EmptyValues

  function Value(id: nat, bytes: usize): ValueDecl {
    ValueDecl(id, bytes, Planned(Workspace, 16, 0, WorkspaceOwned))
  }

  function Step(id: nat, inputs: seq<nat>, outputs: seq<nat>): Instruction {
    Instruction(id, seq(|inputs|, k requires 0 <= k < |inputs| => ValueUse(inputs[k], Read)), outputs, [], [], [], [])
  }

  const VALUES := [Value(0, 16), Value(1, 16), Value(2, 0), Value(3, 32)]

  /** The first value is read while the empty one is written; the empty one while the wide one is. */
  const PROGRAM := Program(VALUES, [Step(0, [], [0, 1]), Step(1, [], []), Step(2, [0], [2]), Step(3, [], []), Step(4, [2], [3])], [])

  const ROOTS := [NormalizedAlias(0, 0), NormalizedAlias(1, 0), NormalizedAlias(2, 0), NormalizedAlias(3, 0)]

  const TABLES := LivenessTables(ROOTS, [Some(FIRST.interval), Some(SECOND.interval), Some(EMPTY.interval), Some(WIDE.interval)])

  // ----- The uses

  /** Who is written and read where. */
  predicate Hits(kind: Kind, i: nat, root: nat) {
    || (!kind.Reading? && ((i == 0 && root <= 1) || (i == 2 && root == 2) || (i == 4 && root == 3)))
    || (!kind.Writing? && ((i == 2 && root == 0) || (i == 4 && root == 2)))
  }

  lemma UsesOf(i: nat)
    requires i < 5
    ensures PROGRAM.instructions[i].ResourceUses()
            == match i
               case 0 => [ValueUse(0, Write), ValueUse(1, Write)]
               case 2 => [ValueUse(0, Read), ValueUse(2, Write)]
               case 4 => [ValueUse(2, Read), ValueUse(3, Write)]
               case _ => []
  {
  }

  lemma PairUses(kind: Kind, a: ValueUse, b: ValueUse, root: nat)
    requires a.value < 4 && b.value < 4
    ensures UsesRoot(kind, [a, b], ROOTS, root) <==> (kind.Covers(a.access) && a.value == root) || (kind.Covers(b.access) && b.value == root)
  {
    var uses := [a, b];
    assert forall v :: 0 <= v < 4 ==> ROOTS[v].root == v;
    if kind.Covers(a.access) && a.value == root {
      assert kind.Covers(uses[0].access);
    }
    if kind.Covers(b.access) && b.value == root {
      assert kind.Covers(uses[1].access);
    }
  }

  lemma AccessIs(kind: Kind, i: nat, root: nat)
    ensures At(kind, PROGRAM, ROOTS, i, root) <==> Hits(kind, i, root)
  {
    if i < 5 {
      UsesOf(i);
      if i == 0 {
        PairUses(kind, ValueUse(0, Write), ValueUse(1, Write), root);
      } else if i == 2 {
        PairUses(kind, ValueUse(0, Read), ValueUse(2, Write), root);
      } else if i == 4 {
        PairUses(kind, ValueUse(2, Read), ValueUse(3, Write), root);
      }
    }
  }

  // ----- The tables

  lemma ProgramIsValid()
    ensures ValidProgram(PROGRAM) && Flattening(VALUES, ROOTS) && SoundAliases(VALUES)
  {
    forall i | 0 <= i < 5
      ensures KnownUses(PROGRAM, PROGRAM.instructions[i])
    {
      UsesOf(i);
    }
    forall v | 0 <= v < 4
      ensures Flattened(VALUES, v, ROOTS[v])
    {
      assert Resolves(VALUES, v, 0, ROOTS[v]);
    }
    forall v | 0 <= v < 4
      ensures HopInBounds(VALUES, v) && !OnCycle(VALUES, v)
    {
      ResolvingIsAcyclic(VALUES, v, ROOTS[v]);
    }
  }

  lemma SixteenIsPower()
    ensures IsPowerOfTwo(16)
  {
    assert IsPowerOfTwo(8) by { assert IsPowerOfTwo(4) by { assert IsPowerOfTwo(2); } }
  }

  lemma IntervalIs(v: nat)
    requires v < 4
    ensures CorrectInterval(PROGRAM, ROOTS, v, TABLES.intervals[v]) && DefinedBeforeRead(PROGRAM, ROOTS, v)
  {
    SixteenIsPower();
    var interval := TABLES.intervals[v].value;
    forall kind, i: nat, root: nat
      ensures At(kind, PROGRAM, ROOTS, i, root) <==> Hits(kind, i, root)
    {
      AccessIs(kind, i, root);
    }
    assert !OutputRoot(PROGRAM, ROOTS, v);
    assert IsFirst(Writing, PROGRAM, ROOTS, v, Some(interval.start), 5);
    assert At(Touching, PROGRAM, ROOTS, interval.end - 1, v);
    assert IsEnd(PROGRAM, ROOTS, v, interval.end);
  }

  lemma TablesAreCorrect()
    ensures CorrectLiveness(PROGRAM, TABLES) && Analyzable(PROGRAM)
  {
    ProgramIsValid();
    forall v | 0 <= v < 4
      ensures CorrectInterval(PROGRAM, ROOTS, v, TABLES.intervals[v]) && DefinedBeforeRead(PROGRAM, ROOTS, v)
    {
      IntervalIs(v);
    }
    assert Flattening(PROGRAM.values, ROOTS) && forall v :: 0 <= v < |PROGRAM.values| ==> DefinedBeforeRead(PROGRAM, ROOTS, v);
  }

  /** The program meets everything planning asks for. */
  lemma ProgramIsAcceptable()
    ensures Acceptable(PROGRAM, CONFIG)
  {
    TablesAreCorrect();
    RequestsAreWellFormed();
    forall v | 0 <= v < 4
      ensures FitsConfig(CONFIG, VALUES[v])
    {
      assert CONFIG[0] in CONFIG;
    }
  }

  // ----- The requests

  lemma OrderIs()
    ensures AllocationOrder(PROGRAM, TABLES) == [0, 1, 2, 3]
  {
    var leq := AllocationLeq(TABLES);
    assert PlannedValues(PROGRAM, 4) == [0, 1, 2, 3] by {
      assert PlannedValues(PROGRAM, 1) == [0];
      assert PlannedValues(PROGRAM, 2) == [0, 1];
      assert PlannedValues(PROGRAM, 3) == [0, 1, 2];
    }
    assert [0, 1, 2, 3][1..] == [1, 2, 3] && [1, 2, 3][1..] == [2, 3] && [2, 3][1..] == [3] && [3][1..] == [];
    assert Sort(leq, [3]) == [3];
    assert Sort(leq, [2, 3]) == Insert(leq, [3], 2) == [2, 3];
    assert Sort(leq, [1, 2, 3]) == Insert(leq, [2, 3], 1) == [1, 2, 3];
    assert Sort(leq, [0, 1, 2, 3]) == Insert(leq, [1, 2, 3], 0) == [0, 1, 2, 3];
  }

  lemma RequestsAre()
    ensures CorrectLiveness(PROGRAM, TABLES) && Planner.Requests(PROGRAM, TABLES) == EmptyValues.Requests()
  {
    TablesAreCorrect();
    OrderIs();
  }

  // ----- The failure

  /** No plan exists for the acceptable program. */
  lemma AcceptableWithoutPlan()
    ensures Acceptable(PROGRAM, CONFIG) && TripsConflictTest(PROGRAM, CONFIG)
    ensures forall l, placed, plan :: !IsPlan(PROGRAM, CONFIG, l, placed, plan)
  {
    ProgramIsAcceptable();
    RequestsAre();
    EmptyValueConflicts();
    ConflictMeansEmptyValue(PROGRAM, CONFIG, TABLES);
    forall l, placed, plan
      ensures !IsPlan(PROGRAM, CONFIG, l, placed, plan)
    {
      if IsPlan(PROGRAM, CONFIG, l, placed, plan) {
        LivenessOnce(PROGRAM, l, TABLES);
      }
    }
  }

  /** Planning it ends in the conflict error. */
  method PlanningConflicts() returns (error: PlannerError)
    ensures error.PackingConflict? && ConflictIsEmptyValue(PROGRAM, error)
  {
    AcceptableWithoutPlan();
    ghost var l, placed;
    var r;
    r, l, placed := PlanMemory(PROGRAM, CONFIG);
    error := r.error;
  }
}
