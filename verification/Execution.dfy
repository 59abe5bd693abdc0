/**
 * Running a program over its packed segments against running it with one private buffer per storage-owning value.
 *
 * An instruction's kernel is any program that loads and stores single bytes through the instruction's declared
 * uses; what it does next may depend on every byte loaded so far.
 */
module Execution {
  import opened Wrappers
  import opened Lowered
  import opened Aliases
  import opened Liveness
  import opened Packing
  import opened Placement
  import opened Layout
  import opened Planner

  newtype Byte = b: int | 0 <= b < 256

  /** The next move of a kernel: byte `k` of the value named by use `use` of the running instruction. */
  datatype Action =
    | Load(use: nat, k: nat)
    | Store(use: nat, k: nat, data: Byte)
    | Skip

  /** The move of instruction `i` at its step `s`, given the bytes loaded so far in the whole run. */
  type Kernels = (nat, nat, seq<Byte>) -> Action

  /** The move stays within what the instruction declares. */
  predicate Declared(p: Program, i: nat, action: Action)
    requires i < |p.instructions|
  {
    var uses := p.instructions[i].ResourceUses();
    match action
    case Skip => true
    case Load(use, k) =>
      use < |uses| && uses[use].value < |p.values| && k < p.values[uses[use].value].bytes && uses[use].access.Reads()
    case Store(use, k, _) =>
      use < |uses| && uses[use].value < |p.values| && k < p.values[uses[use].value].bytes && uses[use].access.Writes()
  }

  // ----- Private buffers

  /** One buffer per value; a byte of a planned value is undefined until it is first written. */
  datatype PrivateState = PrivateState(buffers: seq<seq<Option<Byte>>>, loaded: seq<Byte>)

  ghost predicate PrivateShape(p: Program, s: PrivateState) {
    |s.buffers| == |p.values| && forall v :: 0 <= v < |p.values| ==> |s.buffers[v]| == p.values[v].bytes
  }

  /** One step; `None` when the move is undeclared or loads an undefined byte. */
  function PrivateStep(p: Program, aliases: seq<NormalizedAlias>, i: nat, action: Action, s: PrivateState): Option<PrivateState>
    requires i < |p.instructions| && Flattening(p.values, aliases) && PrivateShape(p, s)
  {
    if !Declared(p, i, action) then None
    else if action.Skip? then Some(s)
    else
      var view := p.instructions[i].ResourceUses()[action.use].value;
      assert Flattened(p.values, view, aliases[view]);
      var root, at := aliases[view].root, aliases[view].byteOffset + action.k;
      match action
      case Load(_, _) =>
        if s.buffers[root][at] == None then None
        else Some(s.(loaded := s.loaded + [s.buffers[root][at].value]))
      case Store(_, _, data) =>
        Some(s.(buffers := s.buffers[root := s.buffers[root][at := Some(data)]]))
  }

  /** The first `n` steps of instruction `i`. */
  ghost function PrivateInstruction(p: Program, aliases: seq<NormalizedAlias>, kernels: Kernels, i: nat, n: nat, s: PrivateState)
    : (r: Option<PrivateState>)
    requires i < |p.instructions| && Flattening(p.values, aliases) && PrivateShape(p, s)
    ensures r.Some? ==> PrivateShape(p, r.value)
  {
    if n == 0 then Some(s)
    else
      match PrivateInstruction(p, aliases, kernels, i, n - 1, s)
      case None => None
      case Some(t) => PrivateStep(p, aliases, i, kernels(i, n - 1, t.loaded), t)
  }

  /** Instructions `0..n`, each for as many steps as `budget` allows it. */
  ghost function PrivateRun(p: Program, aliases: seq<NormalizedAlias>, kernels: Kernels, budget: nat -> nat, n: nat, s: PrivateState)
    : (r: Option<PrivateState>)
    requires n <= |p.instructions| && Flattening(p.values, aliases) && PrivateShape(p, s)
    ensures r.Some? ==> PrivateShape(p, r.value)
  {
    if n == 0 then Some(s)
    else
      match PrivateRun(p, aliases, kernels, budget, n - 1, s)
      case None => None
      case Some(t) => PrivateInstruction(p, aliases, kernels, n - 1, budget(n - 1), t)
  }

  // ----- Packed segments

  datatype PackedState = PackedState(segments: seq<seq<Byte>>, fixed: seq<seq<Byte>>, loaded: seq<Byte>)

  /** Where byte 0 of a value lives, read off the plan's location table alone. */
  datatype Address = InSegment(segment: nat, offset: nat) | InFixed(value: nat, offset: nat) | Nowhere

  function AddressOf(locations: seq<Location>, v: nat): Address {
    if v >= |locations| then Nowhere
    else
      match locations[v]
      case SegmentLocation(segment, offset, _) => InSegment(segment, offset)
      case FixedLocation(_) => InFixed(v, 0)
      case AliasLocation(root, byteOffset) =>
        if root >= |locations| then Nowhere
        else
          match locations[root]
          case SegmentLocation(segment, offset, _) => InSegment(segment, offset + byteOffset)
          case FixedLocation(_) => InFixed(root, byteOffset)
          case AliasLocation(_, _) => Nowhere
  }

  function ReadAt(s: PackedState, address: Address, k: nat): Option<Byte> {
    match address
    case InSegment(segment, offset) =>
      if segment < |s.segments| && offset + k < |s.segments[segment]| then Some(s.segments[segment][offset + k]) else None
    case InFixed(v, offset) =>
      if v < |s.fixed| && offset + k < |s.fixed[v]| then Some(s.fixed[v][offset + k]) else None
    case Nowhere => None
  }

  function WriteAt(s: PackedState, address: Address, k: nat, data: Byte): Option<PackedState> {
    match address
    case InSegment(segment, offset) =>
      if segment < |s.segments| && offset + k < |s.segments[segment]|
      then Some(s.(segments := s.segments[segment := s.segments[segment][offset + k := data]])) else None
    case InFixed(v, offset) =>
      if v < |s.fixed| && offset + k < |s.fixed[v]|
      then Some(s.(fixed := s.fixed[v := s.fixed[v][offset + k := data]])) else None
    case Nowhere => None
  }

  /** One step over the packed storage; `None` when the move is undeclared or its address is out of bounds. */
  function PackedStep(p: Program, plan: MemoryPlan, i: nat, action: Action, s: PackedState): Option<PackedState>
    requires i < |p.instructions|
  {
    if !Declared(p, i, action) then None
    else if action.Skip? then Some(s)
    else
      var address := AddressOf(plan.locations, p.instructions[i].ResourceUses()[action.use].value);
      match action
      case Load(_, k) =>
        (match ReadAt(s, address, k)
         case None => None
         case Some(data) => Some(s.(loaded := s.loaded + [data])))
      case Store(_, k, data) => WriteAt(s, address, k, data)
  }

  function PackedInstruction(p: Program, plan: MemoryPlan, kernels: Kernels, i: nat, n: nat, s: PackedState): Option<PackedState>
    requires i < |p.instructions|
  {
    if n == 0 then Some(s)
    else
      match PackedInstruction(p, plan, kernels, i, n - 1, s)
      case None => None
      case Some(t) => PackedStep(p, plan, i, kernels(i, n - 1, t.loaded), t)
  }

  function PackedRun(p: Program, plan: MemoryPlan, kernels: Kernels, budget: nat -> nat, n: nat, s: PackedState): Option<PackedState>
    requires n <= |p.instructions|
  {
    if n == 0 then Some(s)
    else
      match PackedRun(p, plan, kernels, budget, n - 1, s)
      case None => None
      case Some(t) => PackedInstruction(p, plan, kernels, n - 1, budget(n - 1), t)
  }

  // ----- The simulation

  /** A laid out program: liveness, layout and location table, as a plan provides them. */
  ghost predicate LaidOut(p: Program, l: LivenessTables, placed: seq<Option<Assignment>>, plan: MemoryPlan) {
    && CorrectLiveness(p, l)
    && SoundLayout(p, l, plan.segments, placed)
    && LocationsMatch(p, l, placed, plan.locations)
  }

  ghost predicate PackedShape(p: Program, plan: MemoryPlan, s: PackedState) {
    && |s.segments| == |plan.segments| && (forall i :: 0 <= i < |s.segments| ==> |s.segments[i]| == plan.segments[i].bytes)
    && |s.fixed| == |p.values| && (forall v :: 0 <= v < |s.fixed| ==> |s.fixed[v]| == p.values[v].bytes)
  }

  /** Byte `k` of root `v`, if defined, is what the packed storage holds for it. */
  ghost predicate ByteAgrees(p: Program, placed: seq<Option<Assignment>>, plan: MemoryPlan, s: PrivateState, t: PackedState, v: nat, k: nat)
    requires |placed| == |p.values| && PrivateShape(p, s) && PackedShape(p, plan, t)
    requires v < |p.values| && k < p.values[v].bytes
  {
    match p.values[v].storage
    case Fixed(_) => s.buffers[v][k] == Some(t.fixed[v][k])
    case Planned(_, _, _, _) =>
      placed[v].Some? && (s.buffers[v][k].Some? ==>
        && placed[v].value.segment < |t.segments|
        && placed[v].value.offset + k < |t.segments[placed[v].value.segment]|
        && s.buffers[v][k].value == t.segments[placed[v].value.segment][placed[v].value.offset + k])
    case Alias(_, _) => true
  }

  /** At instruction `now`: fixed and unexpired planned bytes agree, and values not yet started are undefined. */
  ghost predicate Simulates(p: Program, l: LivenessTables, placed: seq<Option<Assignment>>, plan: MemoryPlan, now: nat,
                            s: PrivateState, t: PackedState) {
    && |placed| == |p.values| == |l.intervals| && PrivateShape(p, s) && PackedShape(p, plan, t)
    && s.loaded == t.loaded
    && (forall v, k :: 0 <= v < |p.values| && 0 <= k < p.values[v].bytes && Unexpired(p, l, v, now) ==>
          ByteAgrees(p, placed, plan, s, t, v, k))
    && (forall v, k :: 0 <= v < |p.values| && 0 <= k < p.values[v].bytes && NotStarted(p, l, v, now) ==>
          s.buffers[v][k] == None)
  }

  ghost predicate Unexpired(p: Program, l: LivenessTables, v: nat, now: nat)
    requires v < |p.values| == |l.intervals|
  {
    p.values[v].storage.Planned? ==> l.intervals[v].Some? && l.intervals[v].value.end > now
  }

  ghost predicate NotStarted(p: Program, l: LivenessTables, v: nat, now: nat)
    requires v < |p.values| == |l.intervals|
  {
    p.values[v].storage.Planned? && l.intervals[v].Some? && l.intervals[v].value.start > now
  }

  /** A declared access resolves to a root that is live now, at the same place in both storages. */
  lemma AccessResolves(p: Program, l: LivenessTables, placed: seq<Option<Assignment>>, plan: MemoryPlan, i: nat, use: nat, k: nat)
    returns (root: nat, at: nat)
    requires LaidOut(p, l, placed, plan) && i < |p.instructions|
    requires var uses := p.instructions[i].ResourceUses();
             use < |uses| && uses[use].value < |p.values| && k < p.values[uses[use].value].bytes
    ensures var view := p.instructions[i].ResourceUses()[use].value;
            && root == l.aliases[view].root < |p.values| && at == l.aliases[view].byteOffset + k < p.values[root].bytes
            && !p.values[root].storage.Alias?
            && var address := AddressOf(plan.locations, view);
            && (p.values[root].storage.Fixed? ==> address.InFixed? && address.value == root && address.offset + k == at)
            && (p.values[root].storage.Planned? ==>
                  && l.intervals[root].Some? && l.intervals[root].value.Contains(i)
                  && placed[root].Some?
                  && address.InSegment? && address.segment == placed[root].value.segment
                  && address.offset + k == placed[root].value.offset + at
                  && placed[root].value.segment < |plan.segments|
                  && placed[root].value.offset + at < plan.segments[placed[root].value.segment].bytes)
  {
    var uses := p.instructions[i].ResourceUses();
    var view := uses[use].value;
    var a := l.aliases[view];
    assert Flattened(p.values, view, a);
    root, at := a.root, a.byteOffset + k;
    assert LocationMatches(p, l, placed, view, plan.locations[view]);
    assert LocationMatches(p, l, placed, root, plan.locations[root]);
    if !p.values[view].storage.Alias? {
      NonAliasIsItsRoot(p, view, a);
    }
    assert Touching.Covers(uses[use].access) && At(Touching, p, l.aliases, i, root);
    if p.values[root].storage.Planned? {
      TouchesAreLive(p, l, root, i);
      assert CorrectInterval(p, l.aliases, root, l.intervals[root]);
      assert InItsSegment(p, l, plan.segments, root, placed[root].value);
    }
  }

  lemma NonAliasIsItsRoot(p: Program, v: nat, a: NormalizedAlias)
    requires Flattened(p.values, v, a) && !p.values[v].storage.Alias?
    ensures a == NormalizedAlias(v, 0)
  {
    var n: nat :| Resolves(p.values, v, n, a);
  }

  /** Two different planned values, both holding storage at `now`, never meet at an address. */
  lemma LiveAddressesDiffer(p: Program, l: LivenessTables, placed: seq<Option<Assignment>>, plan: MemoryPlan, now: nat,
                            root: nat, at: nat, v: nat, k: nat)
    requires SoundLayout(p, l, plan.segments, placed)
    requires root < |p.values| && v < |p.values| && root != v
    requires p.values[root].storage.Planned? && p.values[v].storage.Planned?
    requires l.intervals[root].Some? && l.intervals[root].value.Contains(now)
    requires l.intervals[v].Some? && l.intervals[v].value.Contains(now)
    requires at < p.values[root].bytes && k < p.values[v].bytes
    ensures placed[root].Some? && placed[v].Some?
    ensures placed[root].value.segment != placed[v].value.segment || placed[root].value.offset + at != placed[v].value.offset + k
  {
    assert InItsSegment(p, l, plan.segments, root, placed[root].value) && InItsSegment(p, l, plan.segments, v, placed[v].value);
    assert Apart(placed[root].value, placed[v].value);
    var x := placed[root].value.offset + at;
    assert placed[root].value.Bytes().Has(x);
  }

  /** A store that the private buffers allow is in bounds in the packed storage, and both keep their shape. */
  lemma StoreApplies(p: Program, l: LivenessTables, placed: seq<Option<Assignment>>, plan: MemoryPlan, i: nat,
                     action: Action, s: PrivateState, t: PackedState)
    requires LaidOut(p, l, placed, plan) && i < |p.instructions|
    requires PrivateShape(p, s) && PackedShape(p, plan, t) && s.loaded == t.loaded
    requires action.Store? && PrivateStep(p, l.aliases, i, action, s).Some?
    ensures PackedStep(p, plan, i, action, t).Some?
    ensures PrivateShape(p, PrivateStep(p, l.aliases, i, action, s).value)
    ensures PackedShape(p, plan, PackedStep(p, plan, i, action, t).value)
    ensures PrivateStep(p, l.aliases, i, action, s).value.loaded == PackedStep(p, plan, i, action, t).value.loaded
  {
    var root, at := AccessResolves(p, l, placed, plan, i, action.use, action.k);
  }

  /** After a store every unexpired byte that agreed still agrees. */
  lemma StoreKeepsByte(p: Program, l: LivenessTables, placed: seq<Option<Assignment>>, plan: MemoryPlan, i: nat,
                       action: Action, s: PrivateState, t: PackedState, s': PrivateState, t': PackedState, v: nat, k: nat)
    requires LaidOut(p, l, placed, plan) && i < |p.instructions|
    requires |placed| == |p.values| == |l.intervals| && PrivateShape(p, s) && PackedShape(p, plan, t)
    requires PrivateShape(p, s') && PackedShape(p, plan, t')
    requires action.Store? && PrivateStep(p, l.aliases, i, action, s) == Some(s') && PackedStep(p, plan, i, action, t) == Some(t')
    requires v < |p.values| && k < p.values[v].bytes && Unexpired(p, l, v, i) && ByteAgrees(p, placed, plan, s, t, v, k)
    requires NotStarted(p, l, v, i) ==> s.buffers[v][k] == None
    ensures ByteAgrees(p, placed, plan, s', t', v, k)
  {
    var root, at := AccessResolves(p, l, placed, plan, i, action.use, action.k);
    if p.values[v].storage.Planned? && p.values[root].storage.Planned? && v != root {
      if l.intervals[v].value.start <= i {
        LiveAddressesDiffer(p, l, placed, plan, i, root, at, v, k);
      } else {
        assert s.buffers[v][k] == None;
      }
    }
  }

  /** A store leaves the buffers of values that have not started undefined. */
  lemma StoreSparesLater(p: Program, l: LivenessTables, placed: seq<Option<Assignment>>, plan: MemoryPlan, i: nat,
                         action: Action, s: PrivateState, v: nat, k: nat)
    requires LaidOut(p, l, placed, plan) && i < |p.instructions| && PrivateShape(p, s)
    requires action.Store? && PrivateStep(p, l.aliases, i, action, s).Some?
    requires PrivateShape(p, PrivateStep(p, l.aliases, i, action, s).value)
    requires v < |p.values| == |l.intervals| && k < p.values[v].bytes && NotStarted(p, l, v, i) && s.buffers[v][k] == None
    ensures PrivateStep(p, l.aliases, i, action, s).value.buffers[v][k] == None
  {
    var root, at := AccessResolves(p, l, placed, plan, i, action.use, action.k);
  }

  /** A store through a live view updates both storages alike and disturbs no other live value. */
  lemma StoreKeeps(p: Program, l: LivenessTables, placed: seq<Option<Assignment>>, plan: MemoryPlan, i: nat,
                   action: Action, s: PrivateState, t: PackedState)
    requires LaidOut(p, l, placed, plan) && i < |p.instructions| && Simulates(p, l, placed, plan, i, s, t)
    requires action.Store? && PrivateStep(p, l.aliases, i, action, s).Some?
    ensures PackedStep(p, plan, i, action, t).Some?
    ensures PrivateShape(p, PrivateStep(p, l.aliases, i, action, s).value)
    ensures Simulates(p, l, placed, plan, i, PrivateStep(p, l.aliases, i, action, s).value, PackedStep(p, plan, i, action, t).value)
  {
    StoreApplies(p, l, placed, plan, i, action, s, t);
    var s', t' := PrivateStep(p, l.aliases, i, action, s).value, PackedStep(p, plan, i, action, t).value;
    forall v, k | 0 <= v < |p.values| && 0 <= k < p.values[v].bytes && Unexpired(p, l, v, i)
      ensures ByteAgrees(p, placed, plan, s', t', v, k)
    {
      StoreKeepsByte(p, l, placed, plan, i, action, s, t, s', t', v, k);
    }
    forall v, k | 0 <= v < |p.values| && 0 <= k < p.values[v].bytes && NotStarted(p, l, v, i)
      ensures s'.buffers[v][k] == None
    {
      StoreSparesLater(p, l, placed, plan, i, action, s, v, k);
    }
  }

  lemma LoadKeeps(p: Program, l: LivenessTables, placed: seq<Option<Assignment>>, plan: MemoryPlan, i: nat,
                  action: Action, s: PrivateState, t: PackedState)
    requires LaidOut(p, l, placed, plan) && i < |p.instructions| && Simulates(p, l, placed, plan, i, s, t)
    requires action.Load? && PrivateStep(p, l.aliases, i, action, s).Some?
    ensures PackedStep(p, plan, i, action, t).Some?
    ensures PrivateShape(p, PrivateStep(p, l.aliases, i, action, s).value)
    ensures Simulates(p, l, placed, plan, i, PrivateStep(p, l.aliases, i, action, s).value, PackedStep(p, plan, i, action, t).value)
  {
    var root, at := AccessResolves(p, l, placed, plan, i, action.use, action.k);
    assert Unexpired(p, l, root, i);
    assert ByteAgrees(p, placed, plan, s, t, root, at);
    var s', t' := PrivateStep(p, l.aliases, i, action, s).value, PackedStep(p, plan, i, action, t).value;
    forall v, k | 0 <= v < |p.values| && 0 <= k < p.values[v].bytes && Unexpired(p, l, v, i)
      ensures ByteAgrees(p, placed, plan, s', t', v, k)
    {
      assert ByteAgrees(p, placed, plan, s, t, v, k);
    }
  }

  lemma {:induction false} InstructionSimulates(p: Program, l: LivenessTables, placed: seq<Option<Assignment>>, plan: MemoryPlan,
                                                kernels: Kernels, i: nat, n: nat, s: PrivateState, t: PackedState)
    requires LaidOut(p, l, placed, plan) && i < |p.instructions| && Simulates(p, l, placed, plan, i, s, t)
    requires PrivateInstruction(p, l.aliases, kernels, i, n, s).Some?
    ensures PackedInstruction(p, plan, kernels, i, n, t).Some?
    ensures Simulates(p, l, placed, plan, i, PrivateInstruction(p, l.aliases, kernels, i, n, s).value,
                      PackedInstruction(p, plan, kernels, i, n, t).value)
  {
    if n > 0 {
      InstructionSimulates(p, l, placed, plan, kernels, i, n - 1, s, t);
      var s', t' := PrivateInstruction(p, l.aliases, kernels, i, n - 1, s).value, PackedInstruction(p, plan, kernels, i, n - 1, t).value;
      var action := kernels(i, n - 1, s'.loaded);
      match action
      case Skip =>
      case Load(_, _) => LoadKeeps(p, l, placed, plan, i, action, s', t');
      case Store(_, _, _) => StoreKeeps(p, l, placed, plan, i, action, s', t');
    }
  }

  /** The clock may move on: what has expired is forgotten, what starts now is still undefined. */
  lemma ClockKeeps(p: Program, l: LivenessTables, placed: seq<Option<Assignment>>, plan: MemoryPlan, now: nat, later: nat,
                   s: PrivateState, t: PackedState)
    requires Simulates(p, l, placed, plan, now, s, t) && now <= later
    ensures Simulates(p, l, placed, plan, later, s, t)
  {
    forall v, k | 0 <= v < |p.values| && 0 <= k < p.values[v].bytes && Unexpired(p, l, v, later)
      ensures ByteAgrees(p, placed, plan, s, t, v, k)
    {
      assert Unexpired(p, l, v, now);
    }
    forall v, k | 0 <= v < |p.values| && 0 <= k < p.values[v].bytes && NotStarted(p, l, v, later)
      ensures s.buffers[v][k] == None
    {
      assert NotStarted(p, l, v, now);
    }
  }

  lemma {:induction false} RunSimulates(p: Program, l: LivenessTables, placed: seq<Option<Assignment>>, plan: MemoryPlan,
                                        kernels: Kernels, budget: nat -> nat, n: nat, s: PrivateState, t: PackedState)
    requires LaidOut(p, l, placed, plan) && n <= |p.instructions| && Simulates(p, l, placed, plan, 0, s, t)
    requires PrivateRun(p, l.aliases, kernels, budget, n, s).Some?
    ensures PackedRun(p, plan, kernels, budget, n, t).Some?
    ensures Simulates(p, l, placed, plan, Clock(n), PrivateRun(p, l.aliases, kernels, budget, n, s).value,
                      PackedRun(p, plan, kernels, budget, n, t).value)
  {
    if n > 0 {
      var last: nat := n - 1;
      RunSimulates(p, l, placed, plan, kernels, budget, last, s, t);
      var s', t' := PrivateRun(p, l.aliases, kernels, budget, last, s).value, PackedRun(p, plan, kernels, budget, last, t).value;
      ClockKeeps(p, l, placed, plan, Clock(last), last, s', t');
      InstructionSimulates(p, l, placed, plan, kernels, last, budget(last), s', t');
      assert PrivateRun(p, l.aliases, kernels, budget, n, s) == PrivateInstruction(p, l.aliases, kernels, last, budget(last), s');
      assert PackedRun(p, plan, kernels, budget, n, t) == PackedInstruction(p, plan, kernels, last, budget(last), t');
      assert Clock(n) == last;
    }
  }

  /** The instruction a run of `n` instructions was at when it ended. */
  ghost function Clock(n: nat): nat {
    if n == 0 then 0 else n - 1
  }

  // ----- The refinement

  /** The private buffers before the run: fixed values hold their contents, planned bytes are undefined. */
  ghost predicate InitialPrivate(p: Program, s: PrivateState, t: PackedState) {
    && PrivateShape(p, s) && |t.fixed| == |p.values| && s.loaded == [] && t.loaded == []
    && forall v, k :: 0 <= v < |p.values| && 0 <= k < p.values[v].bytes ==>
         && (p.values[v].storage.Planned? ==> s.buffers[v][k] == None)
         && (p.values[v].storage.Fixed? ==> k < |t.fixed[v]| && s.buffers[v][k] == Some(t.fixed[v][k]))
  }

  /** The defined bytes of value `v` in its root's buffer are the bytes the packed storage holds at the value's address. */
  ghost predicate ValueSurvives(p: Program, aliases: seq<NormalizedAlias>, plan: MemoryPlan, s: PrivateState, t: PackedState, v: nat)
    requires Flattening(p.values, aliases) && PrivateShape(p, s) && v < |p.values|
  {
    forall k :: 0 <= k < p.values[v].bytes ==>
      assert Flattened(p.values, v, aliases[v]);
      var data := s.buffers[aliases[v].root][aliases[v].byteOffset + k];
      data.Some? ==> ReadAt(t, AddressOf(plan.locations, v), k) == data
  }

  lemma SurvivingValue(p: Program, l: LivenessTables, placed: seq<Option<Assignment>>, plan: MemoryPlan, now: nat,
                       s: PrivateState, t: PackedState, v: nat)
    requires LaidOut(p, l, placed, plan) && Simulates(p, l, placed, plan, now, s, t)
    requires v < |p.values| && Unexpired(p, l, l.aliases[v].root, now)
    ensures ValueSurvives(p, l.aliases, plan, s, t, v)
  {
    var a := l.aliases[v];
    assert Flattened(p.values, v, a);
    assert LocationMatches(p, l, placed, v, plan.locations[v]) && LocationMatches(p, l, placed, a.root, plan.locations[a.root]);
    if !p.values[v].storage.Alias? {
      NonAliasIsItsRoot(p, v, a);
    }
    forall k | 0 <= k < p.values[v].bytes
      ensures var data := s.buffers[a.root][a.byteOffset + k];
              data.Some? ==> ReadAt(t, AddressOf(plan.locations, v), k) == data
    {
      assert ByteAgrees(p, placed, plan, s, t, a.root, a.byteOffset + k);
    }
  }

  /** An output's root is live to the end of the run. */
  lemma OutputIsUnexpired(p: Program, l: LivenessTables, v: nat)
    requires CorrectLiveness(p, l) && v in p.outputs
    ensures v < |p.values| && l.aliases[v].root < |p.values|
    ensures Unexpired(p, l, l.aliases[v].root, if |p.instructions| == 0 then 0 else |p.instructions| - 1)
  {
    assert Flattened(p.values, v, l.aliases[v]);
    var root := l.aliases[v].root;
    assert CorrectInterval(p, l.aliases, root, l.intervals[root]);
    if p.values[root].storage.Planned? {
      assert OutputRoot(p, l.aliases, root);
      assert At(Writing, p, l.aliases, l.intervals[root].value.start, root);
    }
  }

  /**
   * Running over the packed plan refines running over private buffers: whenever the private run completes without
   * loading an undefined byte, the packed run completes too, every load returns the same byte, and every defined
   * output byte is found at the output's planned address.
   */
  lemma PackedRefinesPrivate(p: Program, config: seq<SpaceConfig>, l: LivenessTables, placed: seq<Option<Assignment>>, plan: MemoryPlan,
                             kernels: Kernels, budget: nat -> nat, s: PrivateState, t: PackedState)
    requires IsPlan(p, config, l, placed, plan)
    requires InitialPrivate(p, s, t) && PackedShape(p, plan, t)
    requires PrivateRun(p, l.aliases, kernels, budget, |p.instructions|, s).Some?
    ensures PackedRun(p, plan, kernels, budget, |p.instructions|, t).Some?
    ensures var (s', t') := (PrivateRun(p, l.aliases, kernels, budget, |p.instructions|, s).value,
                             PackedRun(p, plan, kernels, budget, |p.instructions|, t).value);
            && s'.loaded == t'.loaded
            && forall v :: v in p.outputs ==> v < |p.values| && ValueSurvives(p, l.aliases, plan, s', t', v)
  {
    PackedLayoutIsSound(p, l, config, placed);
    InitiallySimulates(p, l, placed, plan, s, t);
    var n := |p.instructions|;
    RunSimulates(p, l, placed, plan, kernels, budget, n, s, t);
    var s', t' := PrivateRun(p, l.aliases, kernels, budget, n, s).value, PackedRun(p, plan, kernels, budget, n, t).value;
    forall v | v in p.outputs
      ensures v < |p.values| && ValueSurvives(p, l.aliases, plan, s', t', v)
    {
      OutputIsUnexpired(p, l, v);
      SurvivingValue(p, l, placed, plan, Clock(n), s', t', v);
    }
  }

  lemma InitiallySimulates(p: Program, l: LivenessTables, placed: seq<Option<Assignment>>, plan: MemoryPlan, s: PrivateState, t: PackedState)
    requires LaidOut(p, l, placed, plan) && InitialPrivate(p, s, t) && PackedShape(p, plan, t)
    ensures Simulates(p, l, placed, plan, 0, s, t)
  {
    forall v, k | 0 <= v < |p.values| && 0 <= k < p.values[v].bytes
      ensures ByteAgrees(p, placed, plan, s, t, v, k)
    {
    }
  }
}
