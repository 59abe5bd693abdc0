/**
 * The graph a decode specialization builds: every node is new, and its leaves are the leaves of the source and the
 * cursor.
 */
module DecodedGraph {
  import opened Wrappers
  import opened Dag
  import opened NodeInfo
  import opened SemanticGraph
  import opened DecodeSteps
  import opened GraphIndexes

  // ----- New nodes

  ghost predicate MakesCursor(settings: Settings, slot: nat, n: Term, op: Op) {
    n.op.kind.PositionEmbedding? && n.args != [] && op == Cursor(settings, slot, n.args[0].op.info.device)
  }

  /** A leaf among the first `i` nodes, or the cursor made for one of them. */
  ghost predicate LeafFrom(settings: Settings, order: seq<Term>, i: nat, slot: nat, op: Op)
    requires i <= |order|
  {
    || Declared(op).None?
    || (exists j :: 0 <= j < i && order[j].op == op)
    || (exists j :: 0 <= j < i && MakesCursor(settings, slot, order[j], op))
  }

  /** Ids from `first` up to `next`, one node each, closed under children, with known leaves. */
  ghost predicate Pooled(settings: Settings, order: seq<Term>, i: nat, slot: nat, pool: set<Term>, first: nat, next: nat)
    requires i <= |order|
  {
    && Coherent(pool) && Closed(pool)
    && (forall x :: x in pool ==> first <= x.id < next)
    && (forall x :: x in pool ==> LeafFrom(settings, order, i, slot, x.op))
  }

  /** Making a node over pooled operands. */
  lemma MintOne(settings: Settings, order: seq<Term>, i: nat, slot: nat, pool: set<Term>, first: nat, next: nat, n: Term)
    returns (more: set<Term>)
    requires i <= |order| && first <= next && Pooled(settings, order, i, slot, pool, first, next)
    requires n.id == next && LeafFrom(settings, order, i, slot, n.op) && forall k :: 0 <= k < |n.args| ==> n.args[k] in pool
    ensures pool <= more && n in more && Pooled(settings, order, i, slot, more, first, next + 1)
  {
    more := pool + {n};
  }

  /** The nodes made for a position embedding over the weight's image. */
  lemma MintScalarPositions(settings: Settings, order: seq<Term>, i: nat, slot: nat, pool: set<Term>, first: nat, next: nat, weight: Term)
    returns (more: set<Term>)
    requires 0 < i <= |order| && first <= next && Pooled(settings, order, i, slot, pool, first, next) && weight in pool
    requires var n := order[i - 1]; n.op.kind.PositionEmbedding? && Typed(n) && settings.graphRows <= 1
    ensures pool <= more && Pooled(settings, order, i, slot, more, first, next + 6)
    ensures ScalarPositions(order[i - 1], weight, slot, next) in more
  {
    var n := order[i - 1];
    var gathered := ScalarPositions(n, weight, slot, next);
    var indexes := gathered.args[1];
    var column := indexes.args[0];
    var positions := column.args[0];
    var range, cursor := positions.args[0], positions.args[1];
    assert MakesCursor(settings, slot, n, cursor.op);
    more := MintOne(settings, order, i, slot, pool, first, next, range);
    more := MintOne(settings, order, i, slot, more, first, next + 1, cursor);
    more := MintOne(settings, order, i, slot, more, first, next + 2, positions);
    more := MintOne(settings, order, i, slot, more, first, next + 3, column);
    more := MintOne(settings, order, i, slot, more, first, next + 4, indexes);
    more := MintOne(settings, order, i, slot, more, first, next + 5, gathered);
  }

  lemma MintRowPositions(settings: Settings, order: seq<Term>, i: nat, slot: nat, pool: set<Term>, first: nat, next: nat)
    returns (more: set<Term>)
    requires 0 < i <= |order| && first <= next && Pooled(settings, order, i, slot, pool, first, next)
    requires var n := order[i - 1]; n.op.kind.PositionEmbedding? && Typed(n) && settings.graphRows > 1
    ensures pool <= more && Pooled(settings, order, i, slot, more, first, next + 6)
    ensures RowPositions(settings, order[i - 1], slot, next) in more
  {
    var n := order[i - 1];
    var positions := RowPositions(settings, n, slot, next);
    var starts, lines := positions.args[0], positions.args[1];
    var cursors, line := starts.args[0], lines.args[0];
    var range := line.args[0];
    assert MakesCursor(settings, slot, n, cursors.op);
    more := MintOne(settings, order, i, slot, pool, first, next, cursors);
    more := MintOne(settings, order, i, slot, more, first, next + 1, starts);
    more := MintOne(settings, order, i, slot, more, first, next + 2, range);
    more := MintOne(settings, order, i, slot, more, first, next + 3, line);
    more := MintOne(settings, order, i, slot, more, first, next + 4, lines);
    more := MintOne(settings, order, i, slot, more, first, next + 5, positions);
  }

  lemma MintTensorPositions(settings: Settings, order: seq<Term>, i: nat, slot: nat, pool: set<Term>, first: nat, next: nat, weight: Term)
    returns (more: set<Term>)
    requires 0 < i <= |order| && first <= next && Pooled(settings, order, i, slot, pool, first, next) && weight in pool
    requires var n := order[i - 1]; n.op.kind.PositionEmbedding? && Typed(n) && settings.graphRows > 1
    ensures pool <= more && Pooled(settings, order, i, slot, more, first, next + 10)
    ensures TensorPositions(settings, order[i - 1], weight, slot, next) in more
  {
    var result := TensorPositions(settings, order[i - 1], weight, slot, next);
    var gathered := result.args[0];
    var indexes := gathered.args[1];
    var column := indexes.args[0];
    more := MintRowPositions(settings, order, i, slot, pool, first, next);
    more := MintOne(settings, order, i, slot, more, first, next + 6, column);
    more := MintOne(settings, order, i, slot, more, first, next + 7, indexes);
    more := MintOne(settings, order, i, slot, more, first, next + 8, gathered);
    more := MintOne(settings, order, i, slot, more, first, next + 9, result);
  }

  /** The images so far are pooled. */
  ghost predicate Minted(settings: Settings, order: seq<Term>, i: nat, slot: nat, pool: set<Term>, first: nat, st: Progress)
    requires i <= |order|
  {
    && first <= st.next && Pooled(settings, order, i, slot, pool, first, st.next)
    && forall id :: id in st.remapped ==> st.remapped[id] in pool
  }

  lemma PooledLater(settings: Settings, order: seq<Term>, i: nat, slot: nat, pool: set<Term>, first: nat, next: nat)
    requires i < |order| && Pooled(settings, order, i, slot, pool, first, next)
    ensures Pooled(settings, order, i + 1, slot, pool, first, next)
  {
    forall x | x in pool
      ensures LeafFrom(settings, order, i + 1, slot, x.op)
    {
      assert LeafFrom(settings, order, i, slot, x.op);
    }
  }

  /** One more node, over images, that is a leaf only if the source node was this leaf. */
  ghost predicate MakesImage(st: Progress, later: Progress, n: Term) {
    && later.next == st.next + 1 && n.id in later.remapped
    && var image := later.remapped[n.id];
       && image.id == st.next && image.args == Images(st.remapped, n.args)
       && (image.op == n.op || Declared(image.op).None?)
  }

  lemma RebuiltMakes(settings: Settings, st: Progress, described: Progress, n: Term, kind: Kind)
    requires described.remapped == st.remapped && described.next == st.next
    requires kind == n.op.kind || (!kind.Input? && !kind.ScalarInput?)
    ensures MakesImage(st, Rebuilt(settings, described, n, kind), n)
  {
  }

  lemma AttentionMakes(settings: Settings, st: Progress, n: Term)
    requires n.op.kind.Attention? && Typed(n) && AttentionStep(settings, st, n).Success?
    ensures MakesImage(st, AttentionStep(settings, st, n).value, n)
  {
  }

  lemma KdaMakes(settings: Settings, st: Progress, n: Term)
    requires n.op.kind.KdaChunk? && Typed(n) && KdaStep(settings, st, n).Success?
    ensures MakesImage(st, KdaStep(settings, st, n).value, n)
  {
  }

  lemma ConvMakes(settings: Settings, st: Progress, n: Term)
    requires n.op.kind.ShortConv1d? && Typed(n) && ConvStep(settings, st, n).Success?
    ensures MakesImage(st, ConvStep(settings, st, n).value, n)
  {
  }

  /** A node other than a position embedding is rebuilt over images under the next id. */
  lemma StepMakes(settings: Settings, st: Progress, n: Term, slot: nat)
    requires Typed(n) && Step(settings, st, n, slot).Success? && !n.op.kind.PositionEmbedding?
    ensures MakesImage(st, Step(settings, st, n, slot).value, n)
  {
    if n.op.kind.Attention? {
      AttentionMakes(settings, st, n);
    } else if n.op.kind.KdaChunk? {
      KdaMakes(settings, st, n);
    } else if n.op.kind.ShortConv1d? {
      ConvMakes(settings, st, n);
    } else {
      RebuiltMakes(settings, st, st, n, if n.op.kind.RotaryEmbedding? then RotaryEmbedding(true) else n.op.kind);
    }
  }

  lemma StepPlaces(settings: Settings, st: Progress, n: Term, slot: nat)
    requires Typed(n) && Step(settings, st, n, slot).Success? && n.op.kind.PositionEmbedding?
    ensures Step(settings, st, n, slot).value == PositionStep(settings, st, n, slot)
  {
  }

  /** A later state that entered a pooled image. */
  lemma EntersPooled(settings: Settings, order: seq<Term>, i: nat, slot: nat, pool: set<Term>, first: nat, st: Progress,
                     more: set<Term>, later: Progress, id: nat)
    requires i < |order| && Minted(settings, order, i, slot, pool, first, st) && pool <= more && st.next <= later.next
    requires Pooled(settings, order, i + 1, slot, more, first, later.next)
    requires id in later.remapped && later.remapped[id] in more && later.remapped == st.remapped[id := later.remapped[id]]
    ensures Minted(settings, order, i + 1, slot, more, first, later)
  {
  }

  lemma MintOverWeight(settings: Settings, order: seq<Term>, i: nat, slot: nat, pool: set<Term>, first: nat, next: nat, weight: Term)
    returns (more: set<Term>)
    requires i < |order| && Typed(order[i]) && order[i].op.kind.PositionEmbedding?
    requires first <= next && Pooled(settings, order, i, slot, pool, first, next) && weight in pool
    ensures pool <= more && Positions(settings, order[i], weight, slot, next) in more
    ensures Pooled(settings, order, i + 1, slot, more, first, next + PositionNodes(settings))
  {
    PooledLater(settings, order, i, slot, pool, first, next);
    if settings.graphRows > 1 {
      more := MintTensorPositions(settings, order, i + 1, slot, pool, first, next, weight);
    } else {
      more := MintScalarPositions(settings, order, i + 1, slot, pool, first, next, weight);
    }
  }

  lemma MintPositions(settings: Settings, order: seq<Term>, i: nat, slot: nat, pool: set<Term>, first: nat, st: Progress)
    returns (more: set<Term>)
    requires i < |order| && Typed(order[i]) && order[i].op.kind.PositionEmbedding?
    requires Minted(settings, order, i, slot, pool, first, st) && order[i].args[0].id in st.remapped
    ensures Minted(settings, order, i + 1, slot, more, first, PositionStep(settings, st, order[i], slot))
  {
    var n, later := order[i], PositionStep(settings, st, order[i], slot);
    more := MintOverWeight(settings, order, i, slot, pool, first, st.next, Image(st.remapped, n.args[0]));
    EntersPooled(settings, order, i, slot, pool, first, st, more, later, n.id);
  }

  /** Rewriting one node makes new nodes, and its image is among them. */
  lemma StepMints(settings: Settings, order: seq<Term>, i: nat, slot: nat, pool: set<Term>, first: nat, st: Progress)
    returns (more: set<Term>)
    requires i < |order| && Typed(order[i]) && Step(settings, st, order[i], slot).Success?
    requires Minted(settings, order, i, slot, pool, first, st) && order[i].id !in st.remapped
    requires forall k :: 0 <= k < |order[i].args| ==> order[i].args[k].id in st.remapped
    ensures Minted(settings, order, i + 1, slot, more, first, Step(settings, st, order[i], slot).value)
  {
    var n := order[i];
    if n.op.kind.PositionEmbedding? {
      StepPlaces(settings, st, n, slot);
      more := MintPositions(settings, order, i, slot, pool, first, st);
    } else {
      StepMakes(settings, st, n, slot);
      StepExtends(settings, st, n, slot);
      more := MintImage(settings, order, i, slot, pool, first, st, Step(settings, st, n, slot).value);
    }
  }

  lemma MintImage(settings: Settings, order: seq<Term>, i: nat, slot: nat, pool: set<Term>, first: nat, st: Progress, later: Progress)
    returns (more: set<Term>)
    requires i < |order| && Minted(settings, order, i, slot, pool, first, st) && Extends(st, later, order[i].id)
    requires forall k :: 0 <= k < |order[i].args| ==> order[i].args[k].id in st.remapped
    requires MakesImage(st, later, order[i])
    ensures Minted(settings, order, i + 1, slot, more, first, later)
  {
    PooledLater(settings, order, i, slot, pool, first, st.next);
    more := MintOne(settings, order, i + 1, slot, pool, first, st.next, later.remapped[order[i].id]);
  }

  // ----- Images of reachable nodes

  lemma Deeper(n: Term, k: nat, x: Term)
    requires k < |n.args| && x in Below(n.args[k])
    ensures x in Below(n)
  {
    BelowAllHas(n.args, k);
  }

  /** The weight's image and the cursor are below the positions. */
  lemma PositionsReach(settings: Settings, n: Term, weight: Term, slot: nat, id: nat) returns (cursor: Term)
    requires n.op.kind.PositionEmbedding? && Typed(n)
    ensures var image := Positions(settings, n, weight, slot, id);
            weight in Below(image) && cursor in Below(image) && MakesCursor(settings, slot, n, cursor.op)
  {
    var image := Positions(settings, n, weight, slot, id);
    var gathered := if settings.graphRows > 1 then image.args[0] else image;
    var column := gathered.args[1].args[0];
    var positions := column.args[0];
    Deeper(gathered, 0, weight);
    if settings.graphRows > 1 {
      cursor := positions.args[0].args[0];
      Deeper(positions.args[0], 0, cursor);
      Deeper(positions, 0, cursor);
    } else {
      cursor := positions.args[1];
      Deeper(positions, 1, cursor);
    }
    Deeper(column, 0, cursor);
    Deeper(gathered.args[1], 0, cursor);
    Deeper(gathered, 1, cursor);
    if settings.graphRows > 1 {
      Deeper(image, 0, weight);
      Deeper(image, 0, cursor);
    }
  }

  lemma OperandReaches(settings: Settings, st: Progress, order: seq<Term>, j: nat, slot: nat, k: nat)
    requires j < |order| && Typed(order[j]) && Rewritten(settings, st, order, j, slot) && k < |order[j].args|
    ensures Image(st.remapped, order[j].args[k]) in Below(Image(st.remapped, order[j]))
  {
    var n := order[j];
    var image := st.remapped[n.id];
    if n.op.kind.PositionEmbedding? {
      var id: nat :| image == Positions(settings, n, Image(st.remapped, n.args[0]), slot, id);
      var cursor := PositionsReach(settings, n, Image(st.remapped, n.args[0]), slot, id);
    } else {
      assert image.args == Images(st.remapped, n.args);
      ArgBelow(image, k);
    }
  }

  /** The image of a node below is below the image. */
  lemma {:induction false} ImageReaches(settings: Settings, st: Progress, order: seq<Term>, slot: nat, n: Term, x: Term)
    requires Topological(order) && AllTyped(order) && n in order && x in Below(n)
    requires forall j :: 0 <= j < |order| ==> Rewritten(settings, st, order, j, slot)
    ensures Image(st.remapped, x) in Below(Image(st.remapped, n))
    decreases n
  {
    if x != n {
      var k := BelowAllSplits(n.args, x);
      var j :| 0 <= j < |order| && order[j] == n;
      assert Rewritten(settings, st, order, j, slot) && ArgsBefore(order, j);
      OperandReaches(settings, st, order, j, slot, k);
      ImageReaches(settings, st, order, slot, n.args[k], x);
      BelowTransitive(Image(st.remapped, n), Image(st.remapped, n.args[k]));
    }
  }

  // ----- Slots of the source and of the result

  /** Where the leaves of the result come from. */
  ghost predicate LeavesKnown(settings: Settings, slot: nat, source: set<Term>, result: set<Term>) {
    forall x :: x in result && Declared(x.op).Some? ==>
      (exists y :: y in source && y.op == x.op) || exists p :: p in source && MakesCursor(settings, slot, p, x.op)
  }

  ghost predicate LeavesKept(source: set<Term>, result: set<Term>) {
    forall y :: y in source && Declared(y.op).Some? ==> exists x :: x in result && x.op == y.op
  }

  ghost predicate CursorsMade(settings: Settings, slot: nat, source: set<Term>, result: set<Term>) {
    forall p :: p in source && p.op.kind.PositionEmbedding? ==> exists x :: x in result && MakesCursor(settings, slot, p, x.op)
  }

  /** A slot above all used ones, next after the highest. */
  ghost predicate FreshIn(nodes: set<Term>, slot: nat) {
    && (forall x, used: nat :: x in nodes && UsesSlot(x, used) ==> used < slot)
    && (slot > 0 ==> SlotUsedIn(nodes, slot - 1))
  }

  /** All position embeddings have their weights on one device. */
  ghost predicate OneDevice(nodes: set<Term>) {
    forall p, q :: p in nodes && q in nodes && p.op.kind.PositionEmbedding? && q.op.kind.PositionEmbedding? && p.args != [] && q.args != []
      ==> p.args[0].op.info.device == q.args[0].op.info.device
  }

  lemma CursorDeclares(settings: Settings, slot: nat, p: Term, q: Term, x: Term, y: Term)
    requires MakesCursor(settings, slot, p, x.op) && MakesCursor(settings, slot, q, y.op)
    ensures UsesSlot(x, slot) && UsesSlot(y, slot)
    ensures Declared(x.op) == Declared(y.op) <==> p.args[0].op.info.device == q.args[0].op.info.device
  {
  }

  lemma ResultAgrees(settings: Settings, slot: nat, source: set<Term>, result: set<Term>, x: Term, y: Term, used: nat)
    requires LeavesKnown(settings, slot, source, result) && FreshIn(source, slot) && SlotsValid(source) && OneDevice(source)
    requires x in result && y in result && UsesSlot(x, used) && UsesSlot(y, used)
    ensures Declared(x.op) == Declared(y.op)
  {
    if p :| p in source && MakesCursor(settings, slot, p, x.op) {
      CursorDeclares(settings, slot, p, p, x, x);
      if z :| z in source && z.op == y.op {
        assert UsesSlot(z, slot);
      } else {
        var q :| q in source && MakesCursor(settings, slot, q, y.op);
        CursorDeclares(settings, slot, p, q, x, y);
      }
    } else {
      var w :| w in source && w.op == x.op;
      assert UsesSlot(w, used);
      if q :| q in source && MakesCursor(settings, slot, q, y.op) {
        CursorDeclares(settings, slot, q, q, y, y);
      } else {
        var z :| z in source && z.op == y.op;
        assert UsesSlot(z, used);
      }
    }
  }

  lemma SlotStaysUsed(source: set<Term>, result: set<Term>, slot: nat)
    requires LeavesKept(source, result) && SlotUsedIn(source, slot)
    ensures SlotUsedIn(result, slot)
  {
    var y :| y in source && UsesSlot(y, slot);
    var x :| x in result && x.op == y.op;
    assert UsesSlot(x, slot);
  }

  lemma ResultDense(settings: Settings, slot: nat, source: set<Term>, result: set<Term>, x: Term, used: nat, lower: nat)
    requires LeavesKnown(settings, slot, source, result) && LeavesKept(source, result) && FreshIn(source, slot) && SlotsValid(source)
    requires x in result && UsesSlot(x, used) && lower < used
    ensures SlotUsedIn(result, lower)
  {
    if y :| y in source && y.op == x.op {
      assert UsesSlot(y, used);
    } else {
      var p :| p in source && MakesCursor(settings, slot, p, x.op);
      CursorDeclares(settings, slot, p, p, x, x);
      var last :| last in source && UsesSlot(last, slot - 1);
      assert lower < slot - 1 ==> SlotUsedIn(source, lower);
    }
    SlotStaysUsed(source, result, lower);
  }

  lemma SourceAgrees(settings: Settings, slot: nat, source: set<Term>, result: set<Term>)
    requires LeavesKept(source, result) && CursorsMade(settings, slot, source, result) && SlotsValid(result)
    ensures OneDevice(source)
    ensures forall x, y, used: nat | x in source && y in source && UsesSlot(x, used) && UsesSlot(y, used) :: Declared(x.op) == Declared(y.op)
  {
    forall x, y, used: nat | x in source && y in source && UsesSlot(x, used) && UsesSlot(y, used)
      ensures Declared(x.op) == Declared(y.op)
    {
      var v, w :| v in result && v.op == x.op && w in result && w.op == y.op;
      assert UsesSlot(v, used) && UsesSlot(w, used);
    }
    forall p, q | p in source && q in source && p.op.kind.PositionEmbedding? && q.op.kind.PositionEmbedding? && p.args != [] && q.args != []
      ensures p.args[0].op.info.device == q.args[0].op.info.device
    {
      var x, y :| x in result && MakesCursor(settings, slot, p, x.op) && y in result && MakesCursor(settings, slot, q, y.op);
      CursorDeclares(settings, slot, p, q, x, y);
    }
  }

  /** Slots below the cursor's come from the source. */
  lemma SlotWasUsed(settings: Settings, slot: nat, source: set<Term>, result: set<Term>, w: Term, lower: nat)
    requires LeavesKnown(settings, slot, source, result) && w in result && UsesSlot(w, lower) && lower < slot
    ensures SlotUsedIn(source, lower)
  {
    if p :| p in source && MakesCursor(settings, slot, p, w.op) {
      CursorDeclares(settings, slot, p, p, w, w);
      assert false;
    } else {
      var y :| y in source && y.op == w.op;
      assert UsesSlot(y, lower);
    }
  }

  lemma SourceDense(settings: Settings, slot: nat, source: set<Term>, result: set<Term>, x: Term, used: nat, lower: nat)
    requires LeavesKnown(settings, slot, source, result) && LeavesKept(source, result) && FreshIn(source, slot) && SlotsValid(result)
    requires x in source && UsesSlot(x, used) && lower < used
    ensures SlotUsedIn(source, lower)
  {
    var v :| v in result && v.op == x.op;
    assert UsesSlot(v, used);
    assert SlotUsedIn(result, lower);
    var w :| w in result && UsesSlot(w, lower);
    SlotWasUsed(settings, slot, source, result, w, lower);
  }

  /** The result has a valid slot table exactly when the source has one and asks for one cursor. */
  lemma SlotsStayValid(settings: Settings, slot: nat, source: set<Term>, result: set<Term>)
    requires LeavesKnown(settings, slot, source, result) && LeavesKept(source, result) && CursorsMade(settings, slot, source, result)
    requires FreshIn(source, slot)
    ensures SlotsValid(result) <==> SlotsValid(source) && OneDevice(source)
  {
    if SlotsValid(source) && OneDevice(source) {
      forall x, y, used: nat | x in result && y in result && UsesSlot(x, used) && UsesSlot(y, used)
        ensures Declared(x.op) == Declared(y.op)
      {
        ResultAgrees(settings, slot, source, result, x, y, used);
      }
      forall x, used: nat, lower: nat | x in result && UsesSlot(x, used) && lower < used
        ensures SlotUsedIn(result, lower)
      {
        ResultDense(settings, slot, source, result, x, used, lower);
      }
    }
    if SlotsValid(result) {
      SourceAgrees(settings, slot, source, result);
      forall x, used: nat, lower: nat | x in source && UsesSlot(x, used) && lower < used
        ensures SlotUsedIn(source, lower)
      {
        SourceDense(settings, slot, source, result, x, used, lower);
      }
    }
  }
}
