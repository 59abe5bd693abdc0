/**
 * Which targets a reverse walk serves when there are checkpoints: those it reaches without entering the copied part
 * of any region. The copy of a region serves the same targets as the region.
 */
module Exposure {
  import opened Dag
  import opened ScalarGraph
  import opened Checkpoints

  /** The node numbered `t` has operands and lies inside the region of checkpoint `c`. */
  ghost predicate Inside(t: nat, c: Term) {
    exists x :: x in BelowAll(c.args) && x.id == t && x.args != []
  }

  /**
   * Wherever a walk from `root` meets a checkpoint whose region holds the target, the target is reached without the
   * checkpoint too, and is exposed to the walk over the region.
   */
  ghost predicate Exposed(t: nat, root: Term)
    decreases Height(root)
  {
    forall c :: c in Below(root) && c.op.kind.Checkpoint? && |c.args| == 1 && Inside(t, c) ==>
      && t in IdsOf(Outside(root, c.id))
      && (RegionIsLower(root, c); Exposed(t, c.args[0]))
  }

  lemma RegionIsLower(root: Term, c: Term)
    requires c in Below(root) && |c.args| == 1
    ensures Height(c.args[0]) < Height(root)
  {
    ArgBelow(c, 0);
    BelowTransitive(root, c);
  }

  /** Leaves are always exposed. */
  lemma LeavesAreExposed(leaf: Term, root: Term)
    requires forall x :: x in Below(root) && x.id == leaf.id ==> x.args == []
    ensures Exposed(leaf.id, root)
  {
    forall c | c in Below(root) && c.op.kind.Checkpoint? && |c.args| == 1
      ensures !Inside(leaf.id, c)
    {
      forall x | x in BelowAll(c.args) && x.id == leaf.id
        ensures x.args == []
      {
        var k := BelowAllSplits(c.args, x);
        ArgBelow(c, k);
        BelowTransitive(c, c.args[k]);
        BelowTransitive(root, c);
      }
    }
  }

  /** A target that is exposed to a walk is exposed to the walk over any region, whether it lies inside or not. */
  lemma ExposedToRegion(t: nat, root: Term, c: Term)
    requires Exposed(t, root) && c in Below(root) && c.op.kind.Checkpoint? && |c.args| == 1
    ensures Exposed(t, c.args[0])
  {
    if !Inside(t, c) {
      forall d | d in Below(c.args[0]) && d.op.kind.Checkpoint? && |d.args| == 1
        ensures !Inside(t, d)
      {
        forall x | x in BelowAll(d.args) && x.id == t
          ensures x.args == []
        {
          var k := BelowAllSplits(d.args, x);
          ArgBelow(d, k);
          BelowTransitive(d, d.args[k]);
          BelowTransitive(c.args[0], d);
          assert x in BelowAll(c.args) by {
            BelowAllHas(c.args, 0);
          }
        }
      }
    }
  }

  // ----- The copy as a mirror of the region

  /** A copied region, its ids all older than the copies. */
  ghost predicate Mirrored(region: seq<Term>, outside: set<nat>, copies: map<nat, Term>, shared: map<nat, Term>, first: nat, next: nat) {
    && Topological(region) && KeptDownwards(region, outside)
    && Copied(region, |region|, outside, copies, shared, first, next)
    && forall i :: 0 <= i < |region| ==> region[i].id < first
  }

  lemma ImageArgs(region: seq<Term>, outside: set<nat>, copies: map<nat, Term>, shared: map<nat, Term>, first: nat, next: nat, i: nat)
    requires Mirrored(region, outside, copies, shared, first, next) && i < |region|
    ensures Image(copies, region[i]).op == region[i].op
    ensures Image(copies, region[i]).args == Images(copies, region[i].args)
    ensures region[i].id in copies ==> Image(copies, region[i]).id >= first
  {
    var n := region[i];
    if Kept(n, outside) {
      KeptIsImage(region, outside, copies, shared, first, next, i);
      assert ArgsBefore(region, i);
      forall k | 0 <= k < |n.args|
        ensures Image(copies, n.args[k]) == n.args[k]
      {
        assert n.args[k] in region[..i];
        var j :| 0 <= j < i && region[j] == n.args[k];
        assert Kept(region[i].args[k], outside);
        KeptIsImage(region, outside, copies, shared, first, next, j);
      }
      assert Images(copies, n.args) == n.args;
    }
  }

  lemma ImageIsInjective(region: seq<Term>, outside: set<nat>, copies: map<nat, Term>, shared: map<nat, Term>, first: nat, next: nat,
                         i: nat, j: nat)
    requires Mirrored(region, outside, copies, shared, first, next) && i < |region| && j < |region|
    requires Image(copies, region[i]).id == Image(copies, region[j]).id
    ensures region[i].id == region[j].id
  {
    ImageArgs(region, outside, copies, shared, first, next, i);
    ImageArgs(region, outside, copies, shared, first, next, j);
  }

  lemma ArgIndex(region: seq<Term>, i: nat, k: nat) returns (j: nat)
    requires Topological(region) && i < |region| && k < |region[i].args|
    ensures j < i && region[j] == region[i].args[k]
  {
    assert ArgsBefore(region, i);
    assert region[i].args[k] in region[..i];
    j :| 0 <= j < i && region[j] == region[i].args[k];
  }

  /** What is below the image of a node is the image of something below the node. */
  lemma {:induction false} BelowImage(region: seq<Term>, outside: set<nat>, copies: map<nat, Term>, shared: map<nat, Term>, first: nat, next: nat,
                                      i: nat, y: Term) returns (x: nat)
    requires Mirrored(region, outside, copies, shared, first, next) && i < |region| && y in Below(Image(copies, region[i]))
    ensures x < |region| && region[x] in Below(region[i]) && Image(copies, region[x]) == y
    decreases i
  {
    var n := region[i];
    if y == Image(copies, n) {
      x := i;
    } else {
      ImageArgs(region, outside, copies, shared, first, next, i);
      var k := BelowAllSplits(Image(copies, n).args, y);
      var j := ArgIndex(region, i, k);
      x := BelowImage(region, outside, copies, shared, first, next, j, y);
      BelowAllHas(n.args, k);
    }
  }

  /** And conversely. */
  lemma {:induction false} ImageBelow(region: seq<Term>, outside: set<nat>, copies: map<nat, Term>, shared: map<nat, Term>, first: nat, next: nat,
                                      i: nat, x: Term)
    requires Mirrored(region, outside, copies, shared, first, next) && i < |region| && x in Below(region[i])
    ensures Image(copies, x) in Below(Image(copies, region[i]))
    decreases i
  {
    var n := region[i];
    if x != n {
      ImageArgs(region, outside, copies, shared, first, next, i);
      var k := BelowAllSplits(n.args, x);
      var j := ArgIndex(region, i, k);
      ImageBelow(region, outside, copies, shared, first, next, j, x);
      BelowAllHas(Image(copies, n).args, k);
    }
  }

  /** Paths that avoid a node are mirrored by paths that avoid its image. */
  lemma {:induction false} OutsideImage(region: seq<Term>, outside: set<nat>, copies: map<nat, Term>, shared: map<nat, Term>, first: nat, next: nat,
                                        i: nat, c: nat, y: Term)
    requires Mirrored(region, outside, copies, shared, first, next) && i < |region| && c < |region|
    requires y in Outside(region[i], region[c].id)
    ensures Image(copies, y) in Outside(Image(copies, region[i]), Image(copies, region[c]).id)
    decreases i
  {
    var n, avoid := region[i], region[c].id;
    if Image(copies, n).id == Image(copies, region[c]).id {
      ImageIsInjective(region, outside, copies, shared, first, next, i, c);
    } else if y != n {
      ImageArgs(region, outside, copies, shared, first, next, i);
      var k := OutsideAllSplits(n.args, avoid, y);
      var j := ArgIndex(region, i, k);
      OutsideImage(region, outside, copies, shared, first, next, j, c, y);
      OutsideAllHas(Image(copies, n).args, Image(copies, region[c]).id, k);
    }
  }

  lemma ImageOfTarget(copies: map<nat, Term>, region: seq<Term>, outside: set<nat>, shared: map<nat, Term>, first: nat, next: nat,
                      t: nat, x: nat)
    requires Mirrored(region, outside, copies, shared, first, next) && x < |region| && t < first
    ensures Image(copies, region[x]).id == t ==> Image(copies, region[x]) == region[x]
  {
    ImageArgs(region, outside, copies, shared, first, next, x);
  }

  lemma InsideImage(region: seq<Term>, outside: set<nat>, copies: map<nat, Term>, shared: map<nat, Term>, first: nat, next: nat,
                    t: nat, c: nat)
    requires Mirrored(region, outside, copies, shared, first, next) && c < |region| && t < first
    requires Inside(t, Image(copies, region[c]))
    ensures Inside(t, region[c])
  {
    var n, image := region[c], Image(copies, region[c]);
    var y :| y in BelowAll(image.args) && y.id == t && y.args != [];
    ImageArgs(region, outside, copies, shared, first, next, c);
    var k := BelowAllSplits(image.args, y);
    var j := ArgIndex(region, c, k);
    var x := BelowImage(region, outside, copies, shared, first, next, j, y);
    ImageOfTarget(copies, region, outside, shared, first, next, t, x);
    BelowAllHas(n.args, k);
  }

  /** A target exposed to a region's walk, and not copied, is exposed to the walk over the copy. */
  lemma {:induction false} ImageExposed(region: seq<Term>, outside: set<nat>, copies: map<nat, Term>, shared: map<nat, Term>, first: nat, next: nat,
                                        t: nat, i: nat)
    requires Mirrored(region, outside, copies, shared, first, next) && i < |region|
    requires Exposed(t, region[i]) && t < first && t !in copies
    ensures Exposed(t, Image(copies, region[i]))
    decreases Height(region[i])
  {
    var n, image := region[i], Image(copies, region[i]);
    forall d | d in Below(image) && d.op.kind.Checkpoint? && |d.args| == 1 && Inside(t, d)
      ensures t in IdsOf(Outside(image, d.id)) && Exposed(t, d.args[0])
    {
      var c := BelowImage(region, outside, copies, shared, first, next, i, d);
      ImageArgs(region, outside, copies, shared, first, next, c);
      InsideImage(region, outside, copies, shared, first, next, t, c);
      var y :| y in Outside(n, region[c].id) && y.id == t;
      OutsideImage(region, outside, copies, shared, first, next, i, c, y);
      RegionIsLower(n, region[c]);
      var j := ArgIndex(region, c, 0);
      ImageExposed(region, outside, copies, shared, first, next, t, j);
    }
  }
}
