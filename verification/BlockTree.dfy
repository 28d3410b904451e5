/**
  The tree blocks form through `prev`: ancestors by height, the fork of two branches, and the network
  state a branch stands for. This is the reference the indexed database is compared with.
 */
module BlockTree {
  import opened Primitives
  import opened Network
  import Undoing

  /** `height` is defined on the known blocks; `prev` and `body` may hold more. */
  datatype Tree = Tree(root: U256, prev: map<U256, U256>, height: map<U256, nat>, body: map<U256, seq<Change>>)

  /** A known block is a root at height 1 or one above its known parent; there is one root. */
  ghost predicate Rooted(t: Tree) {
    && U256_ZERO !in t.height
    && (forall b {:trigger Placed(t, b)} :: b in t.height ==> Placed(t, b))
  }

  predicate Placed(t: Tree, b: U256)
    requires b in t.height
  {
    && b in t.prev && b in t.body && t.height[b] >= 1
    && (t.height[b] == 1 <==> t.prev[b] == U256_ZERO)
    && (t.height[b] == 1 ==> b == t.root)
    && (t.height[b] > 1 ==> t.prev[b] in t.height && t.height[t.prev[b]] + 1 == t.height[b])
  }

  /** Known, or the nothing below the root. */
  predicate Node(t: Tree, b: U256) {
    b in t.height || b == U256_ZERO
  }

  function Height(t: Tree, b: U256): nat {
    if b in t.height then t.height[b] else 0
  }

  /** The ancestor of `b` (possibly itself) at height `h`. */
  ghost function At(t: Tree, b: U256, h: nat): U256
    requires Rooted(t) && Node(t, b) && h <= Height(t, b)
    decreases Height(t, b)
  {
    if h == Height(t, b) then b
    else
      assert Placed(t, b);
      At(t, t.prev[b], h)
  }

  lemma {:induction false} AtHeight(t: Tree, b: U256, h: nat)
    requires Rooted(t) && Node(t, b) && h <= Height(t, b)
    ensures Node(t, At(t, b, h)) && Height(t, At(t, b, h)) == h
    ensures At(t, b, h) == U256_ZERO <==> h == 0
    ensures h > 0 ==> At(t, b, h) in t.height
    decreases Height(t, b)
  {
    if b in t.height { assert Placed(t, b); }
    if h != Height(t, b) { AtHeight(t, t.prev[b], h); }
  }

  lemma {:induction false} AtPrev(t: Tree, b: U256, h: nat)
    requires Rooted(t) && Node(t, b) && 0 < h <= Height(t, b)
    ensures At(t, b, h) in t.prev && t.prev[At(t, b, h)] == At(t, b, h - 1)
    decreases Height(t, b)
  {
    assert Placed(t, b);
    if h != Height(t, b) { AtPrev(t, t.prev[b], h); }
  }

  lemma {:induction false} AtTrans(t: Tree, b: U256, h: nat, g: nat)
    requires Rooted(t) && Node(t, b) && g <= h <= Height(t, b)
    ensures Node(t, At(t, b, h)) && Height(t, At(t, b, h)) == h && At(t, At(t, b, h), g) == At(t, b, g)
    decreases Height(t, b)
  {
    AtHeight(t, b, h);
    if h != Height(t, b) {
      assert Placed(t, b);
      AtTrans(t, t.prev[b], h, g);
    }
  }

  /** Branches that share a block share everything below it. */
  lemma {:induction false} SharedBelow(t: Tree, a: U256, b: U256, h: nat, g: nat)
    requires Rooted(t) && Node(t, a) && Node(t, b) && g <= h <= Height(t, a) && h <= Height(t, b)
    requires At(t, a, h) == At(t, b, h)
    ensures At(t, a, g) == At(t, b, g)
  {
    AtTrans(t, a, h, g);
    AtTrans(t, b, h, g);
  }

  lemma {:induction false} SharedRoot(t: Tree, a: U256, b: U256)
    requires Rooted(t) && a in t.height && b in t.height
    ensures Height(t, a) >= 1 && Height(t, b) >= 1 && At(t, a, 1) == At(t, b, 1)
  {
    assert Placed(t, a) && Placed(t, b);
    AtHeight(t, a, 1);
    AtHeight(t, b, 1);
    assert Placed(t, At(t, a, 1)) && Placed(t, At(t, b, 1));
  }

  /** The branches hold different blocks at height `h`. */
  ghost predicate Differ(t: Tree, a: U256, b: U256, h: nat)
    requires Rooted(t) && Node(t, a) && Node(t, b) && h <= Height(t, a) && h <= Height(t, b)
  {
    At(t, a, h) != At(t, b, h)
  }

  /** `f` is the height of the latest common ancestor of `a` and `b`. */
  ghost predicate IsFork(t: Tree, a: U256, b: U256, f: nat)
    requires Rooted(t) && Node(t, a) && Node(t, b)
  {
    && f <= Height(t, a) && f <= Height(t, b)
    && At(t, a, f) == At(t, b, f)
    && forall h {:trigger Differ(t, a, b, h)} :: f < h <= Height(t, a) && h <= Height(t, b) ==> Differ(t, a, b, h)
  }

  /** The highest shared height at or below `top`. */
  ghost function ForkBelow(t: Tree, a: U256, b: U256, top: nat): nat
    requires Rooted(t) && Node(t, a) && Node(t, b) && top <= Height(t, a) && top <= Height(t, b)
  {
    if top == 0 || At(t, a, top) == At(t, b, top) then top else ForkBelow(t, a, b, top - 1)
  }

  lemma {:induction false} ForkBelowIsFork(t: Tree, a: U256, b: U256, top: nat)
    requires Rooted(t) && Node(t, a) && Node(t, b) && top <= Height(t, a) && top <= Height(t, b)
    requires forall h {:trigger Differ(t, a, b, h)} :: top < h <= Height(t, a) && h <= Height(t, b) ==> Differ(t, a, b, h)
    ensures IsFork(t, a, b, ForkBelow(t, a, b, top))
  {
    if top == 0 {
      AtHeight(t, a, 0);
      AtHeight(t, b, 0);
    } else if At(t, a, top) != At(t, b, top) {
      ForkBelowIsFork(t, a, b, top - 1);
    }
  }

  /** Height of the latest common ancestor. */
  ghost function Fork(t: Tree, a: U256, b: U256): (f: nat)
    requires Rooted(t) && Node(t, a) && Node(t, b)
    ensures IsFork(t, a, b, f)
  {
    var top := if Height(t, a) <= Height(t, b) then Height(t, a) else Height(t, b);
    ForkBelowIsFork(t, a, b, top);
    ForkBelow(t, a, b, top)
  }

  lemma {:induction false} ForkUnique(t: Tree, a: U256, b: U256, f: nat, g: nat)
    requires Rooted(t) && Node(t, a) && Node(t, b) && IsFork(t, a, b, f) && IsFork(t, a, b, g)
    ensures f == g
  {
    assert (f < g ==> Differ(t, a, b, g)) && (g < f ==> Differ(t, a, b, f));
  }

  /** Blocks at different heights are different, so a shared block sits at one height of both. */
  lemma {:induction false} SharedSameHeight(t: Tree, a: U256, b: U256, h: nat, g: nat)
    requires Rooted(t) && Node(t, a) && Node(t, b) && h <= Height(t, a) && g <= Height(t, b)
    requires At(t, a, h) == At(t, b, g)
    ensures h == g
  {
    AtHeight(t, a, h);
    AtHeight(t, b, g);
  }

  // ---------------------------------------------------------------------------------------------
  // Ancestors
  // ---------------------------------------------------------------------------------------------

  /** A block and everything reached from it through `prev`. */
  ghost function Ancestors(t: Tree, b: U256): set<U256>
    requires Rooted(t) && Node(t, b)
    decreases Height(t, b)
  {
    if b == U256_ZERO then {}
    else
      assert Placed(t, b);
      {b} + Ancestors(t, t.prev[b])
  }

  /** They are the blocks that the branch holds at their own height. */
  lemma {:induction false} AncestorsAre(t: Tree, b: U256, x: U256)
    requires Rooted(t) && Node(t, b)
    ensures x in Ancestors(t, b) <==> x in t.height && t.height[x] <= Height(t, b) && At(t, b, t.height[x]) == x
    decreases Height(t, b)
  {
    if b != U256_ZERO {
      assert Placed(t, b);
      AncestorsAre(t, t.prev[b], x);
      if x in t.height && t.height[x] <= Height(t, b) { AtHeight(t, b, t.height[x]); }
    } else if x in t.height {
      assert Placed(t, x);
    }
  }

  // ---------------------------------------------------------------------------------------------
  // The state of a branch
  // ---------------------------------------------------------------------------------------------

  /** The network state after applying every block from the root to `b`. */
  ghost function Replay(t: Tree, b: U256): Net
    requires Rooted(t) && Node(t, b)
    decreases Height(t, b)
  {
    if b == U256_ZERO then EMPTY
    else
      assert Placed(t, b);
      Apply(Replay(t, t.prev[b]), t.body[b])
  }

  lemma {:induction false} ReplayNormal(t: Tree, b: U256)
    requires Rooted(t) && Node(t, b)
    ensures Normal(Replay(t, b))
    decreases Height(t, b)
  {
    if b != U256_ZERO {
      assert Placed(t, b);
      ReplayNormal(t, t.prev[b]);
      Undoing.ApplyNormal(Replay(t, t.prev[b]), t.body[b]);
    }
  }

  /** The mutation of `b` passes the duplicate rule at its parent. */
  ghost predicate FreshAt(t: Tree, b: U256)
    requires Rooted(t) && b in t.height
  {
    assert Placed(t, b);
    Fresh(Replay(t, t.prev[b]), t.body[b])
  }

  predicate AddsValidator(changes: seq<Change>) {
    exists i :: 0 <= i < |changes| && changes[i].NewValidator?
  }

  /** The mutation of `b` passes the duplicate rule at its parent and introduces no validator. */
  ghost predicate Applicable(t: Tree, b: U256)
    requires Rooted(t) && b in t.height
  {
    assert Placed(t, b);
    FreshAt(t, b) && !AddsValidator(t.body[b])
  }

  /** The contra that undoes `b`. */
  ghost function ContraAt(t: Tree, b: U256): seq<Change>
    requires Rooted(t) && b in t.height
  {
    assert Placed(t, b);
    Contra(Replay(t, t.prev[b]), t.body[b])
  }

  lemma {:induction false} UndoBlock(t: Tree, b: U256)
    requires Rooted(t) && b in t.height && Applicable(t, b)
    ensures Placed(t, b) && Undo(Replay(t, b), ContraAt(t, b)) == Replay(t, t.prev[b])
  {
    assert Placed(t, b);
    ReplayNormal(t, t.prev[b]);
    Undoing.UndoRestores(Replay(t, t.prev[b]), t.body[b]);
  }

  /** A validator stays for the rest of a branch. */
  lemma {:induction false} ValidatorStays(t: Tree, b: U256, h: nat, id: U160)
    requires Rooted(t) && Node(t, b) && h <= Height(t, b) && Node(t, At(t, b, h)) && id in Replay(t, At(t, b, h)).validators
    ensures id in Replay(t, b).validators
    decreases Height(t, b)
  {
    if h != Height(t, b) {
      assert Placed(t, b);
      ValidatorStays(t, t.prev[b], h, id);
      Undoing.ApplyValidators(Replay(t, t.prev[b]), t.body[b], id);
    }
  }

  // ---------------------------------------------------------------------------------------------
  // Growing the tree
  // ---------------------------------------------------------------------------------------------

  /** Every known block of `t` is the same block of `u`. */
  ghost predicate Grows(t: Tree, u: Tree) {
    forall b :: b in t.height ==>
      && b in u.height && u.height[b] == t.height[b]
      && (b in t.prev ==> b in u.prev && u.prev[b] == t.prev[b])
      && (b in t.body ==> b in u.body && u.body[b] == t.body[b])
  }

  lemma {:induction false} GrowsAt(t: Tree, u: Tree, b: U256, h: nat)
    requires Rooted(t) && Rooted(u) && Grows(t, u) && Node(t, b) && h <= Height(t, b)
    ensures Height(u, b) == Height(t, b) && At(u, b, h) == At(t, b, h)
    decreases Height(t, b)
  {
    if h != Height(t, b) {
      assert Placed(t, b);
      GrowsAt(t, u, t.prev[b], h);
    }
  }

  lemma {:induction false} GrowsReplay(t: Tree, u: Tree, b: U256)
    requires Rooted(t) && Rooted(u) && Grows(t, u) && Node(t, b)
    ensures Node(u, b) && Replay(u, b) == Replay(t, b)
    decreases Height(t, b)
  {
    if b != U256_ZERO {
      assert Placed(t, b) && Placed(u, b);
      GrowsReplay(t, u, t.prev[b]);
    }
  }

  lemma {:induction false} GrowsApplicable(t: Tree, u: Tree, b: U256)
    requires Rooted(t) && Rooted(u) && Grows(t, u) && b in t.height
    ensures Applicable(u, b) <==> Applicable(t, b)
    ensures ContraAt(u, b) == ContraAt(t, b)
  {
    assert Placed(t, b) && Placed(u, b);
    GrowsReplay(t, u, t.prev[b]);
  }
}
