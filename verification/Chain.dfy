/**
  The indexed block chain as a value: the tree, the lists of blocks by height whose first entry marks
  the current chain, the stored contras and the head. `Consistent` is the invariant that ties all of
  it, and the network state, to the plain tree; each elementary step is shown to keep it.
 */
module Chain {
  import opened Primitives
  import opened Network
  import opened BlockTree
  import Undoing

  datatype HeadRef = HeadRef(block: U256, height: nat)

  type HeightIndex = map<nat, seq<U256>>

  datatype Chain = Chain(tree: Tree, byHeight: HeightIndex, contras: map<U256, seq<Change>>, head: HeadRef)

  predicate NoDuplicates(list: seq<U256>) {
    forall i, j :: 0 <= i < j < |list| ==> list[i] != list[j]
  }

  /** The list stored at `h` holds known blocks of height `h`, each once. */
  predicate ListOk(t: Tree, list: seq<U256>, h: nat) {
    && list != [] && NoDuplicates(list)
    && forall i :: 0 <= i < |list| ==> list[i] in t.height && t.height[list[i]] == h
  }

  /** Every height list holds exactly the known blocks of that height. */
  ghost predicate Indexed(t: Tree, byHeight: HeightIndex) {
    && (forall h {:trigger ListOk(t, byHeight[h], h)} :: h in byHeight ==> ListOk(t, byHeight[h], h))
    && (forall b {:trigger Listed(t, byHeight, b)} :: b in t.height ==> Listed(t, byHeight, b))
  }

  predicate Listed(t: Tree, byHeight: HeightIndex, b: U256)
    requires b in t.height
  {
    t.height[b] in byHeight && b in byHeight[t.height[b]]
  }

  /** The first entry at `h` is the head's ancestor there. */
  ghost predicate Marked(t: Tree, byHeight: HeightIndex, b: U256, h: nat)
    requires Rooted(t) && Node(t, b) && h <= Height(t, b)
  {
    IsFirst(byHeight, h, At(t, b, h))
  }

  ghost predicate CurrentChain(t: Tree, byHeight: HeightIndex, b: U256)
    requires Rooted(t) && Node(t, b)
  {
    forall h: nat {:trigger Marked(t, byHeight, b, h)} :: 1 <= h <= Height(t, b) ==> Marked(t, byHeight, b, h)
  }

  /** Stored contras are those of their blocks. */
  ghost predicate RightContras(t: Tree, contras: map<U256, seq<Change>>)
    requires Rooted(t)
  {
    forall c {:trigger RightContra(t, contras, c)} :: c in contras ==> RightContra(t, contras, c)
  }

  /** Every current block above the root has a contra. */
  ghost predicate HasContras(t: Tree, contras: map<U256, seq<Change>>, b: U256)
    requires Rooted(t) && Node(t, b)
  {
    forall h: nat {:trigger HasContra(t, contras, b, h)} :: 2 <= h <= Height(t, b) ==> HasContra(t, contras, b, h)
  }

  ghost predicate RightContra(t: Tree, contras: map<U256, seq<Change>>, c: U256)
    requires Rooted(t) && c in contras
  {
    c in t.height && contras[c] == ContraAt(t, c)
  }

  ghost predicate HasContra(t: Tree, contras: map<U256, seq<Change>>, b: U256, h: nat)
    requires Rooted(t) && Node(t, b) && h <= Height(t, b)
  {
    At(t, b, h) in contras
  }

  /** The indexes and the head agree with the tree, and the current chain can be undone. */
  ghost predicate Structured(c: Chain) {
    && Rooted(c.tree) && Indexed(c.tree, c.byHeight)
    && c.head.block in c.tree.height && c.tree.height[c.head.block] == c.head.height
    && CurrentChain(c.tree, c.byHeight, c.head.block)
    && HasContras(c.tree, c.contras, c.head.block)
  }

  /** The contras and the network state `n` are those of the blocks. */
  ghost predicate Faithful(c: Chain, n: Net)
    requires Structured(c)
  {
    RightContras(c.tree, c.contras) && n == Replay(c.tree, c.head.block)
  }

  ghost predicate Consistent(c: Chain, n: Net) {
    Structured(c) && Faithful(c, n)
  }

  /** Every block on the way down from `a` to its fork with `b` can be undone. */
  ghost predicate Undoable(t: Tree, a: U256, b: U256)
    requires Rooted(t) && Node(t, a) && Node(t, b)
  {
    forall h: nat {:trigger UndoableAt(t, a, h)} :: Fork(t, a, b) < h <= Height(t, a) ==> UndoableAt(t, a, h)
  }

  /** The block of a branch at a height can be undone. */
  ghost predicate UndoableAt(t: Tree, a: U256, h: nat)
    requires Rooted(t) && Node(t, a) && 0 < h <= Height(t, a)
  {
    AtHeight(t, a, h);
    Applicable(t, At(t, a, h))
  }

  // ---------------------------------------------------------------------------------------------
  // One step down
  // ---------------------------------------------------------------------------------------------

  /** The chain once the head was undone. */
  function Lowered(c: Chain): Chain
    requires c.head.block in c.tree.prev && c.head.height > 0
  {
    c.(head := HeadRef(c.tree.prev[c.head.block], c.head.height - 1))
  }

  lemma {:induction false} AtParent(t: Tree, b: U256, h: nat)
    requires Rooted(t) && b in t.height && t.height[b] > 1 && h < t.height[b]
    ensures Placed(t, b) && At(t, t.prev[b], h) == At(t, b, h)
  {
    assert Placed(t, b);
  }

  /** Undoing the head leaves the indexes in order. */
  lemma {:induction false} LoweredStructured(c: Chain)
    requires Structured(c) && c.head.height > 1
    ensures c.head.block in c.contras && c.head.block in c.tree.prev && Structured(Lowered(c))
  {
    var t, b := c.tree, c.head.block;
    assert Placed(t, b);
    assert HasContra(t, c.contras, b, c.head.height);
    var p := t.prev[b];
    forall h: nat | 1 <= h <= Height(t, p) ensures Marked(t, c.byHeight, p, h) {
      AtParent(t, b, h);
      assert Marked(t, c.byHeight, b, h);
    }
    forall h: nat | 2 <= h <= Height(t, p) ensures HasContra(t, c.contras, p, h) {
      AtParent(t, b, h);
      assert HasContra(t, c.contras, b, h);
    }
  }

  lemma {:induction false} StepDown(c: Chain, n: Net)
    requires Consistent(c, n) && c.head.height > 1 && Applicable(c.tree, c.head.block)
    ensures c.head.block in c.contras && c.head.block in c.tree.prev
    ensures Consistent(Lowered(c), Undo(n, c.contras[c.head.block]))
  {
    LoweredStructured(c);
    assert RightContra(c.tree, c.contras, c.head.block);
    UndoBlock(c.tree, c.head.block);
  }

  // ---------------------------------------------------------------------------------------------
  // Many steps down
  // ---------------------------------------------------------------------------------------------

  /** The network state `n` of `a` once the blocks above height `h` were undone with the stored contras. */
  ghost function Unwound(t: Tree, contras: map<U256, seq<Change>>, a: U256, h: nat, n: Net): Net
    requires Rooted(t) && a in t.height && 1 <= h <= Height(t, a) && HasContras(t, contras, a)
    decreases Height(t, a) - h
  {
    if h == Height(t, a) then n
    else
      assert HasContra(t, contras, a, h + 1);
      Undo(Unwound(t, contras, a, h + 1, n), contras[At(t, a, h + 1)])
  }

  /** Undoing blocks that can be undone leads back to the replay. */
  lemma {:induction false} UnwoundReplay(t: Tree, contras: map<U256, seq<Change>>, a: U256, h: nat)
    requires Rooted(t) && a in t.height && 1 <= h <= Height(t, a) && HasContras(t, contras, a) && RightContras(t, contras)
    requires forall g: nat {:trigger UndoableAt(t, a, g)} :: h < g <= Height(t, a) ==> UndoableAt(t, a, g)
    ensures Node(t, At(t, a, h)) && Unwound(t, contras, a, h, Replay(t, a)) == Replay(t, At(t, a, h))
    decreases Height(t, a) - h
  {
    AtHeight(t, a, h);
    if h < Height(t, a) {
      UnwoundReplay(t, contras, a, h + 1);
      assert HasContra(t, contras, a, h + 1) && UndoableAt(t, a, h + 1);
      UndoneOnce(t, contras, a, h + 1);
    }
  }

  lemma {:induction false} UndoneOnce(t: Tree, contras: map<U256, seq<Change>>, a: U256, h: nat)
    requires Rooted(t) && a in t.height && 2 <= h <= Height(t, a) && HasContra(t, contras, a, h) && RightContras(t, contras)
    requires UndoableAt(t, a, h)
    ensures Node(t, At(t, a, h)) && Node(t, At(t, a, h - 1))
    ensures Undo(Replay(t, At(t, a, h)), contras[At(t, a, h)]) == Replay(t, At(t, a, h - 1))
  {
    AtHeight(t, a, h);
    AtHeight(t, a, h - 1);
    AtPrev(t, a, h);
    assert RightContra(t, contras, At(t, a, h));
    UndoBlock(t, At(t, a, h));
  }

  lemma {:induction false} UnwoundValidators(t: Tree, contras: map<U256, seq<Change>>, a: U256, h: nat, n: Net)
    requires Rooted(t) && a in t.height && 1 <= h <= Height(t, a) && HasContras(t, contras, a)
    ensures Unwound(t, contras, a, h, n).validators == n.validators
    decreases Height(t, a) - h
  {
    if h < Height(t, a) {
      UnwoundValidators(t, contras, a, h + 1, n);
      assert HasContra(t, contras, a, h + 1);
      Undoing.UndoValidators(Unwound(t, contras, a, h + 1, n), contras[At(t, a, h + 1)]);
    }
  }

  /** The block of a branch at a height passes the duplicate rule. */
  ghost predicate FreshOn(t: Tree, a: U256, h: nat)
    requires Rooted(t) && Node(t, a) && 0 < h <= Height(t, a)
  {
    AtHeight(t, a, h);
    FreshAt(t, At(t, a, h))
  }

  /** The block of a branch at a height introduces a validator. */
  ghost predicate ValidatorOn(t: Tree, a: U256, h: nat)
    requires Rooted(t) && Node(t, a) && 0 < h <= Height(t, a)
  {
    AtHeight(t, a, h);
    assert Placed(t, At(t, a, h));
    AddsValidator(t.body[At(t, a, h)])
  }

  /** A validator introduced above height `h` is not there at `h`, but still is after undoing. */
  lemma {:induction false} ValidatorLeft(t: Tree, contras: map<U256, seq<Change>>, a: U256, h: nat, g: nat)
    requires Rooted(t) && a in t.height && 1 <= h < g <= Height(t, a) && HasContras(t, contras, a)
    requires FreshOn(t, a, g) && ValidatorOn(t, a, g)
    ensures Node(t, At(t, a, h)) && Unwound(t, contras, a, h, Replay(t, a)) != Replay(t, At(t, a, h))
  {
    AtHeight(t, a, h);
    AtHeight(t, a, g);
    AtHeight(t, a, g - 1);
    AtPrev(t, a, g);
    AtTrans(t, a, g - 1, h);
    var c, p := At(t, a, g), At(t, a, g - 1);
    assert Placed(t, c);
    var i :| 0 <= i < |t.body[c]| && t.body[c][i].NewValidator?;
    var id := t.body[c][i].vid;
    Undoing.ApplyValidators(Replay(t, p), t.body[c], id);
    ValidatorStays(t, a, g, id);
    if id in Replay(t, At(t, a, h)).validators { ValidatorStays(t, p, h, id); }
    UnwoundValidators(t, contras, a, h, Replay(t, a));
  }

  /** Undoing blocks that pass the duplicate rule leads back to the replay exactly when none of them
      introduces a validator. */
  lemma {:induction false} UnwoundIff(t: Tree, contras: map<U256, seq<Change>>, a: U256, h: nat)
    requires Rooted(t) && a in t.height && 1 <= h <= Height(t, a) && HasContras(t, contras, a) && RightContras(t, contras)
    requires forall g: nat {:trigger FreshOn(t, a, g)} :: h < g <= Height(t, a) ==> FreshOn(t, a, g)
    ensures Node(t, At(t, a, h))
    ensures Unwound(t, contras, a, h, Replay(t, a)) == Replay(t, At(t, a, h)) <==>
            forall g: nat {:trigger ValidatorOn(t, a, g)} :: h < g <= Height(t, a) ==> !ValidatorOn(t, a, g)
  {
    AtHeight(t, a, h);
    if g: nat :| h < g <= Height(t, a) && ValidatorOn(t, a, g) {
      assert FreshOn(t, a, g);
      ValidatorLeft(t, contras, a, h, g);
    } else {
      forall g: nat | h < g <= Height(t, a) ensures UndoableAt(t, a, g) { assert FreshOn(t, a, g) && !ValidatorOn(t, a, g); }
      UnwoundReplay(t, contras, a, h);
    }
  }

  // ---------------------------------------------------------------------------------------------
  // One step up
  // ---------------------------------------------------------------------------------------------

  /** Swaps entry `i` with the first. */
  function Fronted(list: seq<U256>, i: nat): seq<U256>
    requires i < |list|
  {
    list[0 := list[i]][i := list[0]]
  }

  lemma {:induction false} FrontedOk(t: Tree, list: seq<U256>, h: nat, i: nat)
    requires ListOk(t, list, h) && i < |list|
    ensures ListOk(t, Fronted(list, i), h) && Fronted(list, i)[0] == list[i] && Fronted(list, i)[i] == list[0]
    ensures |Fronted(list, i)| == |list| && forall k :: 0 < k < |list| && k != i ==> Fronted(list, i)[k] == list[k]
    ensures forall b :: b in Fronted(list, i) <==> b in list
  {
    var list' := Fronted(list, i);
    forall b | b in list ensures b in list' {
      var k :| 0 <= k < |list| && list[k] == b;
      assert list'[if k == 0 then i else if k == i then 0 else k] == b;
    }
  }

  /** The chain once child `b` of the head, entry `i` of its height list, was applied. */
  ghost function Raised(c: Chain, b: U256, i: nat, contra: seq<Change>): Chain
    requires b in c.tree.height
    requires c.tree.height[b] in c.byHeight && i < |c.byHeight[c.tree.height[b]]|
  {
    var h := c.tree.height[b];
    c.(byHeight := c.byHeight[h := Fronted(c.byHeight[h], i)],
       contras := c.contras[b := contra],
       head := HeadRef(b, h))
  }

  /** `b` is a child of the head, entry `i` of its height list. */
  ghost predicate IsNext(c: Chain, b: U256, i: nat)
    requires Structured(c)
  {
    && b in c.tree.height && c.tree.height[b] > 1 && Placed(c.tree, b) && c.tree.prev[b] == c.head.block
    && c.tree.height[b] in c.byHeight && i < |c.byHeight[c.tree.height[b]]| && c.byHeight[c.tree.height[b]][i] == b
  }

  lemma {:induction false} RaisedIndexed(t: Tree, byHeight: HeightIndex, h: nat, i: nat)
    requires Indexed(t, byHeight) && h in byHeight && i < |byHeight[h]|
    ensures Indexed(t, byHeight[h := Fronted(byHeight[h], i)])
  {
    assert ListOk(t, byHeight[h], h);
    FrontedOk(t, byHeight[h], h, i);
    var byHeight' := byHeight[h := Fronted(byHeight[h], i)];
    forall b | b in t.height ensures Listed(t, byHeight', b) {
      assert Listed(t, byHeight, b);
    }
    forall g | g in byHeight' ensures ListOk(t, byHeight'[g], g) {
      if g != h { assert ListOk(t, byHeight[g], g); }
    }
  }

  /** Applying a child of the head leaves the indexes in order, whatever contra is stored. */
  lemma {:induction false} RaisedStructured(c: Chain, b: U256, i: nat, contra: seq<Change>)
    requires Structured(c) && IsNext(c, b, i)
    ensures Structured(Raised(c, b, i, contra))
  {
    var t, p, hb := c.tree, c.head.block, c.tree.height[b];
    var c' := Raised(c, b, i, contra);
    RaisedIndexed(t, c.byHeight, hb, i);
    assert ListOk(t, c.byHeight[hb], hb);
    FrontedOk(t, c.byHeight[hb], hb, i);
    forall h: nat | 1 <= h <= hb ensures Marked(t, c'.byHeight, b, h) {
      if h < hb {
        AtParent(t, b, h);
        assert Marked(t, c.byHeight, p, h);
      }
    }
    forall h: nat | 2 <= h <= hb ensures HasContra(t, c'.contras, b, h) {
      if h < hb {
        AtParent(t, b, h);
        assert HasContra(t, c.contras, p, h);
      }
    }
  }

  lemma {:induction false} StepUp(c: Chain, n: Net, b: U256, i: nat)
    requires Consistent(c, n) && IsNext(c, b, i)
    ensures Consistent(Raised(c, b, i, Contra(n, c.tree.body[b])), Apply(n, c.tree.body[b]))
  {
    var contra := Contra(n, c.tree.body[b]);
    var c' := Raised(c, b, i, contra);
    RaisedStructured(c, b, i, contra);
    forall x | x in c'.contras ensures RightContra(c.tree, c'.contras, x) {
      if x != b { assert RightContra(c.tree, c.contras, x); }
    }
  }

  // ---------------------------------------------------------------------------------------------
  // Growing the tree
  // ---------------------------------------------------------------------------------------------

  /** Storing header and body of a block that is not known yet. */
  function Stored(t: Tree, b: U256, prev: U256, body: seq<Change>): Tree {
    t.(prev := t.prev[b := prev], body := t.body[b := body])
  }

  /** The tree with `b` known as a child of `prev`. */
  function Grown(t: Tree, b: U256, prev: U256, body: seq<Change>): Tree
    requires prev in t.height
  {
    Stored(t, b, prev, body).(height := t.height[b := t.height[prev] + 1])
  }

  /** A new block keeps its whole mutation, stands one above its parent, and changes nothing else. */
  lemma {:induction false} GrownMeans(t: Tree, b: U256, prev: U256, body: seq<Change>, x: U256)
    requires prev in t.height
    ensures var u := Grown(t, b, prev, body);
            && Lookup(u.body, x) == (if x == b then Some(body) else Lookup(t.body, x))
            && Lookup(u.prev, x) == (if x == b then Some(prev) else Lookup(t.prev, x))
            && Lookup(u.height, x) == (if x == b then Some(t.height[prev] + 1) else Lookup(t.height, x))
            && u.root == t.root
  {
  }

  lemma {:induction false} StoredRooted(t: Tree, b: U256, prev: U256, body: seq<Change>)
    requires Rooted(t) && b !in t.height
    ensures Rooted(Stored(t, b, prev, body)) && Grows(t, Stored(t, b, prev, body))
  {
    var u := Stored(t, b, prev, body);
    forall x | x in u.height ensures Placed(u, x) { assert Placed(t, x); }
  }

  lemma {:induction false} GrownRooted(t: Tree, b: U256, prev: U256, body: seq<Change>)
    requires Rooted(t) && b !in t.height && b != U256_ZERO && prev in t.height
    ensures Rooted(Grown(t, b, prev, body)) && Grows(t, Grown(t, b, prev, body))
  {
    var u := Grown(t, b, prev, body);
    assert Placed(t, prev);
    forall x | x in u.height ensures Placed(u, x) {
      if x != b { assert Placed(t, x); }
    }
  }

  /** The lists of one index start as those of the other. */
  ghost predicate SameMarks(byHeight: HeightIndex, byHeight': HeightIndex) {
    forall h {:trigger SameMark(byHeight, byHeight', h)} :: h in byHeight ==> SameMark(byHeight, byHeight', h)
  }

  predicate SameMark(byHeight: HeightIndex, byHeight': HeightIndex, h: nat)
    requires h in byHeight
  {
    h in byHeight' && byHeight[h] != [] && byHeight'[h] != [] && byHeight'[h][0] == byHeight[h][0]
  }

  /** More blocks in the store change nothing about those known before. */
  lemma {:induction false} ConsistentGrows(c: Chain, n: Net, u: Tree, byHeight: HeightIndex)
    requires Structured(c) && Rooted(u) && Grows(c.tree, u) && Indexed(u, byHeight)
    requires SameMarks(c.byHeight, byHeight)
    ensures Structured(c.(tree := u, byHeight := byHeight))
    ensures Faithful(c, n) ==> Faithful(c.(tree := u, byHeight := byHeight), n)
  {
    var t, b := c.tree, c.head.block;
    forall h: nat | 1 <= h <= Height(u, b) ensures Marked(u, byHeight, b, h) {
      GrowsAt(t, u, b, h);
      assert Marked(t, c.byHeight, b, h) && SameMark(c.byHeight, byHeight, h);
    }
    forall h: nat | 2 <= h <= Height(u, b) ensures HasContra(u, c.contras, b, h) {
      GrowsAt(t, u, b, h);
      assert HasContra(t, c.contras, b, h);
    }
    if Faithful(c, n) { FaithfulGrows(c, n, u); }
  }

  lemma {:induction false} FaithfulGrows(c: Chain, n: Net, u: Tree)
    requires Structured(c) && Faithful(c, n) && Rooted(u) && Grows(c.tree, u)
    ensures RightContras(u, c.contras) && Node(u, c.head.block) && n == Replay(u, c.head.block)
  {
    GrowsReplay(c.tree, u, c.head.block);
    forall x | x in c.contras ensures RightContra(u, c.contras, x) {
      assert RightContra(c.tree, c.contras, x);
      GrowsApplicable(c.tree, u, x);
    }
  }

  /** `b` heads the list of height `h`. */
  predicate IsFirst(byHeight: HeightIndex, h: nat, b: U256) {
    h in byHeight && byHeight[h] != [] && byHeight[h][0] == b
  }

  function ListAtHeight(byHeight: HeightIndex, h: nat): seq<U256> {
    if h in byHeight then byHeight[h] else []
  }

  /** A new block goes to the end of its height list. */
  lemma {:induction false} GrownIndexed(t: Tree, byHeight: HeightIndex, b: U256, prev: U256, body: seq<Change>)
    requires Rooted(t) && Indexed(t, byHeight) && b !in t.height && prev in t.height
    ensures var h := t.height[prev] + 1;
            var byHeight' := byHeight[h := ListAtHeight(byHeight, h) + [b]];
            && b !in ListAtHeight(byHeight, h)
            && Indexed(Grown(t, b, prev, body), byHeight')
            && SameMarks(byHeight, byHeight')
  {
    var h := t.height[prev] + 1;
    var u, list := Grown(t, b, prev, body), ListAtHeight(byHeight, h);
    var byHeight' := byHeight[h := list + [b]];
    assert h in byHeight ==> ListOk(t, byHeight[h], h);
    forall x | x in u.height ensures Listed(u, byHeight', x) {
      if x != b { assert Listed(t, byHeight, x); }
      else { assert (list + [b])[|list|] == b; }
    }
    forall g | g in byHeight' ensures ListOk(u, byHeight'[g], g) {
      if g in byHeight { assert ListOk(t, byHeight[g], g); }
    }
    forall g | g in byHeight ensures SameMark(byHeight, byHeight', g) {
      assert ListOk(t, byHeight[g], g);
    }
  }
}
