/**
  Choosing the blocks to send to a peer: those from its last known block up to a target, in an order
  in which it can add them. Headers are named by their hashes.
 */
module BlockSync {
  import opened Primitives
  import opened BlockTree
  import opened AncestorSearch
  import opened Chain
  import opened Database

  /** The blocks of the branch of `x` above height `lo`, up to height `hi`, lowest first. */
  ghost function Line(t: Tree, x: U256, lo: nat, hi: nat): seq<U256>
    requires Rooted(t) && Node(t, x) && lo <= hi <= Height(t, x)
  {
    seq<U256>(hi - lo, i requires 0 <= i < hi - lo => At(t, x, lo + 1 + i))
  }

  /** Below the fork, and only there, a branch runs along the head's. */
  lemma {:induction false} OnBranchIffBelowFork(t: Tree, head: U256, x: U256, h: nat)
    requires Rooted(t) && head in t.height && x in t.height && 1 <= h <= Height(t, x)
    ensures At(t, x, h) in t.height
    ensures OnBranch(t, head, At(t, x, h)) <==> h <= Fork(t, x, head)
  {
    AtHeight(t, x, h);
    var f := Fork(t, x, head);
    if h <= f { SharedBelow(t, x, head, f, h); }
    if f < h <= Height(t, head) { assert Differ(t, x, head, h); }
  }

  /** The block of the branch of `x` at height `h` heads the list of its height. */
  ghost predicate MarkedOn(c: Chain, x: U256, h: nat)
    requires Rooted(c.tree) && Node(c.tree, x) && h <= Height(c.tree, x)
  {
    IsFirst(c.byHeight, h, At(c.tree, x, h))
  }

  /** No block of the branch of `x` above the head still heads its list, as one does that the state was
      moved down from. Always so when the head has the greatest height. */
  ghost predicate NoStale(c: Chain, x: U256)
    requires Rooted(c.tree) && Node(c.tree, x)
  {
    forall h: nat {:trigger MarkedOn(c, x, h)} :: c.head.height < h <= Height(c.tree, x) ==> !MarkedOn(c, x, h)
  }

  /** The greatest height at or below `h` where the branch of `x` has a marked block. */
  ghost function MarkBelow(c: Chain, x: U256, h: nat): (m: nat)
    requires Rooted(c.tree) && Node(c.tree, x) && h <= Height(c.tree, x)
    ensures m <= h
  {
    if h == 0 || MarkedOn(c, x, h) then h else MarkBelow(c, x, h - 1)
  }

  /** The height of the first marked block met when descending from `x`. */
  ghost function Mark(c: Chain, x: U256): (m: nat)
    requires Rooted(c.tree) && Node(c.tree, x)
    ensures m <= Height(c.tree, x)
  {
    MarkBelow(c, x, Height(c.tree, x))
  }

  /** Up to the head's height the marked blocks of a branch are those below its fork with the head. */
  lemma {:induction false} MarkedIffBelowFork(c: Chain, x: U256, h: nat)
    requires Structured(c) && x in c.tree.height && 1 <= h <= Height(c.tree, x) && h <= c.head.height
    ensures MarkedOn(c, x, h) <==> h <= Fork(c.tree, x, c.head.block)
  {
    OnBranchIffBelowFork(c.tree, c.head.block, x, h);
    AtHeight(c.tree, x, h);
    assert Marked(c.tree, c.byHeight, c.head.block, h);
  }

  /** From a height at or above the fork, descending meets the fork unless a stale mark comes first. */
  lemma {:induction false} MarkBelowIs(c: Chain, x: U256, h: nat)
    requires Structured(c) && x in c.tree.height && Fork(c.tree, x, c.head.block) <= h <= Height(c.tree, x)
    ensures var m, f := MarkBelow(c, x, h), Fork(c.tree, x, c.head.block);
            && f <= m <= h
            && (m == f || (m > c.head.height && MarkedOn(c, x, m)))
            && forall g: nat {:trigger MarkedOn(c, x, g)} :: m < g <= h ==> !MarkedOn(c, x, g)
    decreases h
  {
    var f := Fork(c.tree, x, c.head.block);
    ForkAboveRoot(c.tree, x, c.head.block);
    if h <= c.head.height { MarkedIffBelowFork(c, x, h); }
    if h > f && !MarkedOn(c, x, h) { MarkBelowIs(c, x, h - 1); }
  }

  /** Descending to a marked block finds the latest common ancestor with the head exactly when no
      stale mark lies on the way; else it ends above the head. */
  lemma {:induction false} MarkIsFork(c: Chain, x: U256)
    requires Structured(c) && x in c.tree.height
    ensures Fork(c.tree, x, c.head.block) <= Mark(c, x) && 1 <= Mark(c, x) && MarkedOn(c, x, Mark(c, x))
    ensures if NoStale(c, x) then Mark(c, x) == Fork(c.tree, x, c.head.block) else Mark(c, x) > c.head.height
    ensures AtTip(c) ==> NoStale(c, x)
  {
    ForkAboveRoot(c.tree, x, c.head.block);
    MarkBelowIs(c, x, Height(c.tree, x));
    MarkedIffBelowFork(c, x, Fork(c.tree, x, c.head.block));
    if !NoStale(c, x) {
      var h: nat :| c.head.height < h <= Height(c.tree, x) && MarkedOn(c, x, h);
    }
  }

  /** The first marked block met when descending. */
  method LatestCommonAncestorWithCurrentChain(db: Database, hash: U256) returns (ancestor: Result<U256>)
    requires db.Linked() && hash != U256_ZERO
    ensures hash !in db.heights ==> ancestor == Err(NotFound)
    ensures hash in db.heights ==>
              ancestor == Ok(At(db.View().tree, hash, Mark(db.View(), hash))) && ancestor.value in db.heights
  {
    ghost var c := db.View();
    if hash in db.heights { KnownHasHeader(c, hash); }
    if hash !in db.headers { return Err(NotFound); }
    var cur := hash;
    if hash !in db.heights {
      var unknown := db.IsPartOfCurrentChain(hash);
      return Err(unknown.error);
    }
    MarkIsFork(c, hash);
    ghost var h: nat := Height(c.tree, hash);
    while true
      invariant 1 <= Mark(c, hash) <= h <= Height(c.tree, hash) && cur == At(c.tree, hash, h)
      invariant MarkBelow(c, hash, h) == Mark(c, hash)
      decreases h
    {
      var member := IsMarked(db, hash, h, cur);
      if member { return Ok(cur); }
      AtPrev(c.tree, hash, h);
      cur, h := db.headers[cur].prev, h - 1;
    }
  }

  /** The membership test on a block of a branch tells whether it is marked. */
  method IsMarked(db: Database, ghost x: U256, ghost h: nat, cur: U256) returns (member: bool)
    requires db.Linked() && x in db.heights && 1 <= h <= db.heights[x] && cur == At(db.View().tree, x, h)
    ensures cur in db.heights && cur in db.headers && cur != U256_ZERO && member == MarkedOn(db.View(), x, h)
  {
    ghost var c := db.View();
    AtHeight(c.tree, x, h);
    KnownHasHeader(c, cur);
    if h <= c.head.height {
      OnBranchIffBelowFork(c.tree, c.head.block, x, h);
      MarkedIffBelowFork(c, x, h);
    }
    var answer := db.IsPartOfCurrentChain(cur);
    member := answer.value;
  }

  /** Where descending from `target` stops, given the height `m` of the first mark: at the last known
      block or at the mark. */
  ghost predicate IsStop(t: Tree, m: nat, target: U256, lastKnown: U256, s: nat)
    requires Rooted(t) && target in t.height && m <= Height(t, target)
  {
    && m <= s <= Height(t, target) && (s == m || At(t, target, s) == lastKnown)
    && forall h {:trigger At(t, target, h)} :: s < h <= Height(t, target) ==> At(t, target, h) != lastKnown
  }

  function Max(a: int, b: int): int {
    if a < b then b else a
  }

  function Min(a: int, b: int): int {
    if a < b then a else b
  }

  /** What descending from `target` has collected down to height `h`, meeting no mark. */
  ghost predicate Descending(c: Chain, target: U256, lastKnown: U256, limit: nat, h: nat, cur: U256, down: seq<U256>)
    requires Structured(c) && target in c.tree.height
  {
    var t, top := c.tree, c.tree.height[target];
    && Mark(c, target) <= h <= top && MarkBelow(c, target, h) == Mark(c, target)
    && cur == At(t, target, h) && |down| == top - h <= limit
    && (forall i :: 0 <= i < |down| ==> down[i] == At(t, target, top - i))
    && (forall g {:trigger At(t, target, g)} :: h < g <= top ==> At(t, target, g) != lastKnown)
  }

  lemma {:induction false} DescendNext(c: Chain, target: U256, lastKnown: U256, limit: nat, h: nat, cur: U256, down: seq<U256>)
    requires Structured(c) && target in c.tree.height && Descending(c, target, lastKnown, limit, h, cur, down)
    requires h > 0 && |down| < limit && cur != lastKnown && !MarkedOn(c, target, h)
    ensures cur in c.tree.prev && Descending(c, target, lastKnown, limit, h - 1, c.tree.prev[cur], down + [cur])
  {
    AtPrev(c.tree, target, h);
  }

  /** The stop when the descent ended at a mark, at the last known block, or at the limit. */
  lemma {:induction false} DescendEnds(c: Chain, target: U256, lastKnown: U256, limit: nat, h: nat, cur: U256, down: seq<U256>, stopped: bool)
    requires Structured(c) && target in c.tree.height && Descending(c, target, lastKnown, limit, h, cur, down)
    requires if stopped then cur == lastKnown || MarkedOn(c, target, h) else |down| == limit
    ensures seq(|down|, i requires 0 <= i < |down| => down[|down| - 1 - i]) ==
            UnclePart(c.tree, target, StopAt(c, target, lastKnown), limit)
  {
    var m := Mark(c, target);
    StopUnique(c, target, lastKnown, if stopped then h else StopBelow(c.tree, m, target, lastKnown, h));
  }

  /** The blocks from `target` down to the last known block or a marked one; of more than `limit` the
      highest are kept. */
  method GetBlocksBefore(db: Database, target: U256, lastKnown: U256, limit: nat) returns (blocks: seq<U256>)
    requires db.Linked() && target in db.heights
    ensures var c := db.View(); blocks == UnclePart(c.tree, target, StopAt(c, target, lastKnown), limit)
  {
    ghost var c := db.View();
    ghost var h: nat := Height(c.tree, target);
    MarkIsFork(c, target);
    var down: seq<U256> := [];
    var cur := target;
    var stopped := false;
    while cur != U256_ZERO && |down| < limit && !stopped
      invariant Descending(c, target, lastKnown, limit, h, cur, down)
      invariant stopped ==> cur == lastKnown || MarkedOn(c, target, h)
      decreases h, !stopped
    {
      var member := IsMarked(db, target, h, cur);
      if cur == lastKnown || member {
        stopped := true;
      } else {
        DescendNext(c, target, lastKnown, limit, h, cur, down);
        down := down + [cur];
        cur, h := db.headers[cur].prev, h - 1;
      }
    }
    AtHeight(c.tree, target, h);
    DescendEnds(c, target, lastKnown, limit, h, cur, down, stopped);
    blocks := seq(|down|, i requires 0 <= i < |down| => down[|down| - 1 - i]);
  }

  /** Where the descent would have stopped. */
  ghost function StopBelow(t: Tree, m: nat, target: U256, lastKnown: U256, h: nat): (s: nat)
    requires Rooted(t) && target in t.height && m <= h <= Height(t, target)
    requires forall g {:trigger At(t, target, g)} :: h < g <= Height(t, target) ==> At(t, target, g) != lastKnown
    ensures IsStop(t, m, target, lastKnown, s) && s <= h
    decreases h
  {
    if h == m || At(t, target, h) == lastKnown then h else StopBelow(t, m, target, lastKnown, h - 1)
  }

  ghost function StopAt(c: Chain, target: U256, lastKnown: U256): (s: nat)
    requires Structured(c) && target in c.tree.height
    ensures Mark(c, target) <= Height(c.tree, target) && IsStop(c.tree, Mark(c, target), target, lastKnown, s)
  {
    MarkIsFork(c, target);
    StopBelow(c.tree, Mark(c, target), target, lastKnown, Height(c.tree, target))
  }

  lemma {:induction false} StopUnique(c: Chain, target: U256, lastKnown: U256, s: nat)
    requires Structured(c) && target in c.tree.height
    requires Mark(c, target) <= Height(c.tree, target) && IsStop(c.tree, Mark(c, target), target, lastKnown, s)
    ensures s == StopAt(c, target, lastKnown)
  {
    assert IsStop(c.tree, Mark(c, target), target, lastKnown, StopAt(c, target, lastKnown));
  }

  /** How far up the current chain the ascent from the fork goes: to the target if it is met, within
      the limit, and at most to the head. */
  ghost function LastSent(t: Tree, head: U256, from: nat, target: U256, limit: nat): nat
    requires Rooted(t) && head in t.height && from <= Height(t, head)
  {
    var end := Min(Height(t, head), from + limit);
    if target in t.height && OnBranch(t, head, target) && from < t.height[target] then Min(t.height[target], end) else end
  }

  /** What ascending the current chain from `start` has collected below height `h`. */
  ghost predicate Ascending(t: Tree, head: U256, target: U256, limit: nat, start: nat, h: nat, blocks: seq<U256>, found: bool)
    requires Rooted(t) && head in t.height
  {
    && start < h <= Height(t, head) + 1 && |blocks| == h - 1 - start <= limit
    && (forall i :: 0 <= i < |blocks| ==> blocks[i] == At(t, head, start + 1 + i))
    && (found <==> target in t.height && OnBranch(t, head, target) && start < t.height[target] < h)
    && (found ==> t.height[target] == h - 1)
  }

  /** The blocks of the current chain above the height of the first marked ancestor of the last known
      block: none if that is above the head. */
  method GetBlocksAfter(db: Database, lastKnown: U256, target: U256, limit: nat) returns (blocks: Result<seq<U256>>)
    requires db.Linked() && lastKnown != U256_ZERO
    ensures lastKnown !in db.heights ==> blocks == Err(NotFound)
    ensures lastKnown in db.heights ==> blocks == Ok(AfterPart(db.View(), lastKnown, target, limit))
  {
    var ancestor := LatestCommonAncestorWithCurrentChain(db, lastKnown);
    if ancestor.Err? { return Err(ancestor.error); }
    ghost var c := db.View();
    MarkIsFork(c, lastKnown);
    AtHeight(c.tree, lastKnown, Mark(c, lastKnown));
    var height := db.GetBlockHeight(ancestor.value);
    var list := Ascend(db, height.value, target, limit);
    blocks := Ok(list);
  }

  method Ascend(db: Database, start: nat, target: U256, limit: nat) returns (blocks: seq<U256>)
    requires db.Linked() && start >= 1
    ensures var t, head := db.View().tree, db.head.block;
            blocks == if start > db.head.height then [] else Line(t, head, start, LastSent(t, head, start, target, limit))
  {
    ghost var t, head := db.View().tree, db.head.block;
    blocks := [];
    if start > db.head.height { return; }
    var h := start + 1;
    var found := false;
    while h <= db.head.height && |blocks| < limit && !found
      invariant Ascending(t, head, target, limit, start, h, blocks, found)
      decreases db.head.height - h, !found
    {
      assert Marked(t, db.byHeight, head, h);
      AtHeight(t, head, h);
      var hash := db.byHeight[h][0];
      blocks := blocks + [hash];
      if hash == target { found := true; }
      h := h + 1;
    }
  }

  ghost function AfterPart(c: Chain, lastKnown: U256, target: U256, limit: nat): seq<U256>
    requires Structured(c) && lastKnown in c.tree.height
  {
    if NoStale(c, lastKnown) then ChainPart(c.tree, c.head.block, lastKnown, target, limit) else []
  }

  /** The stretch of the current chain sent for a target on it. */
  ghost function ChainPart(t: Tree, head: U256, lastKnown: U256, target: U256, limit: nat): seq<U256>
    requires Rooted(t) && head in t.height && lastKnown in t.height
  {
    var f := Fork(t, lastKnown, head);
    Line(t, head, f, LastSent(t, head, f, target, limit))
  }

  /** The blocks sent for a target off the current chain: its branch down to the stop `s`, after as
      much of the current chain as the limit leaves room for. */
  ghost function UnclePart(t: Tree, target: U256, s: nat, limit: nat): seq<U256>
    requires Rooted(t) && target in t.height && s <= Height(t, target)
  {
    Line(t, target, Max(s, Height(t, target) - limit), Height(t, target))
  }

  ghost function WithUncles(t: Tree, head: U256, lastKnown: U256, target: U256, s: nat, limit: nat): seq<U256>
    requires Rooted(t) && head in t.height && lastKnown in t.height && target in t.height && s <= Height(t, target)
  {
    var f := Fork(t, lastKnown, head);
    var uncles := UnclePart(t, target, s, limit);
    Line(t, head, f, Min(Height(t, head), f + limit - |uncles|)) + uncles
  }

  /** The blocks sent for a marked target, and for any other. */
  ghost function Between(c: Chain, lastKnown: U256, target: U256, limit: nat): seq<U256>
    requires Structured(c) && lastKnown in c.tree.height && target in c.tree.height
  {
    var s := StopAt(c, target, lastKnown);
    if MarkedOn(c, target, Height(c.tree, target)) then AfterPart(c, lastKnown, target, limit)
    else if NoStale(c, lastKnown) then WithUncles(c.tree, c.head.block, lastKnown, target, s, limit)
    else UnclePart(c.tree, target, s, limit)
  }

  /** The ascent is not cut short by a block that is not on the current chain. */
  lemma {:induction false} UncleNotMet(t: Tree, head: U256, lastKnown: U256, target: U256, s: nat, limit: nat)
    requires Rooted(t) && head in t.height && lastKnown in t.height && target in t.height
    requires Fork(t, target, head) <= s <= Height(t, target) && Fork(t, target, head) < Height(t, target)
    ensures var uncles := UnclePart(t, target, s, limit);
            var first := if uncles == [] then target else uncles[0];
            var f := Fork(t, lastKnown, head);
            LastSent(t, head, f, first, limit - |uncles|) == Min(Height(t, head), f + limit - |uncles|)
  {
    var lo := Max(s, Height(t, target) - limit);
    OnBranchIffBelowFork(t, head, target, Height(t, target));
    if lo < Height(t, target) { OnBranchIffBelowFork(t, head, target, lo + 1); }
  }

  lemma {:induction false} UnclesAppended(t: Tree, head: U256, lastKnown: U256, target: U256, s: nat, limit: nat)
    requires Rooted(t) && head in t.height && lastKnown in t.height && target in t.height
    requires Fork(t, target, head) <= s <= Height(t, target) && Fork(t, target, head) < Height(t, target)
    ensures var uncles := UnclePart(t, target, s, limit);
            var first := if uncles == [] then target else uncles[0];
            |uncles| <= limit &&
            WithUncles(t, head, lastKnown, target, s, limit) == ChainPart(t, head, lastKnown, first, limit - |uncles|) + uncles
  {
    UncleNotMet(t, head, lastKnown, target, s, limit);
  }

  lemma {:induction false} UnclesAfterChain(c: Chain, lastKnown: U256, target: U256, limit: nat)
    requires Structured(c) && lastKnown in c.tree.height && target in c.tree.height
    requires !MarkedOn(c, target, Height(c.tree, target))
    ensures var uncles := UnclePart(c.tree, target, StopAt(c, target, lastKnown), limit);
            var first := if uncles == [] then target else uncles[0];
            |uncles| <= limit && Between(c, lastKnown, target, limit) == AfterPart(c, lastKnown, first, limit - |uncles|) + uncles
  {
    MarkIsFork(c, target);
    var s := StopAt(c, target, lastKnown);
    var uncles := UnclePart(c.tree, target, s, limit);
    assert [] + uncles == uncles;
    assert Fork(c.tree, target, c.head.block) <= s && Fork(c.tree, target, c.head.block) < Height(c.tree, target);
    UnclesAppended(c.tree, c.head.block, lastKnown, target, s, limit);
  }

  /** For any other target: its own branch, after the stretch of the chain below it. */
  method GetUncles(db: Database, lastKnown: U256, target: U256, limit: nat) returns (blocks: Result<seq<U256>>)
    requires db.Linked() && lastKnown != U256_ZERO && target in db.heights
    requires !MarkedOn(db.View(), target, Height(db.View().tree, target))
    ensures lastKnown !in db.heights ==> blocks == Err(NotFound)
    ensures lastKnown in db.heights ==> blocks == Ok(Between(db.View(), lastKnown, target, limit))
  {
    var uncles := GetBlocksBefore(db, target, lastKnown, limit);
    var chainTarget := if uncles == [] then target else uncles[0];
    var chain := GetBlocksAfter(db, lastKnown, chainTarget, limit - |uncles|);
    if chain.Err? { return chain; }
    UnclesAfterChain(db.View(), lastKnown, target, limit);
    blocks := Ok(chain.value + uncles);
  }

  // ---------------------------------------------------------------------------------------------
  // A peer can add what it is sent
  // ---------------------------------------------------------------------------------------------

  /** The parent of entry `i` is known to the peer or comes earlier in the list. */
  ghost predicate Supplied(t: Tree, lastKnown: U256, list: seq<U256>, i: nat)
    requires Rooted(t) && lastKnown in t.height && i < |list|
  {
    && list[i] in t.height && list[i] in t.prev
    && (t.prev[list[i]] in list[..i] || (t.prev[list[i]] in t.height && OnBranch(t, lastKnown, t.prev[list[i]])))
  }

  ghost predicate Deliverable(t: Tree, lastKnown: U256, list: seq<U256>)
    requires Rooted(t) && lastKnown in t.height
  {
    forall i {:trigger Supplied(t, lastKnown, list, i)} :: 0 <= i < |list| ==> Supplied(t, lastKnown, list, i)
  }

  /** A stretch of a branch continues `list`: its first parent is supplied, the others are in it. */
  lemma {:induction false} AppendLine(t: Tree, lastKnown: U256, list: seq<U256>, x: U256, lo: nat, hi: nat)
    requires Rooted(t) && lastKnown in t.height && x in t.height && 1 <= lo <= hi <= Height(t, x)
    requires Deliverable(t, lastKnown, list)
    requires At(t, x, lo) in list || (At(t, x, lo) in t.height && OnBranch(t, lastKnown, At(t, x, lo))) || lo == hi
    ensures Deliverable(t, lastKnown, list + Line(t, x, lo, hi))
  {
    var line := Line(t, x, lo, hi);
    var all := list + line;
    forall i | 0 <= i < |all| ensures Supplied(t, lastKnown, all, i) {
      if i < |list| {
        assert Supplied(t, lastKnown, list, i);
        assert all[..i] == list[..i];
      } else {
        var h := lo + 1 + i - |list|;
        assert all[i] == line[i - |list|] == At(t, x, h);
        AtHeight(t, x, h);
        AtPrev(t, x, h);
        if i == |list| {
          assert all[..i] == list;
        } else {
          assert all[..i][i - 1] == line[i - 1 - |list|] == At(t, x, h - 1);
        }
      }
    }
  }

  lemma {:induction false} ForkOnBranch(t: Tree, x: U256, y: U256, h: nat)
    requires Rooted(t) && x in t.height && y in t.height && 1 <= h <= Fork(t, x, y)
    ensures At(t, y, h) in t.height && OnBranch(t, x, At(t, y, h))
  {
    SharedBelow(t, x, y, Fork(t, x, y), h);
    AtHeight(t, x, h);
  }

  /** A target on the current chain: the blocks after the fork in order, the first `limit` of them,
      each the child of the one before and the first a child of a block the peer has. */
  lemma {:induction false} ChainIsDeliverable(t: Tree, head: U256, lastKnown: U256, target: U256, limit: nat)
    requires Rooted(t) && head in t.height && lastKnown in t.height && target in t.height
    requires OnBranch(t, head, target)
    ensures var f := Fork(t, lastKnown, head);
            var list := ChainPart(t, head, lastKnown, target, limit);
            && Deliverable(t, lastKnown, list)
            && (f < Height(t, target) ==> |list| == Min(limit, Height(t, target) - f))
            && (f < Height(t, target) <= f + limit ==> list[|list| - 1] == target)
  {
    var f := Fork(t, lastKnown, head);
    ForkAboveRoot(t, lastKnown, head);
    ForkOnBranch(t, lastKnown, head, f);
    var line := Line(t, head, f, LastSent(t, head, f, target, limit));
    AppendLine(t, lastKnown, [], head, f, LastSent(t, head, f, target, limit));
    assert [] + line == line;
  }

  /** The parent of the lowest block sent of the target's own branch: supplied by the chain stretch, or
      the peer has it. */
  ghost predicate Reached(t: Tree, head: U256, lastKnown: U256, target: U256, s: nat, limit: nat)
    requires Rooted(t) && head in t.height && lastKnown in t.height && target in t.height && s <= Height(t, target)
  {
    var own := Height(t, target) - s;
    if own <= limit then At(t, target, s) == lastKnown || s <= Fork(t, lastKnown, head) + limit - own
    else Height(t, target) - limit <= Fork(t, target, lastKnown)
  }

  /** A target off the current chain: unless it is known already or nothing may be sent, the list ends
      with it, and can be added entry by entry exactly when the lowest block of the target's own branch
      is reached. */
  lemma {:induction false} UnclesDeliverableIff(t: Tree, head: U256, lastKnown: U256, target: U256, s: nat, limit: nat)
    requires Rooted(t) && head in t.height && lastKnown in t.height && target in t.height
    requires IsStop(t, Fork(t, target, head), target, lastKnown, s)
    ensures var list := WithUncles(t, head, lastKnown, target, s, limit);
            if s < Height(t, target) && limit > 0 then
              && list != [] && list[|list| - 1] == target
              && (Deliverable(t, lastKnown, list) <==> Reached(t, head, lastKnown, target, s, limit))
            else Deliverable(t, lastKnown, list)
  {
    var f, lo := Fork(t, lastKnown, head), Max(s, Height(t, target) - limit);
    var uncles := UnclePart(t, target, s, limit);
    var end := Min(Height(t, head), f + limit - |uncles|);
    var chain := Line(t, head, f, end);
    ForkAboveRoot(t, lastKnown, head);
    ForkAboveRoot(t, target, head);
    ForkOnBranch(t, lastKnown, head, f);
    AppendLine(t, lastKnown, [], head, f, end);
    assert [] + chain == chain;
    if lo < Height(t, target) {
      FirstParent(t, lastKnown, chain, target, lo);
      StopSupplied(t, head, lastKnown, target, s, lo, end);
    } else {
      assert chain + uncles == chain;
    }
  }

  /** What is appended of a branch is supplied exactly when its first parent is. */
  lemma {:induction false} FirstParent(t: Tree, lastKnown: U256, list: seq<U256>, x: U256, lo: nat)
    requires Rooted(t) && lastKnown in t.height && x in t.height && 1 <= lo < Height(t, x) && Deliverable(t, lastKnown, list)
    ensures At(t, x, lo) in t.height
    ensures Deliverable(t, lastKnown, list + Line(t, x, lo, Height(t, x))) <==>
            At(t, x, lo) in list || OnBranch(t, lastKnown, At(t, x, lo))
  {
    AtHeight(t, x, lo);
    AtPrev(t, x, lo + 1);
    var all := list + Line(t, x, lo, Height(t, x));
    assert all[|list|] == At(t, x, lo + 1) && all[..|list|] == list;
    if At(t, x, lo) in list || OnBranch(t, lastKnown, At(t, x, lo)) {
      AppendLine(t, lastKnown, list, x, lo, Height(t, x));
    } else {
      assert !Supplied(t, lastKnown, all, |list|);
    }
  }

  /** A branch meets a stretch of another where they share a block. */
  lemma {:induction false} InLine(t: Tree, x: U256, h: nat, y: U256, lo: nat, hi: nat)
    requires Rooted(t) && x in t.height && y in t.height && h <= Height(t, x) && lo <= hi <= Height(t, y)
    ensures At(t, x, h) in Line(t, y, lo, hi) <==> lo < h <= hi && At(t, x, h) == At(t, y, h)
  {
    var line := Line(t, y, lo, hi);
    if At(t, x, h) in line {
      var i :| 0 <= i < |line| && line[i] == At(t, x, h);
      SharedSameHeight(t, x, y, h, lo + 1 + i);
    }
    if lo < h <= hi { assert line[h - lo - 1] == At(t, y, h); }
  }

  /** The first parent of the target's own branch is in the chain stretch or known exactly when reached. */
  lemma {:induction false} StopSupplied(t: Tree, head: U256, lastKnown: U256, target: U256, s: nat, lo: nat, end: nat)
    requires Rooted(t) && head in t.height && lastKnown in t.height && target in t.height
    requires 1 <= s <= lo < Height(t, target) && Fork(t, lastKnown, head) <= end <= Height(t, head)
    requires IsStop(t, Fork(t, target, head), target, lastKnown, s)
    ensures At(t, target, lo) in t.height
    ensures At(t, target, lo) in Line(t, head, Fork(t, lastKnown, head), end) || OnBranch(t, lastKnown, At(t, target, lo)) <==>
            if lo == s then At(t, target, s) == lastKnown || s <= end else lo <= Fork(t, target, lastKnown)
  {
    var f := Fork(t, lastKnown, head);
    AtHeight(t, target, lo);
    InLine(t, target, lo, head, f, end);
    if lo > s {
      assert lo <= Height(t, head) ==> Differ(t, target, head, lo);
      OnBranchIffBelowFork(t, lastKnown, target, lo);
    } else if At(t, target, s) != lastKnown {
      if s <= f { ForkOnBranch(t, lastKnown, head, s); }
      if f < s <= Height(t, lastKnown) { assert Differ(t, lastKnown, head, s); }
    }
  }

  // ---------------------------------------------------------------------------------------------
  // What a peer is sent
  // ---------------------------------------------------------------------------------------------

  /** For a target on the current chain: the blocks above the fork in order, up to the target, or to the
      head when the peer has the target, and at most `limit`. */
  ghost predicate SentOnChain(t: Tree, head: U256, lastKnown: U256, target: U256, limit: nat, list: seq<U256>)
    requires Rooted(t) && head in t.height && lastKnown in t.height && target in t.height
  {
    var f := Fork(t, lastKnown, head);
    var top := if f < t.height[target] then t.height[target] else t.height[head];
    && Deliverable(t, lastKnown, list)
    && |list| == (if top - f <= limit then top - f else limit)
    && (forall i :: 0 <= i < |list| && f + 1 + i <= t.height[head] ==> list[i] == At(t, head, f + 1 + i))
    && (f < t.height[target] <= f + limit ==> list != [] && list[|list| - 1] == target)
  }

  /** For any other target: as much of the current chain above the fork as the limit leaves room for, then
      the highest blocks of the target's own branch above `s`, its highest block known to be the last
      known one or shared with the chain. Every parent comes earlier or is known exactly when the lowest
      of its own blocks sits on one that does. */
  ghost predicate SentOffChain(t: Tree, head: U256, lastKnown: U256, target: U256, limit: nat, s: nat, list: seq<U256>)
    requires Rooted(t) && head in t.height && lastKnown in t.height && target in t.height
  {
    var f, top := Fork(t, lastKnown, head), t.height[target];
    && Fork(t, target, head) <= s <= top && (s == Fork(t, target, head) || At(t, target, s) == lastKnown)
    && (forall h {:trigger At(t, target, h)} :: s < h <= top ==> At(t, target, h) != lastKnown)
    && (var own := if top - s <= limit then top - s else limit;
        var shared := if t.height[head] - f <= limit - own then t.height[head] - f else limit - own;
        && |list| == shared + own
        && (forall i :: 0 <= i < shared && f + 1 + i <= t.height[head] ==> list[i] == At(t, head, f + 1 + i))
        && (forall i :: shared <= i < |list| ==> list[i] == At(t, target, top - |list| + 1 + i))
        && (Deliverable(t, lastKnown, list) <==>
              || own == 0
              || (if top - s <= limit then At(t, target, s) == lastKnown || s <= f + limit - (top - s)
                  else top - limit <= Fork(t, target, lastKnown))))
  }

  /** When an old mark is met on the way down from the last known block, no block of the chain is sent. */
  ghost predicate SentAlone(t: Tree, head: U256, lastKnown: U256, target: U256, limit: nat, list: seq<U256>)
    requires Rooted(t) && head in t.height && lastKnown in t.height && target in t.height
  {
    && |list| <= limit && |list| <= t.height[target] - Fork(t, target, head)
    && (forall i :: 0 <= i < |list| ==> list[i] == At(t, target, t.height[target] - |list| + 1 + i) != lastKnown)
    && (|list| == limit || |list| == t.height[target] - Fork(t, target, head) || At(t, target, t.height[target] - |list|) == lastKnown)
  }

  lemma {:induction false} MarkedHead(c: Chain, target: U256)
    requires Structured(c) && target in c.tree.height && (OnBranch(c.tree, c.head.block, target) || NoStale(c, target))
    ensures MarkedOn(c, target, Height(c.tree, target)) <==> OnBranch(c.tree, c.head.block, target)
  {
    assert Placed(c.tree, target);
    if Height(c.tree, target) <= c.head.height {
      assert Marked(c.tree, c.byHeight, c.head.block, Height(c.tree, target));
    }
  }

  lemma {:induction false} OnChainList(c: Chain, lastKnown: U256, target: U256, limit: nat)
    requires Structured(c) && lastKnown in c.tree.height && target in c.tree.height
    requires NoStale(c, lastKnown) && OnBranch(c.tree, c.head.block, target)
    ensures SentOnChain(c.tree, c.head.block, lastKnown, target, limit, Between(c, lastKnown, target, limit))
  {
    MarkedHead(c, target);
    ChainIsDeliverable(c.tree, c.head.block, lastKnown, target, limit);
  }

  lemma {:induction false} OffChainList(c: Chain, lastKnown: U256, target: U256, limit: nat)
    requires Structured(c) && lastKnown in c.tree.height && target in c.tree.height
    requires NoStale(c, lastKnown) && NoStale(c, target) && !OnBranch(c.tree, c.head.block, target)
    ensures exists s :: SentOffChain(c.tree, c.head.block, lastKnown, target, limit, s, Between(c, lastKnown, target, limit))
  {
    MarkIsFork(c, target);
    MarkedHead(c, target);
    var s := StopAt(c, target, lastKnown);
    UnclesDeliverableIff(c.tree, c.head.block, lastKnown, target, s, limit);
    OffChainParts(c.tree, c.head.block, lastKnown, target, limit, s);
    assert SentOffChain(c.tree, c.head.block, lastKnown, target, limit, s, Between(c, lastKnown, target, limit));
  }

  lemma {:induction false} OffChainParts(t: Tree, head: U256, lastKnown: U256, target: U256, limit: nat, s: nat)
    requires Rooted(t) && head in t.height && lastKnown in t.height && target in t.height
    requires IsStop(t, Fork(t, target, head), target, lastKnown, s)
    ensures SentOffChain(t, head, lastKnown, target, limit, s, WithUncles(t, head, lastKnown, target, s, limit))
  {
    UnclesDeliverableIff(t, head, lastKnown, target, s, limit);
  }

  /** The blocks between the last known one and the target. */
  method GetBlocksBetween(db: Database, lastKnown: U256, target: U256, limit: nat) returns (blocks: Result<seq<U256>>)
    requires db.Linked() && lastKnown != U256_ZERO
    ensures lastKnown !in db.heights || target !in db.heights ==> blocks == Err(NotFound)
    ensures lastKnown in db.heights && target in db.heights ==> blocks == Ok(Between(db.View(), lastKnown, target, limit))
    ensures lastKnown in db.heights && target in db.heights && NoStale(db.View(), lastKnown) ==>
              var t, head := db.View().tree, db.head.block;
              && blocks.Ok?
              && (OnBranch(t, head, target) ==> SentOnChain(t, head, lastKnown, target, limit, blocks.value))
              && (!OnBranch(t, head, target) && NoStale(db.View(), target) ==>
                    exists s :: SentOffChain(t, head, lastKnown, target, limit, s, blocks.value))
    ensures lastKnown in db.heights && target in db.heights && !NoStale(db.View(), lastKnown) ==>
              var t, head := db.View().tree, db.head.block;
              && blocks.Ok?
              && (OnBranch(t, head, target) ==> blocks.value == [])
              && (!OnBranch(t, head, target) && NoStale(db.View(), target) ==> SentAlone(t, head, lastKnown, target, limit, blocks.value))
  {
    ghost var c := db.View();
    if target !in db.heights {
      var unknown := db.IsPartOfCurrentChain(target);
      return Err(unknown.error);
    }
    assert Placed(c.tree, target);
    var member := IsMarked(db, target, Height(c.tree, target), target);
    if member {
      blocks := GetBlocksAfter(db, lastKnown, target, limit);
    } else {
      blocks := GetUncles(db, lastKnown, target, limit);
    }
    SentList(c, lastKnown, target, limit);
  }

  lemma {:induction false} SentList(c: Chain, lastKnown: U256, target: U256, limit: nat)
    requires Structured(c) && target in c.tree.height
    ensures lastKnown in c.tree.height && NoStale(c, lastKnown) ==>
              var t, head, list := c.tree, c.head.block, Between(c, lastKnown, target, limit);
              && (OnBranch(t, head, target) ==> SentOnChain(t, head, lastKnown, target, limit, list))
              && (!OnBranch(t, head, target) && NoStale(c, target) ==>
                    exists s :: SentOffChain(t, head, lastKnown, target, limit, s, list))
    ensures lastKnown in c.tree.height && !NoStale(c, lastKnown) ==>
              var t, head, list := c.tree, c.head.block, Between(c, lastKnown, target, limit);
              && (OnBranch(t, head, target) ==> list == [])
              && (!OnBranch(t, head, target) && NoStale(c, target) ==> SentAlone(t, head, lastKnown, target, limit, list))
  {
    MarkIsFork(c, target);
    if OnBranch(c.tree, c.head.block, target) || NoStale(c, target) { MarkedHead(c, target); }
    if lastKnown in c.tree.height && NoStale(c, lastKnown) {
      if OnBranch(c.tree, c.head.block, target) { OnChainList(c, lastKnown, target, limit); }
      else if NoStale(c, target) { OffChainList(c, lastKnown, target, limit); }
    }
  }

  /** A gap: with room for one block only, the target alone is sent, without its parent. */
  lemma {:induction false} GapExample()
    ensures var t := Tree(1, map[1 := 0, 2 := 1, 3 := 1, 4 := 3, 5 := 2], map[1 := 1, 2 := 2, 3 := 2, 4 := 3, 5 := 3],
                          map[1 := [], 2 := [], 3 := [], 4 := [], 5 := []]);
            Rooted(t) && IsStop(t, Fork(t, 4, 5), 4, 1, 1) && !Deliverable(t, 1, WithUncles(t, 5, 1, 4, 1, 1))
  {
    var t := Tree(1, map[1 := 0, 2 := 1, 3 := 1, 4 := 3, 5 := 2], map[1 := 1, 2 := 2, 3 := 2, 4 := 3, 5 := 3],
                  map[1 := [], 2 := [], 3 := [], 4 := [], 5 := []]);
    assert Placed(t, 1) && Placed(t, 2) && Placed(t, 3) && Placed(t, 4) && Placed(t, 5);
    assert At(t, 4, 3) == 4 && At(t, 4, 2) == At(t, 3, 2) == 3 && At(t, 4, 1) == At(t, 3, 1) == At(t, 1, 1) == 1;
    assert At(t, 5, 3) == 5 && At(t, 5, 2) == At(t, 2, 2) == 2 && At(t, 5, 1) == At(t, 2, 1) == At(t, 1, 1) == 1;
    forall h: nat | 1 < h <= 3 ensures Differ(t, 4, 5, h) && At(t, 4, h) != 1 { assert h == 2 || h == 3; }
    ForkUnique(t, 4, 5, 1, Fork(t, 4, 5));
    ForkOwnBranch(t, 4, 1);
    UnclesDeliverableIff(t, 5, 1, 4, 1, 1);
  }
}
