/**
  The database: blocks, the caches over them and the network state, and the operations that add
  blocks and move the state along the block tree.
 */
module Database {
  import opened Primitives
  import opened Network
  import opened BlockTree
  import opened AncestorSearch
  import opened Chain
  import Store

  /** A block with the hash of its header and the merged mutation of its transactions. */
  datatype Block = Block(hash: U256, prev: U256, shard: U256, changes: seq<Change>)

  /** All blocks belong to one shard, or to none as an origin block does. */
  ghost predicate OneShard(headers: Headers, shard: U256) {
    forall b {:trigger headers[b].shard} :: b in headers ==> headers[b].shard == U256_ZERO || headers[b].shard == shard
  }

  ghost function Prevs(headers: Headers): map<U256, U256> {
    map b | b in headers :: headers[b].prev
  }

  lemma {:induction false} PrevsUpdated(headers: Headers, b: U256, header: Header)
    ensures Prevs(headers[b := header]) == Prevs(headers)[b := header.prev]
  {
  }

  /** No known block is higher than the head. */
  ghost predicate AtTip(c: Chain) {
    forall b :: b in c.tree.height ==> c.tree.height[b] <= c.head.height
  }

  /** `b` lies on the branch that ends in the head. */
  ghost predicate OnBranch(t: Tree, head: U256, b: U256)
    requires Rooted(t) && Node(t, head) && b in t.height
  {
    t.height[b] <= Height(t, head) && At(t, head, t.height[b]) == b
  }

  /** A height without blocks has no blocks above it. */
  lemma {:induction false} NoneHigher(t: Tree, byHeight: HeightIndex, h: nat)
    requires Rooted(t) && Indexed(t, byHeight) && ListAtHeight(byHeight, h + 1) == []
    ensures forall b :: b in t.height ==> t.height[b] <= h
  {
    forall b | b in t.height ensures t.height[b] <= h {
      if t.height[b] > h { LowerListed(t, byHeight, b, h + 1); }
    }
  }

  lemma {:induction false} LowerListed(t: Tree, byHeight: HeightIndex, b: U256, h: nat)
    requires Rooted(t) && Indexed(t, byHeight) && b in t.height && 1 <= h <= t.height[b]
    ensures ListAtHeight(byHeight, h) != []
  {
    AtHeight(t, b, h);
    assert Listed(t, byHeight, At(t, b, h));
  }

  lemma {:induction false} FirstListed(t: Tree, byHeight: HeightIndex, h: nat)
    requires Indexed(t, byHeight) && ListAtHeight(byHeight, h) != []
    ensures ListAtHeight(byHeight, h)[0] in t.height && t.height[ListAtHeight(byHeight, h)[0]] == h
  {
    assert ListOk(t, byHeight[h], h);
  }

  /** The known blocks above a height. */
  ghost function Above(heights: map<U256, nat>, h: nat): set<U256> {
    set b | b in heights && heights[b] > h
  }

  /** Keys in ascending order, as an ordered map is iterated. */
  method SortedKeys(m: map<nat, U256>) returns (keys: seq<nat>)
    ensures forall i, j :: 0 <= i < j < |keys| ==> keys[i] < keys[j]
    ensures forall k :: k in keys <==> k in m
  {
    keys := [];
    var todo := m.Keys;
    while todo != {}
      invariant todo <= m.Keys
      invariant forall i, j :: 0 <= i < j < |keys| ==> keys[i] < keys[j]
      invariant forall k :: k in keys <==> k in m && k !in todo
      invariant forall i, k :: 0 <= i < |keys| && k in todo ==> keys[i] < k
      decreases |todo|
    {
      var least := Least(todo);
      keys := keys + [least];
      todo := todo - {least};
    }
  }

  method Least(s: set<nat>) returns (k: nat)
    requires s != {}
    ensures k in s && forall j :: j in s ==> k <= j
  {
    k :| k in s;
    var todo := s - {k};
    while todo != {}
      invariant todo <= s && k in s
      invariant forall j :: j in s && j !in todo ==> k <= j
      decreases |todo|
    {
      var j :| j in todo;
      if j < k { k := j; }
      todo := todo - {j};
    }
  }

  /** The heights above `lo` up to `hi`, one after the other. */
  predicate Stretch(keys: seq<nat>, lo: nat, hi: nat) {
    lo <= hi && |keys| == hi - lo && forall i :: 0 <= i < |keys| ==> keys[i] == lo + 1 + i
  }

  /** The sorted keys of a stretch of heights are those heights one after the other. */
  lemma {:induction false} SortedStretch(keys: seq<nat>, lo: nat, hi: nat)
    requires lo <= hi
    requires forall i, j :: 0 <= i < j < |keys| ==> keys[i] < keys[j]
    requires forall k :: k in keys <==> lo < k <= hi
    ensures Stretch(keys, lo, hi)
    decreases hi - lo
  {
    if keys == [] {
      assert lo < hi ==> hi in keys;
    } else {
      var n := |keys| - 1;
      assert keys[n] in keys;
      LastIsGreatest(keys, hi);
      var init := keys[..n];
      forall k ensures k in init <==> lo < k <= hi - 1 {
        if k in init {
          var i :| 0 <= i < n && init[i] == k;
          assert keys[i] in keys && keys[i] < keys[n];
        }
        if lo < k <= hi - 1 {
          assert k in keys;
          var i :| 0 <= i < |keys| && keys[i] == k;
          assert init[i] == k;
        }
      }
      SortedStretch(init, lo, hi - 1);
      assert forall i :: 0 <= i < n ==> keys[i] == init[i];
    }
  }

  lemma {:induction false} LastIsGreatest(keys: seq<nat>, hi: nat)
    requires forall i, j :: 0 <= i < j < |keys| ==> keys[i] < keys[j]
    requires hi in keys && forall k :: k in keys ==> k <= hi
    ensures keys != [] && keys[|keys| - 1] == hi
  {
    var j :| 0 <= j < |keys| && keys[j] == hi;
    assert keys[|keys| - 1] in keys;
  }

  /** What walking a stretch of a branch needs to know about each block of it. */
  lemma {:induction false} BranchBlock(t: Tree, x: U256, f: nat, h: nat)
    requires Rooted(t) && Node(t, x) && f < h <= Height(t, x)
    ensures h in Branch(t, x, f) && Branch(t, x, f)[h] == At(t, x, h)
    ensures At(t, x, h) in t.height && t.height[At(t, x, h)] == h && Placed(t, At(t, x, h))
    ensures t.prev[At(t, x, h)] == At(t, x, h - 1)
  {
    AtHeight(t, x, h);
    AtPrev(t, x, h);
    assert Placed(t, At(t, x, h));
  }

  ghost function GenesisChain(genesis: Block): Chain {
    var g := genesis.hash;
    Chain(Tree(g, map[g := U256_ZERO], map[g := 1], map[g := genesis.changes]), map[1 := [g]], map[], HeadRef(g, 1))
  }

  lemma {:induction false} GenesisConsistent(genesis: Block)
    requires genesis.hash != U256_ZERO
    ensures Consistent(GenesisChain(genesis), Apply(EMPTY, genesis.changes))
  {
    var c := GenesisChain(genesis);
    var t, g := c.tree, genesis.hash;
    assert Placed(t, g) && Rooted(t);
    assert Replay(t, U256_ZERO) == EMPTY;
    assert Listed(t, c.byHeight, g);
    assert ListOk(t, [g], 1);
    assert Marked(t, c.byHeight, g, 1);
  }

  /** Recording a child of a known block. */
  ghost function Extended(c: Chain, block: Block): Chain
    requires block.prev in c.tree.height
  {
    var h := c.tree.height[block.prev] + 1;
    c.(tree := Grown(c.tree, block.hash, block.prev, block.changes),
       byHeight := c.byHeight[h := ListAtHeight(c.byHeight, h) + [block.hash]])
  }

  lemma {:induction false} ExtendedConsistent(c: Chain, n: Net, block: Block)
    requires Structured(c) && block.hash !in c.tree.height && block.hash != U256_ZERO && block.prev in c.tree.height
    ensures Structured(Extended(c, block)) && (Faithful(c, n) ==> Faithful(Extended(c, block), n))
    ensures block.hash !in ListAtHeight(c.byHeight, c.tree.height[block.prev] + 1)
  {
    GrownRooted(c.tree, block.hash, block.prev, block.changes);
    GrownIndexed(c.tree, c.byHeight, block.hash, block.prev, block.changes);
    ConsistentGrows(c, n, Extended(c, block).tree, Extended(c, block).byHeight);
  }

  /** Leaving behind the header of a block whose parent is not known. */
  ghost function Orphaned(c: Chain, block: Block): Chain {
    c.(tree := Stored(c.tree, block.hash, block.prev, block.changes))
  }

  lemma {:induction false} OrphanedConsistent(c: Chain, n: Net, block: Block)
    requires Structured(c) && block.hash !in c.tree.height
    ensures Structured(Orphaned(c, block)) && (Faithful(c, n) ==> Faithful(Orphaned(c, block), n))
  {
    StoredRooted(c.tree, block.hash, block.prev, block.changes);
    StoredIndexed(c.tree, c.byHeight, block.hash, block.prev, block.changes);
    ConsistentGrows(c, n, Orphaned(c, block).tree, c.byHeight);
  }

  lemma {:induction false} ExtendedAfterStoring(c: Chain, block: Block)
    requires block.prev in c.tree.height
    ensures Orphaned(Orphaned(c, block), block) == Orphaned(c, block)
    ensures Extended(Orphaned(c, block), block) == Extended(c, block)
  {
    assert c.tree.prev[block.hash := block.prev][block.hash := block.prev] == c.tree.prev[block.hash := block.prev];
    assert c.tree.body[block.hash := block.changes][block.hash := block.changes] == c.tree.body[block.hash := block.changes];
  }

  /** Every known block has its header stored. */
  lemma {:induction false} KnownHasHeader(c: Chain, b: U256)
    requires Structured(c) && b in c.tree.height
    ensures b in c.tree.prev && b in c.tree.body && b != U256_ZERO
  {
    assert Placed(c.tree, b);
  }

  class Database {
    const store: Store.NetworkStore
    const root: U256
    const shard: U256
    var headers: Headers
    var bodies: map<U256, seq<Change>>
    var heights: map<U256, nat>
    var byHeight: HeightIndex
    var contras: map<U256, seq<Change>>
    var head: HeadRef

    ghost function View(): Chain
      reads this
    {
      Chain(Tree(root, Prevs(headers), heights, bodies), byHeight, contras, head)
    }

    /** The indexes and the head are in order. */
    ghost predicate Linked()
      reads this, store
    {
      store.Valid() && Structured(View()) && OneShard(headers, shard)
    }

    /** And the network state is the replay of the head's branch. */
    ghost predicate Valid()
      reads this, store
    {
      Linked() && Faithful(View(), store.Abs())
    }

    /** An empty database opened with its genesis block, whose mutation is applied without a contra. */
    constructor (genesis: Block)
      requires genesis.hash != U256_ZERO && genesis.prev == U256_ZERO && genesis.shard == U256_ZERO
      ensures Valid() && fresh(store)
      ensures View() == GenesisChain(genesis) && shard == genesis.hash && headers.Keys == heights.Keys
      ensures heights == map[genesis.hash := 1] && bodies == map[genesis.hash := genesis.changes] && head == HeadRef(genesis.hash, 1)
      ensures store.Abs() == Apply(EMPTY, genesis.changes)
    {
      store := new Store.NetworkStore();
      root, shard := genesis.hash, genesis.hash;
      headers := map[genesis.hash := Header(genesis.prev, genesis.shard)];
      bodies := map[genesis.hash := genesis.changes];
      heights := map[genesis.hash := 1];
      byHeight := map[1 := [genesis.hash]];
      contras := map[];
      head := HeadRef(U256_ZERO, 0);
      new;
      var _ := store.Mutate(genesis.changes);
      head := HeadRef(genesis.hash, 1);
      GenesisConsistent(genesis);
      assert Prevs(headers) == map[genesis.hash := U256_ZERO];
    }

    /** The cached height of a block; the head's is at hand. */
    method GetBlockHeight(hash: U256) returns (height: Result<nat>)
      requires Linked()
      ensures height == if hash in heights then Ok(heights[hash]) else Err(NotFound)
    {
      if hash == head.block { return Ok(head.height); }
      return if hash in heights then Ok(heights[hash]) else Err(NotFound);
    }

    /** Whether the block heads the list of its height. Up to the head's height that is to be an
        ancestor of the head; above it, where nothing is one, an old mark still answers yes. */
    method IsPartOfCurrentChain(hash: U256) returns (member: Result<bool>)
      requires Linked()
      ensures hash !in heights ==> member == Err(NotFound)
      ensures hash in heights && heights[hash] <= head.height ==>
                && member == Ok(OnBranch(View().tree, head.block, hash))
                && member == Ok(hash in Ancestors(View().tree, head.block))
      ensures hash in heights && heights[hash] > head.height ==>
                !OnBranch(View().tree, head.block, hash) && member == Ok(IsFirst(byHeight, heights[hash], hash))
    {
      var height := GetBlockHeight(hash);
      if height.Err? { return Err(NotFound); }
      assert Listed(View().tree, byHeight, hash) && Placed(View().tree, hash);
      AncestorsAre(View().tree, head.block, hash);
      assert heights[hash] <= head.height ==> Marked(View().tree, byHeight, head.block, heights[hash]);
      return Ok(hash == byHeight[height.value][0]);
    }

    /** Records a block and its height; false when its header was there already. */
    method AddBlock(block: Block) returns (added: Result<bool>)
      requires Linked() && block.hash != U256_ZERO
      requires block.shard == U256_ZERO || block.shard == shard
      modifies this
      ensures Linked() && (old(Valid()) ==> Valid())
      ensures block.hash in old(headers) ==> added == Ok(false) && View() == old(View())
      ensures block.hash !in old(headers) && block.prev in old(heights) ==>
                added == Ok(true) && View() == Extended(old(View()), block)
      ensures block.hash !in old(headers) && block.prev !in old(heights) ==>
                added == Err(NotFound) && View() == Orphaned(old(View()), block)
      ensures headers.Keys == old(headers).Keys + {block.hash}
      ensures block.hash !in old(headers) ==>
                && bodies == old(bodies)[block.hash := block.changes]
                && headers == old(headers)[block.hash := Header(block.prev, block.shard)]
                && heights == if block.prev in old(heights) then old(heights)[block.hash := old(heights)[block.prev] + 1] else old(heights)
    {
      if block.hash in headers { return Ok(false); }
      ghost var c := View();
      StoreBlock(block);
      var height := GetBlockHeight(block.prev);
      if height.Err? { return Err(NotFound); }
      ExtendedAfterStoring(c, block);
      IndexBlock(block.hash, height.value + 1, block);
      return Ok(true);
    }

    /** Puts the header and the transactions. */
    method StoreBlock(block: Block)
      requires Linked() && block.hash !in headers && (block.shard == U256_ZERO || block.shard == shard)
      modifies `headers, `bodies
      ensures Linked() && View() == Orphaned(old(View()), block) && (old(Valid()) ==> Valid())
      ensures headers == old(headers)[block.hash := Header(block.prev, block.shard)] && block.hash !in heights
      ensures bodies == old(bodies)[block.hash := block.changes]
    {
      if block.hash in heights { KnownHasHeader(View(), block.hash); }
      OrphanedConsistent(View(), store.Abs(), block);
      PrevsUpdated(headers, block.hash, Header(block.prev, block.shard));
      headers := headers[block.hash := Header(block.prev, block.shard)];
      bodies := bodies[block.hash := block.changes];
    }

    /** Puts the stored block at the end of its height list and caches its height. */
    method IndexBlock(hash: U256, height: nat, ghost block: Block)
      requires Linked() && hash == block.hash != U256_ZERO && hash !in heights
      requires block.prev in heights && height == heights[block.prev] + 1
      requires View() == Orphaned(View(), block)
      modifies `byHeight, `heights
      ensures Linked() && View() == Extended(old(View()), block) && (old(Valid()) ==> Valid())
      ensures heights == old(heights)[hash := height]
    {
      ExtendedConsistent(View(), store.Abs(), block);
      var list := ListAtHeight(byHeight, height);
      if hash !in list { byHeight := byHeight[height := list + [hash]]; }
      heights := heights[hash := height];
    }

    /** Undoes the current block with its stored contra. */
    method UndoHead(b: U256, h: nat)
      requires Linked() && b == head.block && h == head.height > 1 && b in headers && b in contras
      modifies `head, store
      ensures Linked() && head == HeadRef(headers[b].prev, h - 1)
      ensures store.Abs() == Undo(old(store.Abs()), contras[b])
    {
      LoweredStructured(View());
      var header := headers[b];
      store.UndoMutate(contras[b]);
      head := HeadRef(header.prev, h - 1);
    }

    /** Swaps a block to the front of its height list. */
    method UpdateCurrentChain(h: nat, b: U256) returns (i: nat)
      requires h in byHeight && b in byHeight[h]
      modifies `byHeight
      ensures i < |old(byHeight)[h]| && old(byHeight)[h][i] == b
      ensures byHeight == old(byHeight)[h := Fronted(old(byHeight)[h], i)]
      ensures var list := old(byHeight)[h]; byHeight[h] == list[0 := b][i := list[0]]
    {
      var list := byHeight[h];
      ghost var k :| 0 <= k < |list| && list[k] == b;
      i := 0;
      while list[i] != b
        invariant i <= k
        decreases k - i
      {
        i := i + 1;
      }
      byHeight := byHeight[h := Fronted(list, i)];
    }

    /** Applies a child of the current block and makes it the current one. */
    method ApplyBlock(b: U256, h: nat)
      requires Linked() && b in heights && heights[b] == h > 1 && Placed(View().tree, b) && headers[b].prev == head.block
      modifies this, store
      ensures Linked() && head == HeadRef(b, h) && (old(Valid()) ==> Valid())
      ensures View().tree == old(View()).tree && headers == old(headers)
    {
      ghost var c, n := View(), store.Abs();
      assert Listed(c.tree, byHeight, b);
      var contra := store.Mutate(bodies[b]);
      contras := contras[b := contra];
      var i := UpdateCurrentChain(h, b);
      head := HeadRef(b, h);
      RaisedStructured(c, b, i, contra);
      assert View() == Raised(c, b, i, contra);
      if Faithful(c, n) { StepUp(c, n, b, i); }
    }

    /** Moves the network state to another block: undoes down to the fork and applies up from it.
        Returns how many blocks were undone. A state that was the replay of its branch stays so when
        every undone block can be undone; down the head's own branch, of blocks that pass the duplicate
        rule, it does exactly when no undone block introduces a validator. */
    method Walk(b: U256) returns (invalidated: Result<nat>)
      requires Linked() && b != U256_ZERO && (b in headers ==> b in heights)
      modifies this, store
      ensures Linked() && View().tree == old(View()).tree && headers == old(headers)
      ensures b !in old(heights) ==> invalidated == Err(NotFound) && View() == old(View()) && store.Abs() == old(store.Abs())
      ensures b in old(heights) ==>
                && head == HeadRef(b, old(heights)[b])
                && invalidated == Ok(old(head).height - Fork(old(View()).tree, old(head).block, b))
                && (old(Valid()) && Undoable(old(View()).tree, old(head).block, b) ==> Valid())
                && (old(Valid()) && Below(old(View()).tree, old(head).block, b) ==>
                      (store.Abs() == Replay(View().tree, b) <==> !AddsAbove(old(View()).tree, old(head).block, b)))
                && (OnBranch(View().tree, old(head).block, b) ==> byHeight == old(byHeight))
    {
      if head.block == b {
        ForkSelf(View().tree, b);
        return Ok(0);
      }
      if b in heights { KnownHasHeader(View(), b); }
      if b !in headers { return Err(NotFound); }
      var undone := WalkPath(b);
      return Ok(undone);
    }

    /** To another known block. */
    method WalkPath(b: U256) returns (undone: nat)
      requires Linked() && b in heights && b != head.block
      modifies this, store
      ensures Linked() && View().tree == old(View()).tree && headers == old(headers) && head == HeadRef(b, heights[b])
      ensures undone == old(head).height - Fork(View().tree, old(head).block, b)
      ensures old(Valid()) && Undoable(View().tree, old(head).block, b) ==> Valid()
      ensures old(Valid()) && Below(View().tree, old(head).block, b) ==>
                (store.Abs() == Replay(View().tree, b) <==> !AddsAbove(View().tree, old(head).block, b))
      ensures OnBranch(View().tree, old(head).block, b) ==> byHeight == old(byHeight)
    {
      ghost var t, n, held, valid, a := View().tree, store.Abs(), contras, Valid(), head.block;
      var down, up, downKeys, upKeys := FindPath(b);
      ghost var f := Fork(t, a, b);
      undone := |downKeys|;
      WalkDown(t, a, f, downKeys, down);
      if valid { Rewound(t, held, a, b, n); }
      if OnBranch(t, a, b) { ForkOwnBranch(t, a, b); }
      WalkUp(t, b, f, upKeys, up);
    }

    /** The blocks to undo and to apply, by height, with their heights in order. */
    method FindPath(b: U256) returns (down: map<nat, U256>, up: map<nat, U256>, downKeys: seq<nat>, upKeys: seq<nat>)
      requires Linked() && b in heights
      ensures var t, a := View().tree, head.block; var f := Fork(t, a, b);
              && f >= 1 && down == Branch(t, a, f) && up == Branch(t, b, f)
              && Stretch(downKeys, f, Height(t, a)) && Stretch(upKeys, f, Height(t, b))
    {
      ghost var t, a := View().tree, head.block;
      KnownHasHeader(View(), b);
      KnownHasHeader(View(), a);
      assert headers[a].shard == headers[b].shard || headers[a].shard == U256_ZERO || headers[b].shard == U256_ZERO;
      down, up := CalculateBlockPath(headers, t, head.block, b, head.height);
      ForkAboveRoot(t, a, b);
      downKeys := SortedKeys(down);
      upKeys := SortedKeys(up);
      SortedStretch(downKeys, Fork(t, a, b), Height(t, a));
      SortedStretch(upKeys, Fork(t, a, b), Height(t, b));
    }

    /** Undoes the listed blocks, highest first. */
    method WalkDown(ghost t: Tree, ghost a: U256, ghost f: nat, keys: seq<nat>, down: map<nat, U256>)
      requires Linked() && View().tree == t && head.block == a && 1 <= f <= Height(t, a)
      requires down == Branch(t, a, f) && Stretch(keys, f, Height(t, a))
      modifies `head, store
      ensures Linked() && head == HeadRef(At(t, a, f), f)
      ensures HasContras(t, contras, a) && store.Abs() == Unwound(t, contras, a, f, old(store.Abs()))
    {
      var i := |keys|;
      while i > 0
        invariant 0 <= i <= |keys|
        invariant Linked() && head == HeadRef(At(t, a, f + i), f + i)
        invariant HasContras(t, contras, a) && store.Abs() == Unwound(t, contras, a, f + i, old(store.Abs()))
      {
        i := i - 1;
        var h := keys[i];
        BranchBlock(t, a, f, h);
        assert HasContra(t, contras, a, h);
        UndoHead(down[h], h);
      }
    }

    /** Applies the listed blocks, lowest first. */
    method WalkUp(ghost t: Tree, ghost b: U256, ghost f: nat, keys: seq<nat>, up: map<nat, U256>)
      requires Linked() && View().tree == t && b in t.height && 1 <= f <= Height(t, b) && head == HeadRef(At(t, b, f), f)
      requires up == Branch(t, b, f) && Stretch(keys, f, Height(t, b))
      modifies this, store
      ensures Linked() && View().tree == t && headers == old(headers) && head == HeadRef(b, Height(t, b))
      ensures old(Valid()) ==> Valid()
      ensures keys == [] ==> View() == old(View()) && store.Abs() == old(store.Abs())
    {
      for i := 0 to |keys|
        invariant Linked() && View().tree == t && headers == old(headers)
        invariant head == HeadRef(At(t, b, f + i), f + i)
        invariant old(Valid()) ==> Valid()
        invariant i == 0 ==> View() == old(View()) && store.Abs() == old(store.Abs())
      {
        var h := keys[i];
        BranchBlock(t, b, f, h);
        ApplyBlock(up[h], h);
      }
    }

    /** The first block of the greatest known height; the current head if that is its height. */
    method FindChainHead() returns (choice: U256)
      requires Linked()
      ensures choice in heights && forall b :: b in heights ==> heights[b] <= heights[choice]
      ensures heights[choice] == head.height ==> choice == head.block
      ensures heights[choice] > head.height ==> IsFirst(byHeight, heights[choice], choice)
    {
      var height := head.height;
      choice := head.block;
      while true
        invariant choice in heights && heights[choice] == height >= head.height
        invariant height == head.height ==> choice == head.block
        invariant height > head.height ==> IsFirst(byHeight, height, choice)
        decreases Above(heights, height)
      {
        var blocks := ListAtHeight(byHeight, height + 1);
        if blocks == [] {
          NoneHigher(View().tree, byHeight, height);
          return;
        }
        FirstListed(View().tree, byHeight, height + 1);
        assert blocks[0] in Above(heights, height) && blocks[0] !in Above(heights, height + 1);
        choice, height := blocks[0], height + 1;
      }
    }

    /** Moves the network state to the greatest known height. */
    method WalkToHead() returns (invalidated: Result<nat>)
      requires Linked()
      modifies this, store
      ensures Linked() && View().tree == old(View()).tree && headers == old(headers) && AtTip(View())
      ensures old(AtTip(View())) ==> head == old(head)
      ensures old(head).height < head.height ==> IsFirst(old(byHeight), head.height, head.block)
      ensures invalidated.Ok?
      ensures old(Valid()) && Undoable(View().tree, old(head).block, head.block) ==> Valid()
    {
      var choice := FindChainHead();
      assert Placed(View().tree, choice);
      invalidated := Walk(choice);
    }

    /** Adding a block as the record keeper does: known blocks and blocks without a known parent are
        turned away, and the state then moves to the best block. */
    method Accept(block: Block) returns (added: Result<bool>)
      requires Linked() && AtTip(View()) && headers.Keys == heights.Keys
      requires block.hash != U256_ZERO && (block.shard == U256_ZERO || block.shard == shard)
      modifies this, store
      ensures Linked() && AtTip(View()) && headers.Keys == heights.Keys
      ensures block.hash in old(heights) ==> added == Ok(false) && View() == old(View())
      ensures block.hash !in old(heights) && block.prev !in old(heights) ==> added == Err(NotFound) && View() == old(View())
      ensures block.hash !in old(heights) && block.prev in old(heights) ==>
                && added == Ok(true) && View().tree == Grown(old(View()).tree, block.hash, block.prev, block.changes)
                && head == (if old(heights)[block.prev] == old(head).height then HeadRef(block.hash, old(head).height + 1) else old(head))
      ensures old(Valid()) && Node(View().tree, old(head).block) && Undoable(View().tree, old(head).block, head.block) ==> Valid()
    {
      if block.hash in headers { return Ok(false); }
      if block.prev !in headers { return Err(NotFound); }
      AddAndWalk(block);
      return Ok(true);
    }

    /** Records a new block with a known parent and moves the state to the best block. */
    method AddAndWalk(block: Block)
      requires Linked() && AtTip(View()) && headers.Keys == heights.Keys
      requires block.hash != U256_ZERO && (block.shard == U256_ZERO || block.shard == shard)
      requires block.hash !in heights && block.prev in heights
      modifies this, store
      ensures Linked() && AtTip(View()) && headers.Keys == heights.Keys
      ensures View().tree == Grown(old(View()).tree, block.hash, block.prev, block.changes)
      ensures head == (if old(heights)[block.prev] == old(head).height then HeadRef(block.hash, old(head).height + 1) else old(head))
      ensures old(Valid()) && Node(View().tree, old(head).block) && Undoable(View().tree, old(head).block, head.block) ==> Valid()
    {
      ExtendedTip(View(), block);
      var _ := AddBlock(block);
      var _ := WalkToHead();
    }
  }

  /** Stepping one block down from any head leaves an old mark: the block just undone is still said to
      be part of the current chain. */
  method StaleMark(db: Database) returns (member: Result<bool>)
    requires db.Linked() && db.head.height > 1
    modifies db, db.store
    ensures db.Linked() && db.View().tree == old(db.View()).tree && old(db.head).block in db.heights
    ensures !OnBranch(db.View().tree, db.head.block, old(db.head).block) && member == Ok(true)
  {
    ghost var t, h := db.View().tree, db.head.height;
    var top := db.head.block;
    KnownHasHeader(db.View(), top);
    assert Placed(t, top) && Marked(t, db.byHeight, top, h);
    assert At(t, top, h - 1) == db.headers[top].prev;
    var _ := db.Walk(db.headers[top].prev);
    member := db.IsPartOfCurrentChain(top);
  }

  /** `b` is on the branch of `a`, and every block above it passes the duplicate rule. */
  ghost predicate Below(t: Tree, a: U256, b: U256)
    requires Rooted(t) && a in t.height && b in t.height
  {
    && OnBranch(t, a, b)
    && forall h: nat {:trigger FreshOn(t, a, h)} :: t.height[b] < h <= t.height[a] ==> FreshOn(t, a, h)
  }

  /** A block of the branch of `a` above `b` introduces a validator. */
  ghost predicate AddsAbove(t: Tree, a: U256, b: U256)
    requires Rooted(t) && a in t.height && b in t.height
  {
    exists h: nat {:trigger ValidatorOn(t, a, h)} :: t.height[b] < h <= t.height[a] && ValidatorOn(t, a, h)
  }

  /** The fork of a block with one of its own branch is the lower one. */
  lemma {:induction false} ForkOwnBranch(t: Tree, a: U256, b: U256)
    requires Rooted(t) && a in t.height && b in t.height && OnBranch(t, a, b)
    ensures Fork(t, a, b) == t.height[b]
  {
    assert IsFork(t, a, b, t.height[b]);
    ForkUnique(t, a, b, t.height[b], Fork(t, a, b));
  }

  /** What undoing down to the fork makes of a replayed state. */
  lemma {:induction false} Rewound(t: Tree, contras: map<U256, seq<Change>>, a: U256, b: U256, n: Net)
    requires Rooted(t) && a in t.height && b in t.height && Fork(t, a, b) >= 1
    requires HasContras(t, contras, a) && RightContras(t, contras) && n == Replay(t, a)
    ensures var f := Fork(t, a, b);
            && Node(t, At(t, a, f))
            && (Undoable(t, a, b) ==> Unwound(t, contras, a, f, n) == Replay(t, At(t, a, f)))
            && (Below(t, a, b) ==>
                  && At(t, a, f) == b && f == t.height[b]
                  && (Unwound(t, contras, a, f, n) == Replay(t, b) <==> !AddsAbove(t, a, b)))
  {
    var f := Fork(t, a, b);
    AtHeight(t, a, f);
    if Undoable(t, a, b) { UnwoundReplay(t, contras, a, f); }
    if Below(t, a, b) {
      ForkOwnBranch(t, a, b);
      UnwoundIff(t, contras, a, f);
    }
  }

  /** Where the state stands before walk `i` of a sequence. */
  function Standing(from: U256, targets: seq<U256>, i: nat): U256
    requires i <= |targets|
  {
    if i == 0 then from else targets[i - 1]
  }

  /** Walk `i` of a sequence undoes only blocks that can be undone. */
  ghost predicate StepUndoable(t: Tree, from: U256, targets: seq<U256>, i: nat)
    requires Rooted(t) && from in t.height && i < |targets| && forall k :: 0 <= k < |targets| ==> targets[k] in t.height
  {
    Undoable(t, Standing(from, targets, i), targets[i])
  }

  ghost predicate AllUndoable(t: Tree, from: U256, targets: seq<U256>)
    requires Rooted(t) && from in t.height && forall k :: 0 <= k < |targets| ==> targets[k] in t.height
  {
    forall i: nat {:trigger StepUndoable(t, from, targets, i)} :: i < |targets| ==> StepUndoable(t, from, targets, i)
  }

  /** After every sequence of walks the indexes and the head are in order, and if each of them undid
      only blocks that can be undone, the network state is the replay from genesis to the last target. */
  method WalkAll(db: Database, targets: seq<U256>)
    requires db.Linked()
    requires forall i :: 0 <= i < |targets| ==> targets[i] in db.heights && targets[i] != U256_ZERO
    modifies db, db.store
    ensures db.Linked() && db.View().tree == old(db.View()).tree
    ensures db.head.block == Standing(old(db.head).block, targets, |targets|)
    ensures targets != [] ==> db.head.block == targets[|targets| - 1]
    ensures old(db.Valid()) && AllUndoable(old(db.View()).tree, old(db.head).block, targets) ==>
              db.Valid() && db.store.Abs() == Replay(db.View().tree, db.head.block)
  {
    ghost var t, from := db.View().tree, db.head.block;
    ghost var ok := db.Valid() && AllUndoable(t, from, targets);
    for i := 0 to |targets|
      invariant db.Linked() && db.View().tree == t && db.head.block == Standing(from, targets, i)
      invariant ok ==> db.Valid()
    {
      assert targets[i] in t.height;
      assert ok ==> StepUndoable(t, from, targets, i);
      WalkOne(db, targets[i]);
    }
  }

  /** One walk to a known block. */
  method WalkOne(db: Database, b: U256)
    requires db.Linked() && b in db.heights && b != U256_ZERO
    modifies db, db.store
    ensures db.Linked() && db.View().tree == old(db.View()).tree && db.head.block == b
    ensures old(db.Valid()) && Undoable(db.View().tree, old(db.head).block, b) ==> db.Valid()
  {
    var _ := db.Walk(b);
  }

  /** A new block outgrows a head at the tip exactly when its parent is as high as the head; it is then
      alone at its height. */
  lemma {:induction false} ExtendedTip(c: Chain, block: Block)
    requires Structured(c) && AtTip(c) && block.hash !in c.tree.height && block.prev in c.tree.height
    ensures var c' := Extended(c, block);
            && c'.tree.height[block.hash] <= c.head.height + 1
            && (c.tree.height[block.prev] < c.head.height ==> AtTip(c'))
            && (c.tree.height[block.prev] == c.head.height ==> !AtTip(c') && IsFirst(c'.byHeight, c.head.height + 1, block.hash))
            && (forall b :: b in c'.tree.height ==> c'.tree.height[b] <= c.head.height + 1)
  {
    var c' := Extended(c, block);
    assert c'.tree.height[block.hash] == c.tree.height[block.prev] + 1;
    if ListAtHeight(c.byHeight, c.head.height + 1) != [] { FirstListed(c.tree, c.byHeight, c.head.height + 1); }
  }

  lemma {:induction false} StoredIndexed(t: Tree, byHeight: HeightIndex, b: U256, prev: U256, body: seq<Change>)
    requires Indexed(t, byHeight)
    ensures Indexed(Stored(t, b, prev, body), byHeight)
    ensures SameMarks(byHeight, byHeight)
  {
    var u := Stored(t, b, prev, body);
    forall h | h in byHeight ensures ListOk(u, byHeight[h], h) { assert ListOk(t, byHeight[h], h); }
    forall x | x in u.height ensures Listed(u, byHeight, x) { assert Listed(t, byHeight, x); }
    forall h | h in byHeight ensures SameMark(byHeight, byHeight, h) { assert ListOk(t, byHeight[h], h); }
  }

  lemma {:induction false} ForkSelf(t: Tree, a: U256)
    requires Rooted(t) && Node(t, a)
    ensures Fork(t, a, a) == Height(t, a)
  {
    ForkUnique(t, a, a, Fork(t, a, a), Height(t, a));
  }

  /** The branches of one tree part at or above the root: the root is never undone. */
  lemma {:induction false} ForkAboveRoot(t: Tree, a: U256, b: U256)
    requires Rooted(t) && a in t.height && b in t.height
    ensures 1 <= Fork(t, a, b)
  {
    SharedRoot(t, a, b);
    var d := Differ(t, a, b, 1);
  }
}
