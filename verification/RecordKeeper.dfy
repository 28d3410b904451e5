/**
  Whole runs of the record keeper, against the naive reference `DummyRecordKeeper`: one map of blocks,
  a best block replaced only by a strictly higher one, a pool that each block takes its transactions
  from, and chain membership by walking back.
 */
module RecordKeeper {
  import opened Primitives
  import opened Network
  import opened BlockTree
  import opened Chain
  import opened Database

  // ---------------------------------------------------------------------------------------------
  // What a run of blocks amounts to
  // ---------------------------------------------------------------------------------------------

  datatype Known = Known(tree: Tree, best: HeadRef)

  /** One block offered: repeated and parentless ones change nothing, and first seen wins ties. */
  function Offer(k: Known, block: Block): Known {
    if block.hash in k.tree.height || block.prev !in k.tree.height then k
    else
      var h := k.tree.height[block.prev] + 1;
      Known(Grown(k.tree, block.hash, block.prev, block.changes),
            if k.best.height < h then HeadRef(block.hash, h) else k.best)
  }

  /** A block not known yet, below a known parent. */
  predicate New(k: Known, block: Block) {
    block.hash !in k.tree.height && block.prev in k.tree.height
  }

  function Root(genesis: Block): Known {
    var g := genesis.hash;
    Known(Tree(g, map[g := U256_ZERO], map[g := 1], map[g := genesis.changes]), HeadRef(g, 1))
  }

  function After(genesis: Block, blocks: seq<Block>): Known {
    if blocks == [] then Root(genesis)
    else Offer(After(genesis, blocks[..|blocks| - 1]), blocks[|blocks| - 1])
  }

  ghost predicate Genesis(genesis: Block) {
    genesis.hash != U256_ZERO && genesis.prev == U256_ZERO && genesis.shard == U256_ZERO
  }

  /** A block that could ever be offered: a hash that is not the zero marker, and the one shard. */
  predicate Offerable(genesis: Block, block: Block) {
    block.hash != U256_ZERO && (block.shard == U256_ZERO || block.shard == genesis.hash)
  }

  /** A genesis block, and blocks that could ever be offered. */
  ghost predicate Offered(genesis: Block, blocks: seq<Block>) {
    Genesis(genesis) && forall i :: 0 <= i < |blocks| ==> Offerable(genesis, blocks[i])
  }

  lemma {:induction false} AfterRooted(genesis: Block, blocks: seq<Block>)
    requires Offered(genesis, blocks)
    ensures var k := After(genesis, blocks);
            Rooted(k.tree) && k.best.block in k.tree.height && k.tree.height[k.best.block] == k.best.height
    ensures blocks != [] ==> After(genesis, blocks[..|blocks| - 1]).best.block in After(genesis, blocks).tree.height
  {
    if blocks == [] {
      GenesisConsistent(genesis);
    } else {
      var n := |blocks| - 1;
      AfterRooted(genesis, blocks[..n]);
      var k, block := After(genesis, blocks[..n]), blocks[n];
      if block.hash !in k.tree.height && block.prev in k.tree.height {
        GrownRooted(k.tree, block.hash, block.prev, block.changes);
      }
    }
  }

  /** The best block is a highest one, and any other of its height came after it was the best already. */
  lemma {:induction false} FirstSeen(genesis: Block, blocks: seq<Block>, x: U256)
    requires Offered(genesis, blocks) && x in After(genesis, blocks).tree.height
    ensures var k := After(genesis, blocks);
            && k.tree.height[x] <= k.best.height
            && (x != k.best.block && k.tree.height[x] == k.best.height ==>
                  exists i :: 0 <= i <= |blocks| && After(genesis, blocks[..i]).best == k.best && x !in After(genesis, blocks[..i]).tree.height)
  {
    AfterRooted(genesis, blocks);
    if blocks != [] {
      var n := |blocks| - 1;
      var k, k' := After(genesis, blocks[..n]), After(genesis, blocks);
      AfterRooted(genesis, blocks[..n]);
      if x in k.tree.height { FirstSeen(genesis, blocks[..n], x); }
      if x != k'.best.block && k'.tree.height[x] == k'.best.height {
        if x in k.tree.height {
          var i :| 0 <= i <= n && After(genesis, blocks[..n][..i]).best == k.best && x !in After(genesis, blocks[..n][..i]).tree.height;
          assert blocks[..n][..i] == blocks[..i];
        } else {
          assert After(genesis, blocks[..n]).best == k'.best;
        }
      }
    }
  }

  /** What offering block `i` makes the state undo can be undone: nothing, unless the head moves to
      another branch. */
  ghost predicate StepUndoable(genesis: Block, blocks: seq<Block>, i: nat)
    requires Offered(genesis, blocks) && i < |blocks|
  {
    AfterRooted(genesis, blocks[..i + 1]);
    assert blocks[..i + 1][..i] == blocks[..i];
    Undoable(After(genesis, blocks[..i + 1]).tree, After(genesis, blocks[..i]).best.block, After(genesis, blocks[..i + 1]).best.block)
  }

  ghost predicate AllUndoable(genesis: Block, blocks: seq<Block>)
    requires Offered(genesis, blocks)
  {
    forall i {:trigger StepUndoable(genesis, blocks, i)} :: 0 <= i < |blocks| ==> StepUndoable(genesis, blocks, i)
  }

  // ---------------------------------------------------------------------------------------------
  // The pool of pending transactions
  // ---------------------------------------------------------------------------------------------

  /** Blocks as they are offered, with the transactions of each; its hash covers them. */
  ghost predicate Listing(blocks: seq<Block>, txns: seq<set<U256>>) {
    && |txns| == |blocks|
    && forall i, j {:trigger Agree(blocks, txns, i, j)} :: 0 <= i < |blocks| && 0 <= j < |blocks| ==> Agree(blocks, txns, i, j)
  }

  /** The same block has the same transactions. */
  predicate Agree(blocks: seq<Block>, txns: seq<set<U256>>, i: nat, j: nat)
    requires i < |blocks| == |txns| && j < |blocks|
  {
    blocks[i].hash == blocks[j].hash ==> txns[i] == txns[j]
  }

  /** What is left of the pool once every new block has taken its transactions. */
  function PoolAfter(genesis: Block, blocks: seq<Block>, txns: seq<set<U256>>, pool: set<U256>): set<U256>
    requires |txns| == |blocks|
  {
    if blocks == [] then pool
    else
      var n := |blocks| - 1;
      var before := PoolAfter(genesis, blocks[..n], txns[..n], pool);
      if New(After(genesis, blocks[..n]), blocks[n]) then before - txns[n] else before
  }

  /** Block `i`, if it is new, finds its transactions pending. */
  predicate PooledAt(genesis: Block, blocks: seq<Block>, txns: seq<set<U256>>, pool: set<U256>, i: nat)
    requires i < |blocks| == |txns|
  {
    New(After(genesis, blocks[..i]), blocks[i]) ==> txns[i] <= PoolAfter(genesis, blocks[..i], txns[..i], pool)
  }

  /** So do all of the first `n`: no transaction of a block was taken by an earlier one. */
  ghost predicate Pooled(genesis: Block, blocks: seq<Block>, txns: seq<set<U256>>, pool: set<U256>, n: nat)
    requires n <= |blocks| == |txns|
  {
    forall i {:trigger PooledAt(genesis, blocks, txns, pool, i)} :: 0 <= i < n ==> PooledAt(genesis, blocks, txns, pool, i)
  }

  // ---------------------------------------------------------------------------------------------
  // The naive keeper
  // ---------------------------------------------------------------------------------------------

  datatype BlockNode = BlockNode(prev: U256, height: nat)

  class DummyRecordKeeper {
    var nodes: map<U256, BlockNode>
    var best: U256
    var pending: set<U256>

    /** The keeper holds exactly the blocks of `k` and the same best one. */
    ghost predicate Holds(k: Known)
      reads this
    {
      && Rooted(k.tree) && nodes.Keys == k.tree.height.Keys
      && (forall b {:trigger Same(nodes, k.tree, b)} :: b in nodes ==> Same(nodes, k.tree, b))
      && best == k.best.block && best in k.tree.height && k.tree.height[best] == k.best.height
    }

    constructor (genesis: Block, pool: set<U256>)
      requires Genesis(genesis)
      ensures Holds(Root(genesis)) && pending == pool
    {
      nodes := map[genesis.hash := BlockNode(U256_ZERO, 1)];
      best := genesis.hash;
      pending := pool;
      new;
      GenesisConsistent(genesis);
    }

    /** Adds a block below a known parent whose transactions are all pending, takes them out of the pool
        and keeps the best block. */
    method AddBlock(block: Block, txns: set<U256>, ghost k: Known) returns (added: Result<bool>)
      requires Holds(k) && block.hash != U256_ZERO
      modifies this
      ensures added == if block.hash in old(nodes) then Ok(false)
                       else if block.prev in old(nodes) && txns <= old(pending) then Ok(true) else Err(MissingPrevious)
      ensures added == Ok(true) ==> Holds(Offer(k, block)) && pending == old(pending) - txns
      ensures added != Ok(true) ==> Holds(k) && nodes == old(nodes) && pending == old(pending)
    {
      if block.hash in nodes { return Ok(false); }
      if block.prev !in nodes || !(txns <= pending) { return Err(MissingPrevious); }
      pending := pending - txns;
      Attach(block, k);
      return Ok(true);
    }

    /** Adds the block and replaces the best one by a strictly higher one. */
    method Attach(block: Block, ghost k: Known)
      requires Holds(k) && block.hash != U256_ZERO && New(k, block)
      modifies `nodes, `best
      ensures Holds(Offer(k, block))
    {
      GrownRooted(k.tree, block.hash, block.prev, block.changes);
      assert Same(nodes, k.tree, block.prev) && Same(nodes, k.tree, best);
      ghost var was := nodes;
      var height := nodes[block.prev].height + 1;
      if nodes[best].height < height { best := block.hash; }
      nodes := nodes[block.hash := BlockNode(block.prev, height)];
      forall b | b in nodes ensures Same(nodes, Offer(k, block).tree, b) {
        if b != block.hash { assert Same(was, k.tree, b); }
      }
    }

    /** Walks back from the best block looking for `hash`. */
    method IsBlockInCurrentChain(hash: U256, ghost k: Known) returns (found: Result<bool>)
      requires Holds(k)
      ensures hash !in nodes ==> found == Err(NotFound)
      ensures hash in nodes ==> found == Ok(OnBranch(k.tree, best, hash)) && found == Ok(hash in Ancestors(k.tree, best))
    {
      if hash !in nodes { return Err(NotFound); }
      ghost var t := k.tree;
      AncestorsAre(t, best, hash);
      ghost var h: nat := k.best.height;
      var cur := best;
      while cur != U256_ZERO && cur != hash
        invariant h <= Height(t, best) && cur == At(t, best, h)
        invariant OnBranch(t, best, hash) ==> t.height[hash] <= h
        decreases h
      {
        AtHeight(t, best, h);
        AtPrev(t, best, h);
        assert Same(nodes, t, cur);
        cur, h := nodes[cur].prev, h - 1;
      }
      AtHeight(t, best, h);
      if OnBranch(t, best, hash) { assert Placed(t, hash); }
      return Ok(cur == hash);
    }
  }

  predicate Same(nodes: map<U256, BlockNode>, t: Tree, b: U256)
    requires b in nodes
  {
    b in t.height && b in t.prev && nodes[b] == BlockNode(t.prev[b], t.height[b])
  }

  // ---------------------------------------------------------------------------------------------
  // Agreement
  // ---------------------------------------------------------------------------------------------

  /** The database stands at the best of the known blocks. */
  ghost predicate Keeps(db: Database, k: Known)
    reads db, db.store
  {
    && db.Linked() && db.headers.Keys == db.heights.Keys && AtTip(db.View())
    && db.View().tree == k.tree && db.head == k.best
  }

  /** The database accepts a block as the naive rule says. */
  method OfferDatabase(db: Database, block: Block, ghost k: Known)
    requires Keeps(db, k) && block.hash != U256_ZERO && (block.shard == U256_ZERO || block.shard == db.shard)
    modifies db, db.store
    ensures Keeps(db, Offer(k, block))
    ensures var k' := Offer(k, block);
            old(db.Valid()) && Node(k'.tree, k.best.block) && Undoable(k'.tree, k.best.block, k'.best.block) ==> db.Valid()
  {
    var _ := db.Accept(block);
  }

  /** The naive keeper lacks one of the first `i` blocks for good: a transaction of it is not pending. */
  ghost predicate Lacks(genesis: Block, blocks: seq<Block>, txns: seq<set<U256>>, i: nat, dummy: DummyRecordKeeper)
    requires i <= |blocks| == |txns|
    reads dummy
  {
    exists j: nat {:trigger LacksOne(genesis, blocks, txns, i, j, dummy)} :: j < i && LacksOne(genesis, blocks, txns, i, j, dummy)
  }

  ghost predicate LacksOne(genesis: Block, blocks: seq<Block>, txns: seq<set<U256>>, i: nat, j: nat, dummy: DummyRecordKeeper)
    requires j < |blocks| == |txns| && i <= |blocks|
    reads dummy
  {
    && blocks[j].hash in After(genesis, blocks[..i]).tree.height
    && blocks[j].hash !in dummy.nodes && !(txns[j] <= dummy.pending)
  }

  /** The naive keeper after the first `i` blocks: as it should be, as long as all found their
      transactions pending. */
  ghost predicate Following(genesis: Block, blocks: seq<Block>, txns: seq<set<U256>>, pool: set<U256>, i: nat, dummy: DummyRecordKeeper)
    requires i <= |blocks| == |txns|
    reads dummy
  {
    if Pooled(genesis, blocks, txns, pool, i)
    then dummy.Holds(After(genesis, blocks[..i])) && dummy.pending == PoolAfter(genesis, blocks[..i], txns[..i], pool)
    else Lacks(genesis, blocks, txns, i, dummy)
  }

  lemma {:induction false} AfterNext(genesis: Block, blocks: seq<Block>, txns: seq<set<U256>>, pool: set<U256>, i: nat)
    requires i < |blocks| == |txns|
    ensures After(genesis, blocks[..i + 1]) == Offer(After(genesis, blocks[..i]), blocks[i])
    ensures PoolAfter(genesis, blocks[..i + 1], txns[..i + 1], pool) ==
            var before := PoolAfter(genesis, blocks[..i], txns[..i], pool);
            if New(After(genesis, blocks[..i]), blocks[i]) then before - txns[i] else before
    ensures Pooled(genesis, blocks, txns, pool, i + 1) <==>
            Pooled(genesis, blocks, txns, pool, i) && PooledAt(genesis, blocks, txns, pool, i)
  {
    assert blocks[..i + 1][..i] == blocks[..i] && txns[..i + 1][..i] == txns[..i];
  }

  /** Offers block `i` to the naive keeper, whose blocks are those of `k`. */
  method OfferDummy(genesis: Block, blocks: seq<Block>, txns: seq<set<U256>>, ghost pool: set<U256>, i: nat,
                    dummy: DummyRecordKeeper, ghost k: Known) returns (ghost k': Known)
    requires Offered(genesis, blocks) && Listing(blocks, txns) && i < |blocks|
    requires dummy.Holds(k) && Following(genesis, blocks, txns, pool, i, dummy)
    modifies dummy
    ensures dummy.Holds(k') && Following(genesis, blocks, txns, pool, i + 1, dummy)
  {
    AfterNext(genesis, blocks, txns, pool, i);
    assert Offerable(genesis, blocks[i]);
    ghost var before := if Pooled(genesis, blocks, txns, pool, i) then After(genesis, blocks[..i]) else k;
    ghost var lacking: nat := i;
    if !Pooled(genesis, blocks, txns, pool, i) {
      lacking :| lacking < i && LacksOne(genesis, blocks, txns, i, lacking, dummy);
      assert Agree(blocks, txns, lacking, i);
    }
    var added := dummy.AddBlock(blocks[i], txns[i], before);
    k' := if added == Ok(true) then Offer(before, blocks[i]) else before;
    if !Pooled(genesis, blocks, txns, pool, i + 1) { assert LacksOne(genesis, blocks, txns, i + 1, lacking, dummy); }
  }

  /** Both keepers after the first `i` blocks. */
  ghost predicate Running(genesis: Block, blocks: seq<Block>, i: nat, db: Database)
    requires Offered(genesis, blocks) && i <= |blocks|
    reads db, db.store
  {
    && db.shard == genesis.hash && Keeps(db, After(genesis, blocks[..i]))
    && (AllUndoable(genesis, blocks) ==> db.Valid())
  }

  /** Offers block `i` to the database. */
  method OfferNext(genesis: Block, blocks: seq<Block>, i: nat, db: Database)
    requires Offered(genesis, blocks) && i < |blocks| && Running(genesis, blocks, i, db)
    modifies db, db.store
    ensures Running(genesis, blocks, i + 1, db)
  {
    assert blocks[..i + 1][..i] == blocks[..i] && Offerable(genesis, blocks[i]);
    AfterRooted(genesis, blocks[..i + 1]);
    assert AllUndoable(genesis, blocks) ==> StepUndoable(genesis, blocks, i);
    OfferDatabase(db, blocks[i], After(genesis, blocks[..i]));
  }

  /** Offers all blocks to the database. */
  method RunDatabase(genesis: Block, blocks: seq<Block>) returns (db: Database)
    requires Offered(genesis, blocks)
    ensures fresh(db) && fresh(db.store) && Keeps(db, After(genesis, blocks)) && (AllUndoable(genesis, blocks) ==> db.Valid())
  {
    db := new Database(genesis);
    for i := 0 to |blocks|
      invariant fresh(db) && fresh(db.store) && Running(genesis, blocks, i, db)
    {
      OfferNext(genesis, blocks, i, db);
    }
    assert blocks[..|blocks|] == blocks;
  }

  lemma {:induction false} FollowingStarts(genesis: Block, blocks: seq<Block>, txns: seq<set<U256>>, pool: set<U256>, dummy: DummyRecordKeeper)
    requires |txns| == |blocks| && dummy.Holds(Root(genesis)) && dummy.pending == pool
    ensures Following(genesis, blocks, txns, pool, 0, dummy)
  {
    assert blocks[..0] == [] && txns[..0] == [];
  }

  lemma {:induction false} FollowingEnds(genesis: Block, blocks: seq<Block>, txns: seq<set<U256>>, pool: set<U256>, dummy: DummyRecordKeeper)
    requires |txns| == |blocks| && Following(genesis, blocks, txns, pool, |blocks|, dummy)
    ensures dummy.Holds(After(genesis, blocks)) <==> Pooled(genesis, blocks, txns, pool, |blocks|)
  {
    assert blocks[..|blocks|] == blocks;
  }

  /** Offers all blocks to the naive keeper. */
  method RunDummy(genesis: Block, blocks: seq<Block>, txns: seq<set<U256>>, pool: set<U256>) returns (dummy: DummyRecordKeeper)
    requires Offered(genesis, blocks) && Listing(blocks, txns)
    ensures fresh(dummy)
    ensures dummy.Holds(After(genesis, blocks)) <==> Pooled(genesis, blocks, txns, pool, |blocks|)
  {
    dummy := new DummyRecordKeeper(genesis, pool);
    FollowingStarts(genesis, blocks, txns, pool, dummy);
    OfferAll(genesis, blocks, txns, pool, dummy);
    FollowingEnds(genesis, blocks, txns, pool, dummy);
  }

  /** Offers the blocks to a naive keeper that holds the genesis block. */
  method OfferAll(genesis: Block, blocks: seq<Block>, txns: seq<set<U256>>, ghost pool: set<U256>, dummy: DummyRecordKeeper)
    requires Offered(genesis, blocks) && Listing(blocks, txns)
    requires dummy.Holds(Root(genesis)) && Following(genesis, blocks, txns, pool, 0, dummy)
    modifies dummy
    ensures Following(genesis, blocks, txns, pool, |blocks|, dummy)
  {
    ghost var k := Root(genesis);
    for i := 0 to |blocks|
      invariant dummy.Holds(k) && Following(genesis, blocks, txns, pool, i, dummy)
    {
      k := OfferDummy(genesis, blocks, txns, pool, i, dummy, k);
    }
  }

  /** Offering any sequence of blocks to both keepers, they end with the same blocks and the same head
      exactly when no new block finds a transaction of its own already taken from the pool; and if
      whatever the state had to undo on the way can be undone, the database's network state is the
      replay of the head's branch. */
  method Run(genesis: Block, blocks: seq<Block>, txns: seq<set<U256>>, pool: set<U256>)
    returns (db: Database, dummy: DummyRecordKeeper)
    requires Offered(genesis, blocks) && Listing(blocks, txns)
    ensures Keeps(db, After(genesis, blocks))
    ensures dummy.Holds(After(genesis, blocks)) <==> Pooled(genesis, blocks, txns, pool, |blocks|)
    ensures AllUndoable(genesis, blocks) ==>
              db.Valid() && db.store.Abs() == Replay(db.View().tree, db.head.block)
  {
    db := RunDatabase(genesis, blocks);
    dummy := RunDummy(genesis, blocks, txns, pool);
  }

  /** At the tip, the database's constant-time membership test and the back-walk agree. */
  method SameMembership(db: Database, dummy: DummyRecordKeeper, ghost k: Known, hash: U256) returns (fast: Result<bool>, slow: Result<bool>)
    requires Keeps(db, k) && dummy.Holds(k)
    ensures fast == slow
  {
    fast := db.IsPartOfCurrentChain(hash);
    slow := dummy.IsBlockInCurrentChain(hash, k);
  }
}
