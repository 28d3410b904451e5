/**
  Packing blocks with their transactions for transfer: each distinct transaction is stored once and
  referenced by a 16-bit index in the order of first use.
 */
module BlockPackage {
  import opened Primitives

  /** A header, with the size of its encoding. */
  datatype Header = Header(hash: U256, size: nat)

  /** A transaction, with its hash and encoded size. */
  datatype Txn = Txn(hash: U256, size: nat)

  datatype Block = Block(header: Header, txns: seq<U256>)

  /** A block whose transactions are given by index. */
  datatype PackedBlock = PackedBlock(header: Header, ids: seq<nat>)

  datatype Package = Package(blocks: seq<PackedBlock>, txns: seq<Txn>)

  /** The transactions of the database, by hash. */
  type TxnStore = map<U256, Txn>

  predicate ByHash(store: TxnStore) {
    forall h :: h in store ==> store[h].hash == h
  }

  // ---------------------------------------------------------------------------------------------
  // Reference
  // ---------------------------------------------------------------------------------------------

  /** All transactions referenced by the blocks, in order. */
  function References(blocks: seq<Block>): seq<U256> {
    if blocks == [] then [] else References(blocks[..|blocks| - 1]) + blocks[|blocks| - 1].txns
  }

  /** The distinct hashes of a list, in order of first appearance. */
  function FirstUses(list: seq<U256>): seq<U256> {
    if list == [] then []
    else
      var before := FirstUses(list[..|list| - 1]);
      if list[|list| - 1] in before then before else before + [list[|list| - 1]]
  }

  function Sizes(store: TxnStore, hashes: seq<U256>): nat {
    if hashes == [] then 0
    else Sizes(store, hashes[..|hashes| - 1]) + (if hashes[|hashes| - 1] in store then store[hashes[|hashes| - 1]].size else 0)
  }

  /** Header bytes and two bytes for each reference and the end of the list. */
  function Overhead(blocks: seq<Block>): nat {
    if blocks == [] then 0
    else
      var last := blocks[|blocks| - 1];
      Overhead(blocks[..|blocks| - 1]) + last.header.size + (|last.txns| + 1) * 2
  }

  /** The bytes counted for a list of blocks packed together. */
  function PackedSize(store: TxnStore, blocks: seq<Block>): nat {
    Overhead(blocks) + Sizes(store, FirstUses(References(blocks)))
  }

  /** `k` blocks fit the limit and no longer prefix does. */
  ghost predicate LongestFitting(store: TxnStore, blocks: seq<Block>, limit: nat, k: nat) {
    && k <= |blocks| && PackedSize(store, blocks[..k]) <= limit
    && forall j :: k < j <= |blocks| ==> PackedSize(store, blocks[..j]) > limit
  }

  // ---------------------------------------------------------------------------------------------
  // First uses
  // ---------------------------------------------------------------------------------------------

  predicate Distinct(list: seq<U256>) {
    forall i, j :: 0 <= i < j < |list| ==> list[i] != list[j]
  }

  lemma {:induction false} FirstUsesFacts(list: seq<U256>)
    ensures Distinct(FirstUses(list)) && forall h :: h in FirstUses(list) <==> h in list
  {
    if list != [] {
      FirstUsesFacts(list[..|list| - 1]);
      assert list == list[..|list| - 1] + [list[|list| - 1]];
    }
  }

  lemma {:induction false} FirstUsesSnoc(list: seq<U256>, h: U256)
    ensures FirstUses(list + [h]) == if h in FirstUses(list) then FirstUses(list) else FirstUses(list) + [h]
  {
    assert (list + [h])[..|list|] == list;
  }

  /** The first uses of a prefix are a prefix of the first uses. */
  lemma {:induction false} FirstUsesPrefix(list: seq<U256>, more: seq<U256>)
    ensures FirstUses(list) <= FirstUses(list + more)
    decreases |more|
  {
    if more == [] {
      assert list + more == list;
    } else {
      var m := |more| - 1;
      FirstUsesPrefix(list, more[..m]);
      assert list + more == (list + more[..m]) + [more[m]];
      FirstUsesSnoc(list + more[..m], more[m]);
    }
  }

  /** An index of the distinct hashes. */
  ghost predicate Indexes(index: map<U256, nat>, order: seq<U256>) {
    && (forall h :: h in index <==> h in order)
    && (forall h :: h in index ==> index[h] < |order| && order[index[h]] == h)
  }

  lemma {:induction false} IndexesSnoc(index: map<U256, nat>, order: seq<U256>, h: U256)
    requires Indexes(index, order) && h !in order
    ensures Indexes(index[h := |order|], order + [h])
  {
    var index', order' := index[h := |order|], order + [h];
    forall g | g in index' ensures index'[g] < |order'| && order'[index'[g]] == g {
    }
  }

  /** Numbers the distinct hashes of one more list. */
  method NumberTxns(txns: seq<U256>, index: map<U256, nat>, ghost seen: seq<U256>) returns (index': map<U256, nat>)
    requires Indexes(index, FirstUses(seen)) && |index| == |FirstUses(seen)|
    ensures Indexes(index', FirstUses(seen + txns)) && |index'| == |FirstUses(seen + txns)|
  {
    index' := index;
    assert seen + txns[..0] == seen;
    for i := 0 to |txns|
      invariant Indexes(index', FirstUses(seen + txns[..i])) && |index'| == |FirstUses(seen + txns[..i])|
    {
      assert seen + txns[..i + 1] == (seen + txns[..i]) + [txns[i]];
      FirstUsesSnoc(seen + txns[..i], txns[i]);
      if txns[i] !in index' {
        IndexesSnoc(index', FirstUses(seen + txns[..i]), txns[i]);
        index' := index'[txns[i] := |index'|];
      }
    }
    assert txns[..|txns|] == txns;
  }

  lemma {:induction false} PackedNothing(store: TxnStore)
    ensures References([]) == [] && FirstUses([]) == [] && PackedSize(store, []) == 0
  {
  }

  lemma {:induction false} ReferencesSnoc(blocks: seq<Block>, i: nat)
    requires i < |blocks|
    ensures References(blocks[..i + 1]) == References(blocks[..i]) + blocks[i].txns
    ensures Overhead(blocks[..i + 1]) == Overhead(blocks[..i]) + blocks[i].header.size + (|blocks[i].txns| + 1) * 2
  {
    assert blocks[..i + 1][..i] == blocks[..i];
  }

  method NumberAll(blocks: seq<Block>) returns (index: map<U256, nat>)
    ensures Indexes(index, FirstUses(References(blocks)))
  {
    index := map[];
    for i := 0 to |blocks|
      invariant Indexes(index, FirstUses(References(blocks[..i]))) && |index| == |FirstUses(References(blocks[..i]))|
    {
      ReferencesSnoc(blocks, i);
      index := NumberTxns(blocks[i].txns, index, References(blocks[..i]));
    }
    assert blocks[..|blocks|] == blocks;
  }

  /** In the numbering of everything, the next new hash is the one numbered with the count so far. */
  lemma {:induction false} NextNew(index: map<U256, nat>, all: seq<U256>, seen: seq<U256>, h: U256, rest: seq<U256>)
    requires Indexes(index, FirstUses(all)) && all == seen + [h] + rest
    ensures h in index && (index[h] == |FirstUses(seen)| <==> h !in FirstUses(seen))
    ensures h in FirstUses(seen + [h])
    ensures index[h] < |FirstUses(seen + [h])| && FirstUses(seen + [h])[index[h]] == h
  {
    FirstUsesFacts(all);
    FirstUsesFacts(seen);
    FirstUsesSnoc(seen, h);
    assert h == all[|seen|];
    FirstUsesPrefix(seen + [h], rest);
    var here, whole := FirstUses(seen + [h]), FirstUses(all);
    assert here <= whole;
    var k :| 0 <= k < |here| && here[k] == h;
    assert whole[k] == h && whole[index[h]] == h;
  }

  // ---------------------------------------------------------------------------------------------
  // Packing
  // ---------------------------------------------------------------------------------------------

  predicate AllIn(store: TxnStore, hashes: seq<U256>) {
    forall i :: 0 <= i < |hashes| ==> hashes[i] in store
  }

  function TxnsOf(store: TxnStore, hashes: seq<U256>): seq<Txn>
    requires AllIn(store, hashes)
  {
    seq(|hashes|, i requires 0 <= i < |hashes| => store[hashes[i]])
  }

  /** What extending the distinct hashes from `uses` to `uses'` has collected. */
  ghost predicate Found(store: TxnStore, uses: seq<U256>, uses': seq<U256>, found: seq<Txn>, count: nat, size: nat) {
    && AllIn(store, uses') && uses <= uses' && count == |uses'|
    && TxnsOf(store, uses) + found == TxnsOf(store, uses')
    && size == Sizes(store, uses') - Sizes(store, uses)
  }

  lemma {:induction false} FoundSnoc(store: TxnStore, uses: seq<U256>, uses': seq<U256>, found: seq<Txn>, count: nat, size: nat, h: U256)
    requires Found(store, uses, uses', found, count, size) && h in store
    ensures Found(store, uses, uses' + [h], found + [store[h]], count + 1, size + store[h].size)
  {
    assert (uses' + [h])[..|uses'|] == uses';
    assert TxnsOf(store, uses' + [h]) == TxnsOf(store, uses') + [store[h]];
  }

  /** The indices of a list of hashes. */
  predicate Numbered(index: map<U256, nat>, txns: seq<U256>, ids: seq<nat>) {
    && |ids| == |txns|
    && forall i :: 0 <= i < |txns| ==> txns[i] in index && ids[i] == index[txns[i]]
  }

  lemma {:induction false} NumberedSnoc(index: map<U256, nat>, txns: seq<U256>, i: nat, ids: seq<nat>)
    requires i < |txns| && Numbered(index, txns[..i], ids) && txns[i] in index
    ensures Numbered(index, txns[..i + 1], ids + [index[txns[i]]])
  {
  }

  lemma {:induction false} FoundNothing(store: TxnStore, uses: seq<U256>)
    requires AllIn(store, uses)
    ensures Found(store, uses, uses, [], |uses|, 0)
  {
  }

  /** Indices of one block's transactions and the transactions not packed before. */
  method PackBlock(store: TxnStore, index: map<U256, nat>, txns: seq<U256>, count: nat, ghost seen: seq<U256>, ghost all: seq<U256>, ghost rest: seq<U256>)
    returns (ids: seq<nat>, found: seq<Txn>, count': nat, size: nat, ok: bool)
    requires Indexes(index, FirstUses(all)) && all == seen + txns + rest
    requires AllIn(store, FirstUses(seen)) && count == |FirstUses(seen)|
    ensures ok ==> Numbered(index, txns, ids) && Found(store, FirstUses(seen), FirstUses(seen + txns), found, count', size)
    ensures !ok ==> exists h :: h in txns && h !in store
  {
    ghost var uses, uses' := FirstUses(seen), FirstUses(seen);
    ids, found, count', size := [], [], count, 0;
    assert seen + txns[..0] == seen;
    FoundNothing(store, uses);
    for i := 0 to |txns|
      invariant Numbered(index, txns[..i], ids)
      invariant uses' == FirstUses(seen + txns[..i])
      invariant Found(store, uses, uses', found, count', size)
    {
      var h := txns[i];
      PackStep(index, seen, txns, rest, i);
      NumberedSnoc(index, txns, i, ids);
      var id := index[h];
      ids := ids + [id];
      if id == count' {
        if h !in store { return ids, found, count', size, false; }
        FoundSnoc(store, uses, uses', found, count', size, h);
        uses' := uses' + [h];
        size := size + store[h].size;
        found := found + [store[h]];
        count' := count' + 1;
      }
    }
    assert txns[..|txns|] == txns;
    ok := true;
  }

  lemma {:induction false} PackStep(index: map<U256, nat>, seen: seq<U256>, txns: seq<U256>, rest: seq<U256>, i: nat)
    requires i < |txns| && Indexes(index, FirstUses(seen + txns + rest))
    ensures txns[i] in index
    ensures var past := FirstUses(seen + txns[..i]);
            FirstUses(seen + txns[..i + 1]) == if index[txns[i]] == |past| then past + [txns[i]] else past
  {
    var past := seen + txns[..i];
    assert seen + txns + rest == past + [txns[i]] + (txns[i + 1..] + rest);
    NextNew(index, seen + txns + rest, past, txns[i], txns[i + 1..] + rest);
    assert seen + txns[..i + 1] == past + [txns[i]];
    FirstUsesSnoc(past, txns[i]);
  }

  /** A package of the first `k` blocks. */
  ghost predicate Packs(store: TxnStore, index: map<U256, nat>, blocks: seq<Block>, k: nat, p: Package)
    requires k <= |blocks|
  {
    var uses := FirstUses(References(blocks[..k]));
    && AllIn(store, uses) && p.txns == TxnsOf(store, uses) && |p.blocks| == k
    && forall j :: 0 <= j < k ==> Encodes(index, blocks[j], p.blocks[j])
  }

  predicate Encodes(index: map<U256, nat>, block: Block, packed: PackedBlock) {
    packed.header == block.header && Numbered(index, block.txns, packed.ids)
  }

  lemma {:induction false} PacksNext(store: TxnStore, index: map<U256, nat>, blocks: seq<Block>, k: nat, p: Package, ids: seq<nat>, found: seq<Txn>, count: nat, size: nat)
    requires k < |blocks| && Packs(store, index, blocks, k, p)
    requires Numbered(index, blocks[k].txns, ids)
    requires Found(store, FirstUses(References(blocks[..k])), FirstUses(References(blocks[..k]) + blocks[k].txns), found, count, size)
    ensures Packs(store, index, blocks, k + 1, Package(p.blocks + [PackedBlock(blocks[k].header, ids)], p.txns + found))
    ensures PackedSize(store, blocks[..k + 1]) == PackedSize(store, blocks[..k]) + blocks[k].header.size + (|blocks[k].txns| + 1) * 2 + size
  {
    ReferencesSnoc(blocks, k);
    var p' := Package(p.blocks + [PackedBlock(blocks[k].header, ids)], p.txns + found);
    forall j | 0 <= j < k + 1 ensures Encodes(index, blocks[j], p'.blocks[j]) {
      if j < k { assert Encodes(index, blocks[j], p.blocks[j]); }
    }
  }

  lemma {:induction false} SizesGrow(store: TxnStore, a: seq<U256>, b: seq<U256>)
    requires a <= b
    ensures Sizes(store, a) <= Sizes(store, b)
    decreases |b|
  {
    if |a| < |b| {
      SizesGrow(store, a, b[..|b| - 1]);
    } else {
      assert a == b;
    }
  }

  lemma {:induction false} PackedSizeNext(store: TxnStore, blocks: seq<Block>, j: nat)
    requires j < |blocks|
    ensures PackedSize(store, blocks[..j]) <= PackedSize(store, blocks[..j + 1])
  {
    var before, after := blocks[..j], blocks[..j + 1];
    ReferencesSnoc(blocks, j);
    FirstUsesPrefix(References(before), blocks[j].txns);
    SizesGrow(store, FirstUses(References(before)), FirstUses(References(after)));
  }

  /** A longer prefix never packs into less. */
  lemma {:induction false} PackedSizeGrows(store: TxnStore, blocks: seq<Block>, i: nat, j: nat)
    requires i <= j <= |blocks|
    ensures PackedSize(store, blocks[..i]) <= PackedSize(store, blocks[..j])
    decreases j
  {
    if i < j {
      PackedSizeGrows(store, blocks, i, j - 1);
      PackedSizeNext(store, blocks, j - 1);
    }
  }

  lemma {:induction false} ReferencesSplit(blocks: seq<Block>, k: nat)
    requires k <= |blocks|
    ensures exists rest :: References(blocks) == References(blocks[..k]) + rest
    decreases |blocks|
  {
    if k == |blocks| {
      assert blocks[..k] == blocks && References(blocks) == References(blocks[..k]) + [];
    } else {
      var init := blocks[..|blocks| - 1];
      ReferencesSplit(init, k);
      assert init[..k] == blocks[..k];
      var rest :| References(init) == References(blocks[..k]) + rest;
      assert References(blocks) == References(blocks[..k]) + (rest + blocks[|blocks| - 1].txns);
    }
  }

  /** Packs the longest prefix of the blocks that fits the limit. */
  method Pack(store: TxnStore, blocks: seq<Block>, limit: nat) returns (p: Result<Package>, ghost index: map<U256, nat>, ghost k: nat)
    requires |FirstUses(References(blocks))| <= 0xffff
    ensures p.Err? ==> p.error == NotFound && exists h :: h in References(blocks) && h !in store
    ensures p.Ok? ==> Indexes(index, FirstUses(References(blocks))) && LongestFitting(store, blocks, limit, k) && Packs(store, index, blocks, k, p.value)
  {
    ghost var all := References(blocks);
    var numbers := NumberAll(blocks);
    index := numbers;
    var package := Package([], []);
    var count, size := 0, 0;
    k := 0;
    assert blocks[..0] == [];
    while |package.blocks| < |blocks|
      invariant |package.blocks| == k <= |blocks| && Packs(store, index, blocks, k, package)
      invariant count == |FirstUses(References(blocks[..k]))| && size == PackedSize(store, blocks[..k]) <= limit
    {
      var block := blocks[|package.blocks|];
      ReferencesSnoc(blocks, k);
      ReferencesSplit(blocks, k + 1);
      ghost var rest :| all == References(blocks[..k + 1]) + rest;
      var ids, found, count', more, ok := PackBlock(store, numbers, block.txns, count, References(blocks[..k]), all, rest);
      if !ok { return Err(NotFound), index, k; }
      PacksNext(store, index, blocks, k, package, ids, found, count', more);
      size := size + block.header.size + (|block.txns| + 1) * 2 + more;
      if size > limit {
        forall j | k < j <= |blocks| ensures PackedSize(store, blocks[..j]) > limit { PackedSizeGrows(store, blocks, k + 1, j); }
        return Ok(package), index, k;
      }
      package := Package(package.blocks + [PackedBlock(block.header, ids)], package.txns + found);
      count, k := count', k + 1;
    }
    return Ok(package), index, k;
  }

  // ---------------------------------------------------------------------------------------------
  // Unpacking
  // ---------------------------------------------------------------------------------------------

  /** Indices out of range are dropped. */
  function Resolve(ids: seq<nat>, txns: seq<Txn>): seq<U256> {
    if ids == [] then []
    else Resolve(ids[..|ids| - 1], txns) + (if ids[|ids| - 1] < |txns| then [txns[ids[|ids| - 1]].hash] else [])
  }

  function Unpack(p: Package): (seq<Block>, map<U256, Txn>) {
    (seq(|p.blocks|, i requires 0 <= i < |p.blocks| => Block(p.blocks[i].header, Resolve(p.blocks[i].ids, p.txns))),
     TxnsByHash(p.txns))
  }

  /** Later transactions replace earlier ones of the same hash. */
  function TxnsByHash(txns: seq<Txn>): map<U256, Txn> {
    if txns == [] then map[] else TxnsByHash(txns[..|txns| - 1])[txns[|txns| - 1].hash := txns[|txns| - 1]]
  }

  lemma {:induction false} ResolveMeans(ids: seq<nat>, id: nat, txns: seq<Txn>)
    ensures Resolve([], txns) == []
    ensures Resolve(ids + [id], txns) == if id < |txns| then Resolve(ids, txns) + [txns[id].hash] else Resolve(ids, txns)
  {
    assert (ids + [id])[..|ids|] == ids;
  }

  lemma {:induction false} ResolveAll(ids: seq<nat>, txns: seq<Txn>, hashes: seq<U256>)
    requires |ids| == |hashes| && forall i :: 0 <= i < |ids| ==> ids[i] < |txns| && txns[ids[i]].hash == hashes[i]
    ensures Resolve(ids, txns) == hashes
  {
    if ids != [] {
      var n := |ids| - 1;
      ResolveAll(ids[..n], txns, hashes[..n]);
      assert hashes == hashes[..n] + [hashes[n]];
    }
  }

  lemma {:induction false} TxnsByHashOf(store: TxnStore, hashes: seq<U256>)
    requires ByHash(store) && AllIn(store, hashes)
    ensures TxnsByHash(TxnsOf(store, hashes)) == map h | h in hashes :: store[h]
  {
    if hashes != [] {
      var n := |hashes| - 1;
      TxnsByHashOf(store, hashes[..n]);
      assert TxnsOf(store, hashes)[..n] == TxnsOf(store, hashes[..n]);
      assert hashes == hashes[..n] + [hashes[n]];
    }
  }

  /** Every reference of an included block resolves within the package. */
  lemma {:induction false} ReferenceInPackage(index: map<U256, nat>, blocks: seq<Block>, k: nat, j: nat, i: nat)
    requires Indexes(index, FirstUses(References(blocks))) && j < k <= |blocks| && i < |blocks[j].txns|
    ensures var uses, h := FirstUses(References(blocks[..k])), blocks[j].txns[i];
            h in index && index[h] < |uses| && uses[index[h]] == h
  {
    var h := blocks[j].txns[i];
    ReferencesSplit(blocks, k);
    var rest :| References(blocks) == References(blocks[..k]) + rest;
    var part := References(blocks[..k]);
    ReferencedIn(blocks, k, j, i);
    FirstUsesFacts(part);
    FirstUsesFacts(References(blocks));
    FirstUsesPrefix(part, rest);
    var uses, whole := FirstUses(part), FirstUses(References(blocks));
    assert h in uses;
    var m :| 0 <= m < |uses| && uses[m] == h;
    assert whole[m] == h && whole[index[h]] == h;
  }

  lemma {:induction false} ReferencedIn(blocks: seq<Block>, k: nat, j: nat, i: nat)
    requires j < k <= |blocks| && i < |blocks[j].txns|
    ensures blocks[j].txns[i] in References(blocks[..k])
    decreases k
  {
    ReferencesSnoc(blocks, k - 1);
    if j < k - 1 { ReferencedIn(blocks, k - 1, j, i); }
  }

  /** Unpacking gives back exactly the packed blocks, with their own transaction lists, and exactly the
      transactions they reference. */
  lemma {:induction false} RoundTrip(store: TxnStore, index: map<U256, nat>, blocks: seq<Block>, k: nat, p: Package)
    requires ByHash(store) && Indexes(index, FirstUses(References(blocks))) && k <= |blocks| && Packs(store, index, blocks, k, p)
    ensures Unpack(p).0 == blocks[..k]
    ensures AllIn(store, FirstUses(References(blocks[..k])))
    ensures Unpack(p).1 == map h | h in FirstUses(References(blocks[..k])) :: store[h]
    ensures forall h :: h in Unpack(p).1 <==> h in References(blocks[..k])
  {
    var uses := FirstUses(References(blocks[..k]));
    FirstUsesFacts(References(blocks[..k]));
    TxnsByHashOf(store, uses);
    forall j | 0 <= j < k ensures Unpack(p).0[j] == blocks[j] {
      assert Encodes(index, blocks[j], p.blocks[j]);
      forall i | 0 <= i < |blocks[j].txns| ensures p.blocks[j].ids[i] < |p.txns| && p.txns[p.blocks[j].ids[i]].hash == blocks[j].txns[i] {
        ReferenceInPackage(index, blocks, k, j, i);
        assert uses[index[blocks[j].txns[i]]] in store;
      }
      ResolveAll(p.blocks[j].ids, p.txns, blocks[j].txns);
    }
  }

  /** Packing for a limit and unpacking: the longest prefix that fits, unchanged. */
  method PackAndUnpack(store: TxnStore, blocks: seq<Block>, limit: nat) returns (sent: Result<(seq<Block>, map<U256, Txn>)>, ghost k: nat)
    requires ByHash(store) && AllIn(store, References(blocks)) && |FirstUses(References(blocks))| <= 0xffff
    ensures LongestFitting(store, blocks, limit, k)
    ensures sent.Ok? && sent.value.0 == blocks[..k]
    ensures forall h :: h in sent.value.1 <==> h in References(blocks[..k])
    ensures forall h :: h in sent.value.1 ==> h in store && sent.value.1[h] == store[h]
  {
    var p, index, n := Pack(store, blocks, limit);
    k := n;
    RoundTrip(store, index, blocks, k, p.value);
    sent := Ok(Unpack(p.value));
  }
}
